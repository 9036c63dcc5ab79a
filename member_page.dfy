/** The member page: search, nine cards per page, the page buttons, and the
    add-member form's checks. */
module MemberPage {
  import opened Common
  import opened Paging
  import opened ClientMember
  import MemberContext

  const MembersPerPage: nat := 9

  /** `Math.max(1, Math.min(totalPages, p + dir))`. */
  function NextPage(p: int, dir: int, totalPages: nat): (r: int)
    ensures r >= 1
    ensures totalPages >= 1 ==> r <= totalPages
    ensures totalPages == 0 ==> r == 1
    ensures 1 <= p + dir <= totalPages ==> r == p + dir
  {
    Max(1, Min(totalPages, p + dir))
  }

  /** The pages of a search result: page `p` is the result's items
      `[(p-1)*9, p*9)`, at most nine of them; pages 1 to the page count
      concatenate to the whole result, and a page past the count is
      empty. */
  lemma SearchPages(cs: seq<Card>, q: string, p: nat)
    requires p >= 1
    ensures |Page(Search(cs, q), p, MembersPerPage)| <= MembersPerPage
    ensures forall k :: 0 <= k < |Page(Search(cs, q), p, MembersPerPage)| ==>
      Page(Search(cs, q), p, MembersPerPage)[k] == Search(cs, q)[(p - 1) * MembersPerPage + k]
    ensures PagesUpTo(Search(cs, q), MembersPerPage, CeilDiv(|Search(cs, q)|, MembersPerPage)) == Search(cs, q)
    ensures p > CeilDiv(|Search(cs, q)|, MembersPerPage) ==> Page(Search(cs, q), p, MembersPerPage) == []
  {
    var f := Search(cs, q);
    PageContents(f, p, MembersPerPage);
    PagesCover(f, MembersPerPage);
    if p > CeilDiv(|f|, MembersPerPage) {
      PageBeyondLast(f, p, MembersPerPage);
    }
  }

  /** The list state of the page. The current page is reset to 1 by an
      effect whenever the search text or the number of members changes. */
  class MemberList {
    var members: seq<Card>
    var search: string
    var currentPage: int

    ghost predicate Valid()
      reads this
    {
      currentPage >= 1
    }

    constructor (members: seq<Card>)
      ensures Valid()
      ensures this.members == members && search == "" && currentPage == 1
    {
      this.members := members;
      search := "";
      currentPage := 1;
    }

    /** `filteredMembers`. */
    function Filtered(): seq<Card>
      reads this
    {
      Search(members, search)
    }

    /** `Math.ceil(filteredMembers.length / membersPerPage)`. */
    function TotalPages(): (n: nat)
      reads this
      ensures n * MembersPerPage >= |Filtered()|
      ensures n == 0 || (n - 1) * MembersPerPage < |Filtered()|
    {
      CeilDiv(|Filtered()|, MembersPerPage)
    }

    /** `paginatedMembers`. */
    function Paginated(): seq<Card>
      reads this
      requires Valid()
    {
      Page(Filtered(), currentPage, MembersPerPage)
    }

    /** `handlePageChange(dir)`. */
    method PageChange(dir: int)
      requires Valid()
      modifies this
      ensures Valid()
      ensures currentPage == NextPage(old(currentPage), dir, old(TotalPages()))
      ensures members == old(members) && search == old(search)
    {
      currentPage := Max(1, Min(TotalPages(), currentPage + dir));
    }

    /** Typing in the search box; the reset effect fires when the text
      changes. */
    method SetSearch(q: string)
      requires Valid()
      modifies this
      ensures Valid()
      ensures search == q && members == old(members)
      ensures currentPage == if q != old(search) then 1 else old(currentPage)
    {
      if q != search {
        currentPage := 1;
      }
      search := q;
    }

    /** A new member list from the shared state; the reset effect fires when
        its length changes. */
    method SetMembers(ms: seq<Card>)
      requires Valid()
      modifies this
      ensures Valid()
      ensures members == ms && search == old(search)
      ensures currentPage == if |ms| != |old(members)| then 1 else old(currentPage)
    {
      if |ms| != |members| {
        currentPage := 1;
      }
      members := ms;
    }
  }

  // ---------------------------------------------------------------------
  // Add-member form

  /** The fields of the add-member form, as typed. */
  datatype MemberForm = MemberForm(name: string, number: string, membership: string, expiry: string, picture: string)

  const EmptyForm: MemberForm := MemberForm("", "", "", "", "")

  /** What `handleAddMember` sends: the form with `joined` set to the
      `YYYY-MM-DD` part of the ISO timestamp. */
  datatype AddPayload = AddPayload(form: MemberForm, joined: string)

  function JoinedToday(form: MemberForm, isoNow: string): (r: AddPayload)
    ensures r.form == form
    ensures |isoNow| >= 10 ==> r.joined == isoNow[..10] && |r.joined| == 10
  {
    AddPayload(form, isoNow[..Min(10, |isoNow|)])
  }

  const MissingFields: string := "Please fill in all required fields"
  const BadNumber: string := "Please enter a valid 10-digit phone number"
  const PastExpiry: string := "Expiry date cannot be in the past"

  /** The checks of `handleSubmit` at instant `now`, returning the message of
      the first one that throws. `expiryAt` is `new Date(form.expiry)`,
      `None` when the text is not a date (the comparison is then false and
      lets it through). */
  function FormError(form: MemberForm, expiryAt: Option<int>, now: int): Option<string> {
    if form.name == "" || form.number == "" || form.membership == "" || form.expiry == "" then Some(MissingFields)
    else if !IsTenDigits(form.number) then Some(BadNumber)
    else if expiryAt.Some? && Day(expiryAt.value) < Day(now) then Some(PastExpiry)
    else None
  }

  /** The checks run in order: a missing field is reported whatever the
      number and date; a bad number before the date; a form passes exactly
      when no check fails, so an expiry on today's day is accepted. */
  lemma FormErrorSpec(form: MemberForm, expiryAt: Option<int>, now: int)
    ensures (form.name == "" || form.number == "" || form.membership == "" || form.expiry == "") ==>
      FormError(form, expiryAt, now) == Some(MissingFields)
    ensures form.name != "" && form.number != "" && form.membership != "" && form.expiry != "" && !IsTenDigits(form.number) ==>
      FormError(form, expiryAt, now) == Some(BadNumber)
    ensures FormError(form, expiryAt, now).None? <==>
      form.name != "" && form.membership != "" && form.expiry != "" && IsTenDigits(form.number) &&
      (expiryAt.Some? ==> Day(expiryAt.value) >= Day(now))
    ensures (form.name != "" && form.membership != "" && form.expiry != "" && IsTenDigits(form.number) &&
      expiryAt.Some? && Day(expiryAt.value) == Day(now)) ==> FormError(form, expiryAt, now).None?
  {
  }

  const AddFallback: string := "Failed to add member. Please try again."

  /** `err.message || 'Failed to add member. Please try again.'`: what the
      form shows when `onAdd` throws `thrown`. */
  function ShownFailure(thrown: string): (m: string)
    ensures m != ""
    ensures thrown != "" ==> m == thrown
    ensures thrown == "" ==> m == AddFallback
  {
    if thrown != "" then thrown else AddFallback
  }

  /** A create the server refuses surfaces in the form with the text
      `addMember` threw, unchanged: the body's `error`, else its `message`;
      the form's own fallback is reached only through an empty message,
      which `addMember` never throws. */
  lemma RefusalShowsServerText(error: Option<string>, message: Option<string>)
    ensures ShownFailure(MemberContext.AddFailureMessage(error, message)) == MemberContext.AddFailureMessage(error, message)
    ensures error.Some? && error.value != "" ==> ShownFailure(MemberContext.AddFailureMessage(error, message)) == error.value
    ensures (error.None? || error.value == "") && message.Some? && message.value != "" ==>
      ShownFailure(MemberContext.AddFailureMessage(error, message)) == message.value
  {
  }

  /** The add-member form: its fields and the message it shows. */
  class AddMemberForm {
    var form: MemberForm
    var error: string

    constructor ()
      ensures form == EmptyForm && error == ""
    {
      form := EmptyForm;
      error := "";
    }

    /** `handleSubmit`: on a failed check the message is shown, the form
        kept and `onAdd` not called; otherwise the form is handed to `onAdd`
        (returned here). `addOk` is whether that call returned: then the
        form is cleared; when it threw `thrown`, its message is shown and
        the form kept for another try. */
    method Submit(expiryAt: Option<int>, now: int, addOk: bool, thrown: string) returns (sent: Option<MemberForm>)
      modifies this
      ensures FormError(old(form), expiryAt, now).Some? ==>
        sent.None? && error == FormError(old(form), expiryAt, now).value && form == old(form)
      ensures FormError(old(form), expiryAt, now).None? ==> sent == Some(old(form))
      ensures FormError(old(form), expiryAt, now).None? && addOk ==> error == "" && form == EmptyForm
      ensures FormError(old(form), expiryAt, now).None? && !addOk ==> error == ShownFailure(thrown) && form == old(form)
    {
      error := "";
      var e := FormError(form, expiryAt, now);
      if e.Some? {
        error := e.value;
        return None;
      }
      sent := Some(form);
      if !addOk {
        error := ShownFailure(thrown);
        return;
      }
      form := EmptyForm;
    }
  }

  /** `handleAddMember`: the payload sent, and, when `addMember` returned
      (`addOk`), the list's page reset to 1; when it threw, the page stays
      and the error goes on to the form. */
  method HandleAddMember(list: MemberList, form: MemberForm, isoNow: string, addOk: bool) returns (sent: AddPayload)
    requires list.Valid()
    modifies list
    ensures list.Valid()
    ensures sent == JoinedToday(form, isoNow)
    ensures list.currentPage == (if addOk then 1 else old(list.currentPage))
    ensures list.members == old(list.members) && list.search == old(list.search)
  {
    sent := JoinedToday(form, isoNow);
    if addOk {
      list.currentPage := 1;
    }
  }
}
