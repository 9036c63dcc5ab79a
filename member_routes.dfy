/** The member endpoints of the server: create, list with filters and
    pagination, read, update and soft delete, over a store that maps ids to
    member records and remembers the order of creation. */
module MemberRoutes {
  import opened Common
  import opened MemberModel
  import Paging

  /** The error replies of the endpoints. */
  datatype ApiError =
    | BadRequest(message: string)   // 400, with the route's own message
    | ValidationFailed              // 400, raised by the schema validators
    | NotFound(message: string)     // 404
    | ServerError(message: string)  // 500

  function HttpStatus(e: ApiError): int {
    match e
    case BadRequest(_) => 400
    case ValidationFailed => 400
    case NotFound(_) => 404
    case ServerError(_) => 500
  }

  const MemberNotFound: string := "Member not found"

  /** A date taken from a request: absent (or falsy), present but not a date,
      or an instant. */
  datatype DateInput = Absent | Unparseable | At(ms: int)

  /** A text field that is present and not empty, so truthy. */
  predicate Given(o: Option<string>) {
    o.Some? && o.value != ""
  }

  // ---------------------------------------------------------------------
  // Create

  datatype CreateRequest = CreateRequest(
    name: Option<string>,
    number: Option<string>,
    membership: Option<string>,
    expiry: DateInput,
    picture: Option<string>)

  /** The record a create would save under `id` at instant `now`, after the
      schema's setters: the name is trimmed. */
  function NewMember(req: CreateRequest, id: Id, now: int): Member
    requires Given(req.name) && Given(req.number) && req.membership.Some? && req.expiry.At?
  {
    Member(id, Trim(req.name.value), req.number.value, req.membership.value, req.expiry.ms,
           req.picture.GetOr(DefaultPicture), now, true, [], now)
  }

  /** The reply of `POST /members` given the numbers already in use: the four
      presence checks in order (on the raw text), the number format, the
      duplicate lookup, and finally the schema validators of the save, which
      see the trimmed name. */
  function CreateOutcome(req: CreateRequest, taken: set<string>, id: Id, now: int): Result<Member, ApiError> {
    if !Given(req.name) then Failure(BadRequest("Name is required"))
    else if !Given(req.number) then Failure(BadRequest("Phone number is required"))
    else if !Given(req.membership) then Failure(BadRequest("Membership type is required"))
    else if req.expiry.Absent? then Failure(BadRequest("Expiry date is required"))
    else if !IsTenDigits(req.number.value) then Failure(BadRequest("Please enter a valid 10-digit phone number"))
    else if req.number.value in taken then Failure(BadRequest("A member with this phone number already exists"))
    else if req.expiry.Unparseable? then Failure(ValidationFailed)
    else if !RecordValid(NewMember(req, id, now), now) then Failure(ValidationFailed)
    else Success(NewMember(req, id, now))
  }

  /** A missing field is reported, naming the first one missing, whatever
      the store holds. */
  lemma CreateMissingFieldFirst(req: CreateRequest, taken1: set<string>, taken2: set<string>, id: Id, now: int)
    requires !Given(req.name) || !Given(req.number) || !Given(req.membership) || req.expiry.Absent?
    ensures CreateOutcome(req, taken1, id, now) == CreateOutcome(req, taken2, id, now)
    ensures CreateOutcome(req, taken1, id, now) == Failure(BadRequest(
      if !Given(req.name) then "Name is required"
      else if !Given(req.number) then "Phone number is required"
      else if !Given(req.membership) then "Membership type is required"
      else "Expiry date is required"))
  {
  }

  /** A malformed number is refused with 400 before the duplicate lookup. */
  lemma CreateBadNumberBeforeLookup(req: CreateRequest, taken: set<string>, id: Id, now: int)
    requires Given(req.name) && Given(req.number) && Given(req.membership) && !req.expiry.Absent?
    requires !IsTenDigits(req.number.value)
    ensures CreateOutcome(req, taken, id, now) == Failure(BadRequest("Please enter a valid 10-digit phone number"))
    ensures CreateOutcome(req, taken, id, now) == CreateOutcome(req, {}, id, now)
  {
  }

  /** A number already held by any member, active or not, is refused with 400. */
  lemma CreateDuplicateNumber(req: CreateRequest, taken: set<string>, id: Id, now: int)
    requires Given(req.name) && Given(req.number) && Given(req.membership) && !req.expiry.Absent?
    requires IsTenDigits(req.number.value) && req.number.value in taken
    ensures CreateOutcome(req, taken, id, now).Failure?
    ensures HttpStatus(CreateOutcome(req, taken, id, now).error) == 400
  {
  }

  /** A successful create stores a valid, active record with an empty log,
      joined and created at `now`, with a number nobody else holds and the
      name as sent without its surrounding whitespace. */
  lemma CreateSuccess(req: CreateRequest, taken: set<string>, id: Id, now: int)
    requires CreateOutcome(req, taken, id, now).Success?
    ensures var m := CreateOutcome(req, taken, id, now).value;
      RecordValid(m, now) && m.id == id && m.joined == now && m.createdAt == now &&
      m.isActive && m.attendance == [] && m.number !in taken &&
      m.name == Trim(req.name.value) && Trimmed(m.name) && m.number == req.number.value &&
      m.membership == req.membership.value && req.expiry == At(m.expiry) &&
      m.picture == req.picture.GetOr(DefaultPicture)
  {
  }

  /** The create succeeds exactly when every check passes; the name must
      hold a character that is not whitespace. */
  lemma CreateSucceedsIff(req: CreateRequest, taken: set<string>, id: Id, now: int)
    ensures CreateOutcome(req, taken, id, now).Success? <==>
      Given(req.name) && Trim(req.name.value) != "" && Given(req.number) && req.expiry.At? &&
      IsTenDigits(req.number.value) && req.number.value !in taken &&
      req.membership.Some? && IsPlan(req.membership.value) && req.expiry.ms > now
  {
  }

  /** A name of whitespace only passes the route's presence check but is
      trimmed to nothing, so the required validator of the save refuses it
      with 400. */
  lemma CreateBlankName(req: CreateRequest, taken: set<string>, id: Id, now: int)
    requires Given(req.name) && forall i :: 0 <= i < |req.name.value| ==> IsSpace(req.name.value[i])
    requires Given(req.number) && Given(req.membership) && req.expiry.At?
    requires IsTenDigits(req.number.value) && req.number.value !in taken
    ensures CreateOutcome(req, taken, id, now) == Failure(ValidationFailed)
    ensures HttpStatus(CreateOutcome(req, taken, id, now).error) == 400
  {
  }

  /** A create with the name three spaces is refused with 400. */
  lemma CreateSpacesRefused(taken: set<string>, id: Id, now: int)
    requires "0123456789" !in taken
    ensures var req := CreateRequest(Some("   "), Some("0123456789"), Some("Monthly"), At(now + 1), None);
      CreateOutcome(req, taken, id, now) == Failure(ValidationFailed)
  {
    TrimExamples();
    assert IsTenDigits("0123456789");
  }

  /** A create with the name " Bob " stores the name "Bob". */
  lemma CreateBobTrimmed(taken: set<string>, id: Id, now: int)
    requires "0123456789" !in taken
    ensures var req := CreateRequest(Some(" Bob "), Some("0123456789"), Some("Monthly"), At(now + 1), None);
      CreateOutcome(req, taken, id, now).Success? && CreateOutcome(req, taken, id, now).value.name == "Bob"
  {
    TrimExamples();
    assert IsTenDigits("0123456789");
    assert IsPlan("Monthly");
  }

  // ---------------------------------------------------------------------
  // List

  /** The query string of `GET /members`; `page` and `limit` are the parsed
      integers when given. */
  datatype ListParams = ListParams(
    page: Option<int>,
    limit: Option<int>,
    isActive: Option<string>,
    membership: Option<string>,
    startDate: DateInput,
    endDate: DateInput)

  /** The filter the route builds: each field constrains when present. */
  datatype Query = Query(
    isActive: Option<bool>,
    membership: Option<string>,
    joinedFrom: Option<int>,
    joinedTo: Option<int>)

  predicate Matches(q: Query, m: Member) {
    (q.isActive.Some? ==> m.isActive == q.isActive.value) &&
    (q.membership.Some? ==> m.membership == q.membership.value) &&
    (q.joinedFrom.Some? ==> q.joinedFrom.value <= m.joined) &&
    (q.joinedTo.Some? ==> m.joined <= q.joinedTo.value)
  }

  /** Declaratively, a member is listed when it meets every condition whose
      parameter was given; an absent parameter imposes nothing. */
  predicate Selected(p: ListParams, m: Member) {
    (p.isActive.Some? ==> m.isActive == (p.isActive.value == "true")) &&
    (Given(p.membership) ==> m.membership == p.membership.value) &&
    (p.startDate.At? ==> p.startDate.ms <= m.joined) &&
    (p.endDate.At? ==> m.joined <= p.endDate.ms)
  }

  datatype ListPage = ListPage(members: seq<Member>, total: nat, page: int, pages: Option<int>)

  predicate NewestFirst(s: seq<Member>) {
    forall i, j :: 0 <= i < j < |s| ==> s[i].createdAt >= s[j].createdAt
  }

  function InsertByCreated(x: Member, s: seq<Member>): seq<Member> {
    if s == [] || x.createdAt >= s[0].createdAt then [x] + s
    else [s[0]] + InsertByCreated(x, s[1..])
  }

  /** `sort({createdAt: -1})`: the most recently created first. */
  function SortByCreatedDesc(s: seq<Member>): seq<Member> {
    if s == [] then [] else InsertByCreated(s[0], SortByCreatedDesc(s[1..]))
  }

  lemma {:induction false} InsertPermutes(x: Member, s: seq<Member>)
    ensures multiset(InsertByCreated(x, s)) == multiset(s) + multiset{x}
  {
    if s != [] && x.createdAt < s[0].createdAt {
      InsertPermutes(x, s[1..]);
      assert s == [s[0]] + s[1..];
    }
  }

  lemma {:induction false} InsertKeepsOrder(x: Member, s: seq<Member>)
    requires NewestFirst(s)
    ensures NewestFirst(InsertByCreated(x, s))
  {
    if s != [] && x.createdAt < s[0].createdAt {
      var rest := InsertByCreated(x, s[1..]);
      InsertKeepsOrder(x, s[1..]);
      InsertPermutes(x, s[1..]);
      forall k | 0 <= k < |rest| ensures s[0].createdAt >= rest[k].createdAt {
        assert rest[k] in multiset(s[1..]) + multiset{x};
      }
    }
  }

  /** The sort returns the same members, newest first. */
  lemma {:induction false} SortSpec(s: seq<Member>)
    ensures multiset(SortByCreatedDesc(s)) == multiset(s)
    ensures NewestFirst(SortByCreatedDesc(s))
  {
    if s != [] {
      SortSpec(s[1..]);
      InsertPermutes(s[0], SortByCreatedDesc(s[1..]));
      InsertKeepsOrder(s[0], SortByCreatedDesc(s[1..]));
      assert s == [s[0]] + s[1..];
    }
  }

  /** The filter of the list endpoint as a value. */
  function SelectedBy(p: ListParams): Member -> bool {
    (m: Member) => Selected(p, m)
  }

  /** All members the filter selects, newest first. */
  function Matching(ms: seq<Member>, p: ListParams): seq<Member> {
    SortByCreatedDesc(Filter(ms, SelectedBy(p)))
  }

  const ListError: string := "Server error while fetching members"

  /** The page of `matching` a positive `page` and any `limit` select:
      MongoDB reads a zero limit as "no limit" and a negative one by its
      size; `Math.ceil(total / 0)` is not a number and travels as JSON null. */
  function Slice(matching: seq<Member>, page: int, limit: int, skip: nat): ListPage {
    var size := if limit == 0 then |matching| else if limit > 0 then limit else -limit;
    var pages := if limit == 0 then None
                 else if limit > 0 then Some(Paging.CeilDiv(|matching|, limit) as int)
                 else Some(-(|matching| / -limit));
    ListPage(Paging.Window(matching, skip, size), |matching|, page, pages)
  }

  /** The number of matches skipped before page `page`. */
  function Skip(page: int, limit: int): int {
    (page - 1) * limit
  }

  /** The reply of `GET /members`: the members meeting the filter, newest
      first, `limit` of them after skipping `(page-1)*limit`, with the count
      of all matches and the number of pages. A date that does not parse and
      a negative skip make the query fail. */
  function ListOutcome(ms: seq<Member>, p: ListParams): Result<ListPage, ApiError> {
    if p.startDate.Unparseable? || p.endDate.Unparseable? then Failure(ServerError(ListError))
    else
      var page := p.page.GetOr(1);
      var limit := p.limit.GetOr(10);
      var skip := Skip(page, limit);
      if skip < 0 then Failure(ServerError(ListError))
      else Success(Slice(Matching(ms, p), page, limit, skip))
  }

  /** The filter keeps exactly the members meeting the query. */
  lemma FilterSelects(ms: seq<Member>, p: ListParams)
    ensures forall m :: m in Filter(ms, SelectedBy(p)) <==> m in ms && Selected(p, m)
  {
    var f := Filter(ms, SelectedBy(p));
    FilterMembers(ms, SelectedBy(p));
    forall m | m in ms && Selected(p, m) ensures m in f {
      var k :| 0 <= k < |ms| && ms[k] == m;
      assert SelectedBy(p)(ms[k]);
    }
    forall m | m in f ensures m in ms && Selected(p, m) {
      var k :| 0 <= k < |f| && f[k] == m;
    }
  }

  /** The sorted matches are exactly the filtered members, counted once each,
      newest first. */
  lemma MatchingSpec(ms: seq<Member>, p: ListParams)
    ensures multiset(Matching(ms, p)) == multiset(Filter(ms, SelectedBy(p)))
    ensures NewestFirst(Matching(ms, p))
    ensures |Matching(ms, p)| == |Filter(ms, SelectedBy(p))|
    ensures forall m :: m in Matching(ms, p) <==> m in ms && Selected(p, m)
  {
    var f := Filter(ms, SelectedBy(p));
    var sorted := Matching(ms, p);
    SortSpec(f);
    assert |multiset(sorted)| == |multiset(f)|;
    FilterSelects(ms, p);
    forall m ensures m in sorted <==> m in f {
      assert m in sorted <==> m in multiset(sorted);
      assert m in f <==> m in multiset(f);
    }
  }

  /** For a positive page and limit the slice is page `page`, and the page
      count is `ceil(total / limit)`. */
  lemma SliceIsPage(matching: seq<Member>, page: int, limit: int)
    requires page >= 1 && limit >= 1
    ensures Skip(page, limit) >= 0
    ensures Slice(matching, page, limit, Skip(page, limit)) ==
      ListPage(Paging.Page(matching, page, limit), |matching|, page, Some(Paging.CeilDiv(|matching|, limit) as int))
  {
  }

  /** With a positive page and limit the reply is page `page` of the matches
      sorted newest first, the total counts every match, the page count is
      `ceil(total / limit)`, and only members meeting the filter are listed. */
  lemma ListPageOfMatches(ms: seq<Member>, p: ListParams)
    requires !p.startDate.Unparseable? && !p.endDate.Unparseable?
    requires p.page.GetOr(1) >= 1 && p.limit.GetOr(10) >= 1
    ensures ListOutcome(ms, p).Success?
    ensures ListOutcome(ms, p).value.total == |Filter(ms, SelectedBy(p))|
    ensures ListOutcome(ms, p).value.members == Paging.Page(Matching(ms, p), p.page.GetOr(1), p.limit.GetOr(10))
    ensures ListOutcome(ms, p).value.pages == Some(Paging.CeilDiv(|Filter(ms, SelectedBy(p))|, p.limit.GetOr(10)) as int)
    ensures forall k :: 0 <= k < |ListOutcome(ms, p).value.members| ==>
      ListOutcome(ms, p).value.members[k] in ms && Selected(p, ListOutcome(ms, p).value.members[k])
  {
    var page, limit := p.page.GetOr(1), p.limit.GetOr(10);
    var matching := Matching(ms, p);
    MatchingSpec(ms, p);
    SliceIsPage(matching, page, limit);
    var r := Paging.Page(matching, page, limit);
    assert ListOutcome(ms, p) == Success(Slice(matching, page, limit, Skip(page, limit)));
    forall k | 0 <= k < |r| ensures r[k] in matching {
      Paging.PageContents(matching, page, limit);
    }
  }

  /** A page past the last one is empty and still reports the full total. */
  lemma ListPastLastPage(ms: seq<Member>, p: ListParams)
    requires !p.startDate.Unparseable? && !p.endDate.Unparseable?
    requires p.page.GetOr(1) >= 1 && p.limit.GetOr(10) >= 1
    requires p.page.GetOr(1) > Paging.CeilDiv(|Filter(ms, SelectedBy(p))|, p.limit.GetOr(10))
    ensures ListOutcome(ms, p).Success?
    ensures ListOutcome(ms, p).value.members == []
    ensures ListOutcome(ms, p).value.total == |Filter(ms, SelectedBy(p))|
  {
    MatchingSpec(ms, p);
    Paging.PageBeyondLast(Matching(ms, p), p.page.GetOr(1), p.limit.GetOr(10));
  }

  /** Pages 1 to `pages` of one filter concatenate to all its matches,
      newest first, so every match appears on exactly one page. */
  lemma ListPagesCoverMatches(ms: seq<Member>, p: ListParams)
    requires p.limit.GetOr(10) >= 1
    ensures Paging.PagesUpTo(Matching(ms, p), p.limit.GetOr(10),
                             Paging.CeilDiv(|Matching(ms, p)|, p.limit.GetOr(10))) == Matching(ms, p)
  {
    Paging.PagesCover(Matching(ms, p), p.limit.GetOr(10));
  }

  /** A zero limit lists every match at once and reports no page count. */
  lemma ListZeroLimit(ms: seq<Member>, p: ListParams)
    requires !p.startDate.Unparseable? && !p.endDate.Unparseable?
    requires p.limit == Some(0)
    ensures ListOutcome(ms, p).Success?
    ensures ListOutcome(ms, p).value.members == Matching(ms, p)
    ensures ListOutcome(ms, p).value.pages.None?
  {
  }

  // ---------------------------------------------------------------------
  // Update

  /** The body of `PUT /members/:id`. */
  datatype UpdateRequest = UpdateRequest(
    name: Option<string>,
    number: Option<string>,
    membership: Option<string>,
    expiry: DateInput,
    picture: Option<string>,
    isActive: Option<bool>)

  /** `updateData`: the truthy text fields, the expiry when given, and
      `isActive` whenever it is defined. */
  datatype Patch = Patch(
    name: Option<string>,
    number: Option<string>,
    membership: Option<string>,
    expiry: DateInput,
    picture: Option<string>,
    isActive: Option<bool>)

  /** The record with the patched fields replaced and the others kept; a
      patched name goes through the schema's trim setter. */
  function Applied(m: Member, u: Patch): Member
    requires !u.expiry.Unparseable?
  {
    m.(name := if u.name.Some? then Trim(u.name.value) else m.name,
       number := u.number.GetOr(m.number),
       membership := u.membership.GetOr(m.membership),
       expiry := if u.expiry.At? then u.expiry.ms else m.expiry,
       picture := u.picture.GetOr(m.picture),
       isActive := u.isActive.GetOr(m.isActive))
  }

  /** The update validators, run on the patched fields only, after the
      setters: a patched name must not trim to nothing. */
  predicate PatchValid(u: Patch, now: int) {
    (u.name.Some? ==> Trim(u.name.value) != "") &&
    (u.number.Some? ==> IsTenDigits(u.number.value)) &&
    (u.membership.Some? ==> IsPlan(u.membership.value)) &&
    !u.expiry.Unparseable? &&
    (u.expiry.At? ==> u.expiry.ms > now)
  }

  /** Another record than `id` already holds `number` (the unique index). */
  predicate HeldByOther(records: map<Id, Member>, id: Id, number: string) {
    exists other :: other in records && other != id && records[other].number == number
  }

  const UpdateError: string := "Server error while updating member"

  /** The reply of `PUT /members/:id`: validators first (400), then the
      lookup (404), then the unique index on the number, whose violation is
      not a validation error and so surfaces as a 500. */
  function UpdateOutcome(records: map<Id, Member>, id: Id, u: Patch, now: int): Result<Member, ApiError> {
    if !PatchValid(u, now) then Failure(ValidationFailed)
    else if id !in records then Failure(NotFound(MemberNotFound))
    else if u.number.Some? && HeldByOther(records, id, u.number.value) then Failure(ServerError(UpdateError))
    else Success(Applied(records[id], u))
  }

  /** A successful update changes exactly the patched fields: the id, join
      date, creation time and attendance log never change, a field left out
      of the patch keeps its value. */
  lemma UpdateTouchesOnlyPatch(records: map<Id, Member>, id: Id, u: Patch, now: int)
    requires UpdateOutcome(records, id, u, now).Success?
    ensures var m, n := records[id], UpdateOutcome(records, id, u, now).value;
      n.id == m.id && n.joined == m.joined && n.createdAt == m.createdAt && n.attendance == m.attendance &&
      (u.name.None? ==> n.name == m.name) && (u.name.Some? ==> n.name == Trim(u.name.value)) &&
      (u.number.None? ==> n.number == m.number) && (u.number.Some? ==> n.number == u.number.value) &&
      (u.membership.None? ==> n.membership == m.membership) && (u.membership.Some? ==> n.membership == u.membership.value) &&
      (u.expiry.Absent? ==> n.expiry == m.expiry) && (u.expiry.At? ==> n.expiry == u.expiry.ms) &&
      (u.picture.None? ==> n.picture == m.picture) && (u.picture.Some? ==> n.picture == u.picture.value) &&
      (u.isActive.None? ==> n.isActive == m.isActive) && (u.isActive.Some? ==> n.isActive == u.isActive.value)
  {
  }

  /** An unknown id gives 404 once the patch passes the validators. */
  lemma UpdateUnknownId(records: map<Id, Member>, id: Id, u: Patch, now: int)
    requires id !in records
    ensures UpdateOutcome(records, id, u, now).Failure?
    ensures HttpStatus(UpdateOutcome(records, id, u, now).error) == (if PatchValid(u, now) then 404 else 400)
  {
  }

  // ---------------------------------------------------------------------
  // The store

  /** The records listed by `ids`, in that order. */
  function RecordsOf(ids: seq<Id>, records: map<Id, Member>): (r: seq<Member>)
    requires forall k :: 0 <= k < |ids| ==> ids[k] in records
    ensures |r| == |ids|
    ensures forall k :: 0 <= k < |ids| ==> r[k] == records[ids[k]]
  {
    seq(|ids|, k requires 0 <= k < |ids| => records[ids[k]])
  }

  /** `order` lists every record exactly once. */
  ghost predicate OrderLists(order: seq<Id>, records: map<Id, Member>) {
    && (forall i, j :: 0 <= i < j < |order| ==> order[i] != order[j])
    && (forall k :: 0 <= k < |order| ==> order[k] in records)
    && (forall id :: id in records ==> id in order)
  }

  /** Every record is stored under its own id, below `nextId`, passes the
      field validators, has a trimmed name and has at most one log entry per
      day. */
  ghost predicate RecordsValid(records: map<Id, Member>, nextId: nat) {
    forall id :: id in records ==>
      records[id].id == id && id < nextId &&
      FieldsValid(records[id]) && Trimmed(records[id].name) &&
      OnePerDay(records[id].attendance)
  }

  /** The unique index on the phone number, over active and inactive
      members alike. */
  ghost predicate NumbersUnique(records: map<Id, Member>) {
    forall a, b :: a in records && b in records && a != b ==> records[a].number != records[b].number
  }

  ghost predicate StoreInv(order: seq<Id>, records: map<Id, Member>, nextId: nat) {
    OrderLists(order, records) && RecordsValid(records, nextId) && NumbersUnique(records)
  }

  function NumbersOf(records: map<Id, Member>): set<string> {
    set id | id in records :: records[id].number
  }

  /** Saving a new valid record under the next id keeps the invariant. */
  lemma AddKeepsInv(order: seq<Id>, records: map<Id, Member>, nextId: nat, m: Member)
    requires StoreInv(order, records, nextId)
    requires m.id == nextId && FieldsValid(m) && Trimmed(m.name) && OnePerDay(m.attendance)
    requires m.number !in NumbersOf(records)
    ensures StoreInv(order + [m.id], records[m.id := m], nextId + 1)
  {
    assert m.id !in records;
    var r := records[m.id := m];
    forall a, b | a in r && b in r && a != b ensures r[a].number != r[b].number {
      if a == m.id {
        assert records[b].number in NumbersOf(records);
      } else if b == m.id {
        assert records[a].number in NumbersOf(records);
      }
    }
  }

  /** Replacing a record by a valid one with the same id, whose number no
      other record holds, keeps the invariant. */
  lemma ReplaceKeepsInv(order: seq<Id>, records: map<Id, Member>, nextId: nat, m: Member)
    requires StoreInv(order, records, nextId)
    requires m.id in records && FieldsValid(m) && Trimmed(m.name) && OnePerDay(m.attendance)
    requires !HeldByOther(records, m.id, m.number)
    ensures StoreInv(order, records[m.id := m], nextId)
  {
    var r := records[m.id := m];
    forall a, b | a in r && b in r && a != b ensures r[a].number != r[b].number {
      if a == m.id {
        assert records[b].number != m.number;
      } else if b == m.id {
        assert records[a].number != m.number;
      }
    }
  }

  /** The collection of members: records by id, and the ids in the order
      the records were created. */
  class Store {
    var records: map<Id, Member>
    var order: seq<Id>
    var nextId: nat

    /** The store's invariant: `order` lists every record once, ids are
        unique and below `nextId`, phone numbers are unique across active
        and inactive members, every record passes the field validators and
        has a trimmed name, and no log has two entries for one day. */
    ghost predicate Valid()
      reads this
    {
      StoreInv(order, records, nextId)
    }

    constructor ()
      ensures Valid() && records == map[] && order == []
    {
      records, order, nextId := map[], [], 0;
    }

    /** The members in creation order (MongoDB's natural order). */
    function Members(): (r: seq<Member>)
      reads this
      requires Valid()
      ensures |r| == |order|
      ensures forall k :: 0 <= k < |order| ==> r[k] == records[order[k]]
    {
      RecordsOf(order, records)
    }

    /** `POST /members`. */
    method Create(req: CreateRequest, now: int) returns (r: Result<Member, ApiError>)
      requires Valid()
      modifies this
      ensures Valid()
      ensures r == CreateOutcome(req, NumbersOf(old(records)), old(nextId), now)
      ensures r.Success? ==> records == old(records)[r.value.id := r.value] && order == old(order) + [r.value.id]
      ensures r.Failure? ==> records == old(records) && order == old(order)
    {
      if !Given(req.name) {
        return Failure(BadRequest("Name is required"));
      }
      if !Given(req.number) {
        return Failure(BadRequest("Phone number is required"));
      }
      if !Given(req.membership) {
        return Failure(BadRequest("Membership type is required"));
      }
      if req.expiry.Absent? {
        return Failure(BadRequest("Expiry date is required"));
      }
      var number := req.number.value;
      if !IsTenDigits(number) {
        return Failure(BadRequest("Please enter a valid 10-digit phone number"));
      }
      if number in NumbersOf(records) {
        return Failure(BadRequest("A member with this phone number already exists"));
      }
      if req.expiry.Unparseable? {
        return Failure(ValidationFailed);
      }
      var m := NewMember(req, nextId, now);
      if !RecordValid(m, now) {
        return Failure(ValidationFailed);
      }
      TrimFixesTrimmed(req.name.value);
      AddKeepsInv(order, records, nextId, m);
      records := records[m.id := m];
      order := order + [m.id];
      nextId := nextId + 1;
      r := Success(m);
    }

    /** `GET /members`: the route run over the stored members. */
    method List(p: ListParams) returns (r: Result<ListPage, ApiError>)
      requires Valid()
      ensures r == ListOutcome(Members(), p)
    {
      r := ListOver(Members(), p);
    }

    /** `GET /members/:id`. */
    method Get(id: Id) returns (r: Result<Member, ApiError>)
      ensures id in records ==> r == Success(records[id])
      ensures id !in records ==> r == Failure(NotFound(MemberNotFound))
    {
      if id in records {
        r := Success(records[id]);
      } else {
        r := Failure(NotFound(MemberNotFound));
      }
    }

    /** `PUT /members/:id`: builds `updateData` from the truthy fields, then
        validates, looks the record up and writes it. */
    method Update(id: Id, req: UpdateRequest, now: int) returns (r: Result<Member, ApiError>)
      requires Valid()
      modifies this
      ensures Valid()
      ensures r == UpdateOutcome(old(records), id, PatchOf(req), now)
      ensures r.Success? ==> records == old(records)[id := r.value]
      ensures r.Failure? ==> records == old(records)
      ensures order == old(order) && nextId == old(nextId)
    {
      var u := PatchOf(req);
      if !PatchValid(u, now) {
        return Failure(ValidationFailed);
      }
      if id !in records {
        return Failure(NotFound(MemberNotFound));
      }
      if u.number.Some? && HeldByOther(records, id, u.number.value) {
        return Failure(ServerError(UpdateError));
      }
      var m := Applied(records[id], u);
      UpdateKeepsRecordValid(records, nextId, id, u, now);
      ReplaceKeepsInv(order, records, nextId, m);
      records := records[id := m];
      r := Success(m);
    }

    /** `DELETE /members/:id`: a soft delete that only clears `isActive`. */
    method Delete(id: Id) returns (r: Result<(), ApiError>)
      requires Valid()
      modifies this
      ensures Valid()
      ensures old(id in records) ==> r.Success? && records == Deactivated(old(records), id)
      ensures old(id !in records) ==> r == Failure(NotFound(MemberNotFound)) && records == old(records)
      ensures order == old(order) && nextId == old(nextId)
    {
      if id !in records {
        return Failure(NotFound(MemberNotFound));
      }
      DeactivatedKeepsInv(order, records, nextId, id);
      records := Deactivated(records, id);
      r := Success(());
    }
  }

  /** The body of `GET /members` over the members `ms`: a date that does not
      parse makes the query fail; otherwise the query is built field by
      field, then the route filters, sorts and slices. */
  method ListOver(ms: seq<Member>, p: ListParams) returns (r: Result<ListPage, ApiError>)
    ensures r == ListOutcome(ms, p)
  {
    var q := BuildQuery(p);
    if p.startDate.Unparseable? || p.endDate.Unparseable? {
      return Failure(ServerError(ListError));
    }
    var page := p.page.GetOr(1);
    var limit := p.limit.GetOr(10);
    var skip := Skip(page, limit);
    if skip < 0 {
      return Failure(ServerError(ListError));
    }
    var sorted := SortByCreatedDesc(Filter(ms, (m: Member) => Matches(q, m)));
    ListOverSuccess(ms, q, p, page, limit, skip);
    r := Success(Slice(sorted, page, limit, skip));
  }

  lemma ListOverSuccess(ms: seq<Member>, q: Query, p: ListParams, page: int, limit: int, skip: nat)
    requires !p.startDate.Unparseable? && !p.endDate.Unparseable? && q == QueryOf(p)
    requires page == p.page.GetOr(1) && limit == p.limit.GetOr(10) && skip == Skip(page, limit)
    ensures ListOutcome(ms, p) == Success(Slice(SortByCreatedDesc(Filter(ms, (m: Member) => Matches(q, m))), page, limit, skip))
  {
    QuerySelects(ms, q, p);
  }

  /** The route's query object: each field is set only when its parameter
      was given. A date that does not parse is left out here; `ListOver`
      has already failed on it. */
  method BuildQuery(p: ListParams) returns (q: Query)
    ensures q == QueryOf(p)
  {
    q := Query(None, None, None, None);
    if p.isActive.Some? {
      q := q.(isActive := Some(p.isActive.value == "true"));
    }
    if Given(p.membership) {
      q := q.(membership := p.membership);
    }
    if !p.startDate.Absent? || !p.endDate.Absent? {
      if p.startDate.At? {
        q := q.(joinedFrom := Some(p.startDate.ms));
      }
      if p.endDate.At? {
        q := q.(joinedTo := Some(p.endDate.ms));
      }
    }
  }

  /** The query the route ends up with when no date fails to parse. */
  function QueryOf(p: ListParams): Query {
    Query(if p.isActive.Some? then Some(p.isActive.value == "true") else None,
          if Given(p.membership) then p.membership else None,
          if p.startDate.At? then Some(p.startDate.ms) else None,
          if p.endDate.At? then Some(p.endDate.ms) else None)
  }

  lemma QuerySelects(ms: seq<Member>, q: Query, p: ListParams)
    requires q == QueryOf(p)
    ensures Filter(ms, (m: Member) => Matches(q, m)) == Filter(ms, SelectedBy(p))
  {
    assert forall m :: Matches(q, m) == SelectedBy(p)(m);
    FilterSame(ms, (m: Member) => Matches(q, m), SelectedBy(p));
  }

  /** A successful update yields a record the store may hold: same id,
      valid fields, the same log, and a number no other record holds. */
  lemma UpdateKeepsRecordValid(records: map<Id, Member>, nextId: nat, id: Id, u: Patch, now: int)
    requires RecordsValid(records, nextId) && NumbersUnique(records)
    requires UpdateOutcome(records, id, u, now).Success?
    ensures var m := UpdateOutcome(records, id, u, now).value;
      m.id == id && id in records && FieldsValid(m) && Trimmed(m.name) && OnePerDay(m.attendance) &&
      !HeldByOther(records, id, m.number)
  {
    if u.name.Some? {
      TrimFixesTrimmed(u.name.value);
    }
  }

  /** `updateData` as the route builds it from the body. */
  function PatchOf(req: UpdateRequest): (u: Patch)
    ensures u.name.Some? <==> Given(req.name)
    ensures u.number.Some? <==> Given(req.number)
    ensures u.membership.Some? <==> Given(req.membership)
    ensures u.picture.Some? <==> Given(req.picture)
    ensures u.name.Some? ==> u.name == req.name
    ensures u.number.Some? ==> u.number == req.number
    ensures u.membership.Some? ==> u.membership == req.membership
    ensures u.picture.Some? ==> u.picture == req.picture
    ensures u.isActive == req.isActive && u.expiry == req.expiry
  {
    Patch(if Given(req.name) then req.name else None,
          if Given(req.number) then req.number else None,
          if Given(req.membership) then req.membership else None,
          req.expiry,
          if Given(req.picture) then req.picture else None,
          req.isActive)
  }

  /** The records after a soft delete of `id`: that record inactive, every
      other record and every other field as it was. */
  function Deactivated(records: map<Id, Member>, id: Id): (r: map<Id, Member>)
    requires id in records
    ensures r.Keys == records.Keys
    ensures !r[id].isActive && r[id] == records[id].(isActive := false)
    ensures forall other :: other in records && other != id ==> r[other] == records[other]
  {
    records[id := records[id].(isActive := false)]
  }

  /** A second `DELETE` of a known id changes nothing more: the records are
      as the first left them, and the id is still known, so the reply is a
      success again. */
  lemma DeleteIdempotent(records: map<Id, Member>, id: Id)
    requires id in records
    ensures id in Deactivated(records, id)
    ensures Deactivated(Deactivated(records, id), id) == Deactivated(records, id)
  {
    var once := Deactivated(records, id);
    assert once[id].(isActive := false) == once[id];
  }

  /** A soft delete keeps the store's invariant, order and counter alike. */
  lemma DeactivatedKeepsInv(order: seq<Id>, records: map<Id, Member>, nextId: nat, id: Id)
    requires StoreInv(order, records, nextId) && id in records
    ensures StoreInv(order, Deactivated(records, id), nextId)
  {
    ReplaceKeepsInv(order, records, nextId, records[id].(isActive := false));
  }

  lemma {:induction false} FilterSame<T>(s: seq<T>, p: T -> bool, q: T -> bool)
    requires forall k :: 0 <= k < |s| ==> p(s[k]) == q(s[k])
    ensures Filter(s, p) == Filter(s, q)
  {
    if s != [] {
      FilterSame(s[1..], p, q);
    }
  }
}
