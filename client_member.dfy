/** A member as the dashboard holds it: the JSON the server sends, with the
    fields the client pages read, and the name/number search shared by the
    member page and the attendance page. */
module ClientMember {
  import opened Common
  import opened MemberModel

  /** The client's view of one member. Dates are the instants `new Date(..)`
      yields, `None` where the field is missing or does not parse (an invalid
      date, on which every comparison is false); `isActive` is the field's
      truthiness, so a missing flag reads as false; `attendance` is `None`
      when the field is missing or not an array. */
  datatype Card = Card(
    id: string,
    name: string,
    number: string,
    joined: Option<int>,
    expiry: Option<int>,
    isActive: bool,
    status: Option<string>,
    membershipStatus: Option<string>,
    attendance: Option<seq<int>>)

  /** The attendance dates of a log. */
  function DatesOf(log: seq<Entry>): (r: seq<int>)
    ensures |r| == |log|
    ensures forall k :: 0 <= k < |r| ==> r[k] == log[k].date
  {
    seq(|log|, k requires 0 <= k < |log| => log[k].date)
  }

  /** The JSON the server sends for a stored member at instant `sentAt`: the
      `membershipStatus` virtual is included, evaluated at `sentAt`; there is
      no `status` field. `idText` is the id as a string. */
  function CardOf(m: Member, idText: string, sentAt: int): (c: Card)
    ensures c.status.None?
    ensures c.membershipStatus == Some(StatusName(MembershipStatus(m, sentAt)))
    ensures c.isActive == m.isActive && c.expiry == Some(m.expiry) && c.joined == Some(m.joined)
    ensures c.attendance.Some? && |c.attendance.value| == |m.attendance|
  {
    Card(idText, m.name, m.number, Some(m.joined), Some(m.expiry), m.isActive,
      None, Some(StatusName(MembershipStatus(m, sentAt))), Some(DatesOf(m.attendance)))
  }

  /** The search rule: the lower-cased name contains the lower-cased query,
      or the number contains the query as typed. */
  predicate MatchesSearch(c: Card, q: string) {
    Contains(Lower(c.name), Lower(q)) || Contains(c.number, q)
  }

  function SearchBy(q: string): Card -> bool {
    c => MatchesSearch(c, q)
  }

  /** `members.filter(..)` with the rule above. */
  function Search(cs: seq<Card>, q: string): seq<Card> {
    Filter(cs, SearchBy(q))
  }

  /** The search keeps exactly the matching cards, in their order. */
  lemma SearchSpec(cs: seq<Card>, q: string)
    ensures IsSubsequence(Search(cs, q), cs)
    ensures forall c :: c in Search(cs, q) <==> c in cs && MatchesSearch(c, q)
  {
    FilterIsSubsequence(cs, SearchBy(q));
    FilterMembers(cs, SearchBy(q));
  }

  /** An empty query keeps every card. */
  lemma EmptySearchKeepsAll(cs: seq<Card>)
    ensures Search(cs, "") == cs
  {
    forall i | 0 <= i < |cs| ensures SearchBy("")(cs[i]) {
      ContainsEmpty(cs[i].number);
    }
    FilterAll(cs, SearchBy(""));
  }
}
