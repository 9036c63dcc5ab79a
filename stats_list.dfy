/** The stats page: `filterMembers(members, type)` picks the members behind
    one of the dashboard's stat cards. */
module StatsList {
  import opened Common
  import opened ClientMember

  const ThreeDaysMs: int := 3 * DayMs
  const SevenDaysMs: int := 7 * DayMs

  /** The route parameters the page knows; any other shows every member. */
  const Kinds: seq<string> := ["monthly-joined", "expiring-3", "expiring-4-7", "expired", "inactive"]

  predicate IsKind(kind: string) {
    kind in Kinds
  }

  /** Joined on or after `monthStart`, the first instant of the month. */
  predicate JoinedSince(c: Card, monthStart: int) {
    c.joined.Some? && c.joined.value >= monthStart
  }

  /** Expiry strictly after `now` and at most three days later. */
  predicate ExpiringWithin3(c: Card, now: int) {
    c.expiry.Some? && now < c.expiry.value <= now + ThreeDaysMs
  }

  /** Expiry more than three and at most seven days after `now`. */
  predicate ExpiringIn4To7(c: Card, now: int) {
    c.expiry.Some? && now + ThreeDaysMs < c.expiry.value <= now + SevenDaysMs
  }

  /** Expiry strictly before `now`. */
  predicate ExpiredBefore(c: Card, now: int) {
    c.expiry.Some? && c.expiry.value < now
  }

  /** The `status` field reads 'inactive'. */
  predicate FlaggedInactive(c: Card) {
    c.status == Some("inactive")
  }

  /** The `case` of the `switch` for a known route parameter. */
  predicate InBucket(kind: string, c: Card, now: int, monthStart: int) {
    if kind == "monthly-joined" then JoinedSince(c, monthStart)
    else if kind == "expiring-3" then ExpiringWithin3(c, now)
    else if kind == "expiring-4-7" then ExpiringIn4To7(c, now)
    else if kind == "expired" then ExpiredBefore(c, now)
    else FlaggedInactive(c)
  }

  function BucketBy(kind: string, now: int, monthStart: int): Card -> bool {
    c => InBucket(kind, c, now, monthStart)
  }

  /** `filterMembers(members, type)` at instant `now`. */
  function FilterByType(ms: seq<Card>, kind: string, now: int, monthStart: int): seq<Card> {
    if IsKind(kind) then Filter(ms, BucketBy(kind, now, monthStart)) else ms
  }

  /** Every result keeps the input's order; a known type keeps exactly the
      members of its bucket, and any other type keeps everyone. */
  lemma FilterByTypeSpec(ms: seq<Card>, kind: string, now: int, monthStart: int)
    ensures IsSubsequence(FilterByType(ms, kind, now, monthStart), ms)
    ensures IsKind(kind) ==> forall c :: c in FilterByType(ms, kind, now, monthStart) <==> c in ms && InBucket(kind, c, now, monthStart)
    ensures !IsKind(kind) ==> FilterByType(ms, kind, now, monthStart) == ms
  {
    if IsKind(kind) {
      FilterIsSubsequence(ms, BucketBy(kind, now, monthStart));
      FilterMembers(ms, BucketBy(kind, now, monthStart));
    } else {
      SubsequenceRefl(ms);
    }
  }

  lemma {:induction false} SubsequenceRefl<T>(s: seq<T>)
    ensures IsSubsequence(s, s)
  {
    if s != [] {
      SubsequenceRefl(s[1..]);
    }
  }

  /** The three expiry buckets never overlap, and an expiry exactly at `now`
      falls in none of them. */
  lemma ExpiryBucketsDisjoint(c: Card, now: int)
    ensures !(ExpiringWithin3(c, now) && ExpiringIn4To7(c, now))
    ensures !(ExpiredBefore(c, now) && ExpiringWithin3(c, now))
    ensures !(ExpiredBefore(c, now) && ExpiringIn4To7(c, now))
    ensures c.expiry == Some(now) ==> !ExpiringWithin3(c, now) && !ExpiringIn4To7(c, now) && !ExpiredBefore(c, now)
  {
  }

  /** The page reads `status`, which the server never sends (its virtual is
      `membershipStatus`): over the cards the server sends, 'inactive' is
      always empty. */
  lemma InactiveEmptyOnServerCards(ms: seq<Card>, now: int, monthStart: int)
    requires forall k :: 0 <= k < |ms| ==> ms[k].status.None?
    ensures FilterByType(ms, "inactive", now, monthStart) == []
  {
    FilterNone(ms, BucketBy("inactive", now, monthStart));
  }
}
