/** The dashboard's stat cards: members joined this month (one per
    name+number key), members not seen for ten days, and the expired and
    expiring counts. */
module Dashboard {
  import opened Common
  import opened ClientMember
  import opened StatsList

  /** `Array.isArray(members) ? members : []`; `None` stands for a value that
      is not an array. */
  function MembersList(members: Option<seq<Card>>): (r: seq<Card>)
    ensures members.None? ==> r == []
    ensures members.Some? ==> r == members.value
  {
    members.GetOr([])
  }

  // ---------------------------------------------------------------------
  // Monthly joined

  /** The de-duplication key `m.name + m.number`. */
  function Key(c: Card): string {
    c.name + c.number
  }

  /** With ten-character numbers (those the server stores), the key fixes
      both the name and the number. */
  lemma KeyDeterminesNameAndNumber(a: Card, b: Card)
    requires |a.number| == 10 && |b.number| == 10
    requires Key(a) == Key(b)
    ensures a.name == b.name && a.number == b.number
  {
    var k := Key(a);
    assert |a.name| == |b.name|;
    assert a.name == k[..|a.name|] == b.name;
    assert a.number == k[|a.name|..] == b.number;
  }

  /** The keys of the members joined since `monthStart`. */
  ghost function JoinedKeys(ms: seq<Card>, monthStart: int): set<string> {
    set k | 0 <= k < |ms| && JoinedSince(ms[k], monthStart) :: Key(ms[k])
  }

  /** The `monthlyJoined` filter: a member counts when it has a join date on
      or after `monthStart` and no member counted before has its key; the set
      of seen keys grows as the filter runs. The count is the number of
      distinct keys among the members joined this month. */
  method MonthlyJoined(ms: seq<Card>, monthStart: int) returns (count: nat)
    ensures count == |JoinedKeys(ms, monthStart)|
  {
    var seen: set<string> := {};
    count := 0;
    var i := 0;
    while i < |ms|
      invariant 0 <= i <= |ms|
      invariant seen == JoinedKeys(ms[..i], monthStart)
      invariant count == |seen|
    {
      var m := ms[i];
      JoinedKeysStep(ms, i, monthStart);
      if m.joined.Some? && m.joined.value >= monthStart && Key(m) !in seen {
        seen := seen + {Key(m)};
        count := count + 1;
      }
      i := i + 1;
    }
    assert ms[..|ms|] == ms;
  }

  lemma JoinedKeysStep(ms: seq<Card>, i: nat, monthStart: int)
    requires i < |ms|
    ensures JoinedKeys(ms[..i + 1], monthStart) ==
      JoinedKeys(ms[..i], monthStart) + (if JoinedSince(ms[i], monthStart) then {Key(ms[i])} else {})
  {
    var a, b := ms[..i], ms[..i + 1];
    assert forall k :: 0 <= k < i ==> b[k] == a[k];
    assert b[i] == ms[i];
  }

  /** The monthly count is at most the number of members joined this month,
      hence at most the list length. */
  lemma {:induction false} JoinedKeysBound(ms: seq<Card>, monthStart: int)
    ensures |JoinedKeys(ms, monthStart)| <= |Filter(ms, JoinedBy(monthStart))| <= |ms|
  {
    if ms != [] {
      var t := ms[1..];
      JoinedKeysBound(t, monthStart);
      var head := if JoinedSince(ms[0], monthStart) then {Key(ms[0])} else {};
      assert JoinedKeys(ms, monthStart) <= JoinedKeys(t, monthStart) + head by {
        forall x | x in JoinedKeys(ms, monthStart) ensures x in JoinedKeys(t, monthStart) + head {
          var k :| 0 <= k < |ms| && JoinedSince(ms[k], monthStart) && Key(ms[k]) == x;
          if k > 0 {
            assert ms[k] == t[k - 1];
          }
        }
      }
      SubsetCard(JoinedKeys(ms, monthStart), JoinedKeys(t, monthStart) + head);
    }
  }

  function JoinedBy(monthStart: int): Card -> bool {
    c => JoinedSince(c, monthStart)
  }

  lemma SubsetCard(a: set<string>, b: set<string>)
    requires a <= b
    ensures |a| <= |b|
  {
    assert b == a + (b - a);
  }

  // ---------------------------------------------------------------------
  // Last present date and the inactive count

  lemma {:induction false} LexReflexive(a: string)
    ensures LexLe(a, a)
    decreases |a|
  {
    if a != [] {
      LexReflexive(a[1..]);
    }
  }

  /** The greatest string of a non-empty set in code-unit order: the last
      element after `sort()`. */
  ghost function LexMax(s: set<string>): (r: string)
    requires s != {}
    ensures r in s
    ensures forall y :: y in s ==> LexLe(y, r)
    decreases |s|
  {
    var x :| x in s;
    if s == {x} then
      LexReflexive(x);
      x
    else
      var m := LexMax(s - {x});
      LexTotal(x, m);
      MaxStep(s, x, m);
      if LexLe(x, m) then m else x
  }

  lemma MaxStep(s: set<string>, x: string, m: string)
    requires x in s && m in s - {x}
    requires forall y :: y in s - {x} ==> LexLe(y, m)
    requires LexLe(x, m) || LexLe(m, x)
    ensures LexLe(x, m) ==> forall y :: y in s ==> LexLe(y, m)
    ensures !LexLe(x, m) ==> forall y :: y in s ==> LexLe(y, x)
  {
    LexReflexive(x);
    forall y | y in s && !LexLe(x, m)
      ensures LexLe(y, x)
    {
      if y != x {
        LexTransitive(y, m, x);
      }
    }
  }

  /** The date keys of the attendance table whose cell for `memberId` is
      truthy. */
  ghost function PresentDates(table: map<string, map<string, bool>>, memberId: string): set<string> {
    set d | d in table && memberId in table[d] && table[d][memberId]
  }

  /** `getLastPresentDate(memberId)`: the greatest such date key, or null. */
  ghost function LastPresentDate(table: map<string, map<string, bool>>, memberId: string): (r: Option<string>)
    ensures r.None? <==> PresentDates(table, memberId) == {}
    ensures r.Some? ==> r.value in table && memberId in table[r.value] && table[r.value][memberId]
    ensures r.Some? ==> forall d :: d in PresentDates(table, memberId) ==> LexLe(d, r.value)
  {
    var ds := PresentDates(table, memberId);
    if ds == {} then None else Some(LexMax(ds))
  }

  /** `getLastPresentDate` as a loop over the table's date keys, keeping the
      greatest present date met so far; it is the function above. */
  method LastPresentOf(table: map<string, map<string, bool>>, memberId: string) returns (r: Option<string>)
    ensures r == LastPresentDate(table, memberId)
  {
    var keys := table.Keys;
    ghost var done: set<string> := {};
    r := None;
    while keys != {}
      invariant keys == table.Keys - done && done <= table.Keys
      invariant GreatestSoFar(table, memberId, done, r)
      decreases |keys|
    {
      var d :| d in keys;
      if memberId in table[d] && table[d][memberId] {
        if r.None? || LexLe(r.value, d) {
          GreaterStep(table, memberId, done, r, d);
          r := Some(d);
        } else {
          LexTotal(r.value, d);
        }
      }
      keys := keys - {d};
      done := done + {d};
    }
    GreatestIsLast(table, memberId, r);
  }

  /** `best` is the greatest present date among the keys in `done`, or
      `None` when none of them is a present date. */
  ghost predicate GreatestSoFar(table: map<string, map<string, bool>>, memberId: string, done: set<string>, best: Option<string>) {
    (best.None? ==> forall d :: d in done ==> d !in PresentDates(table, memberId)) &&
    (best.Some? ==> (best.value in done && best.value in PresentDates(table, memberId) &&
      forall d :: d in done && d in PresentDates(table, memberId) ==> LexLe(d, best.value)))
  }

  lemma GreaterStep(table: map<string, map<string, bool>>, memberId: string, done: set<string>, best: Option<string>, d: string)
    requires GreatestSoFar(table, memberId, done, best)
    requires d in PresentDates(table, memberId)
    requires best.Some? ==> LexLe(best.value, d)
    ensures GreatestSoFar(table, memberId, done + {d}, Some(d))
  {
    LexReflexive(d);
    forall e | e in done && e in PresentDates(table, memberId) ensures LexLe(e, d) {
      LexTransitive(e, best.value, d);
    }
  }

  /** The greatest present date over all keys is the last present date. */
  lemma GreatestIsLast(table: map<string, map<string, bool>>, memberId: string, best: Option<string>)
    requires GreatestSoFar(table, memberId, table.Keys, best)
    ensures best == LastPresentDate(table, memberId)
  {
    var spec := LastPresentDate(table, memberId);
    if best.Some? {
      LexAntisymmetric(best.value, spec.value);
    }
  }

  /** date-fns `differenceInDays(later, earlier)`: whole days, truncated
      toward zero. */
  function DifferenceInDays(later: int, earlier: int): (r: int)
    ensures later >= earlier ==> r >= 0 && r * DayMs <= later - earlier < (r + 1) * DayMs
    ensures later < earlier ==> r <= 0
  {
    if later >= earlier then (later - earlier) / DayMs else -((earlier - later) / DayMs)
  }

  /** Ten days or more is exactly ten times `DayMs` or more. */
  lemma TenDaysMeans(later: int, earlier: int)
    ensures DifferenceInDays(later, earlier) >= 10 <==> later - earlier >= 10 * DayMs
  {
  }

  /** The `inactive` filter: a member whose last present date is a non-empty
      key, parses (by `parse`, `None` for an invalid date) and lies ten days
      or more before `now`. A member never marked present is not counted. */
  ghost predicate Unseen(c: Card, table: map<string, map<string, bool>>, now: int, parse: string -> Option<int>) {
    var last := LastPresentDate(table, c.id);
    last.Some? && last.value != "" && parse(last.value).Some? &&
    DifferenceInDays(now, parse(last.value).value) >= 10
  }

  lemma NeverPresentNotUnseen(c: Card, table: map<string, map<string, bool>>, now: int, parse: string -> Option<int>)
    requires forall d :: d in table && c.id in table[d] ==> !table[d][c.id]
    ensures !Unseen(c, table, now, parse)
  {
    assert PresentDates(table, c.id) == {};
  }

  // ---------------------------------------------------------------------
  // Expiry counts

  /** The dashboard's expiring-soon test includes an expiry exactly at
      `now`. */
  predicate DashExpiring3(c: Card, now: int) {
    c.expiry.Some? && now <= c.expiry.value <= now + ThreeDaysMs
  }

  /** The dashboard and the stats page disagree only at `expiry == now`,
      which the dashboard counts as expiring and the stats page lists
      nowhere. */
  lemma ExpiringBoundaryDiffers(c: Card, now: int)
    ensures DashExpiring3(c, now) <==> ExpiringWithin3(c, now) || c.expiry == Some(now)
    ensures c.expiry == Some(now) ==> DashExpiring3(c, now) && !ExpiringWithin3(c, now)
  {
  }

  /** The dashboard's three expiry counts never overlap. */
  lemma DashBucketsDisjoint(c: Card, now: int)
    ensures !(DashExpiring3(c, now) && ExpiringIn4To7(c, now))
    ensures !(DashExpiring3(c, now) && ExpiredBefore(c, now))
    ensures !(ExpiredBefore(c, now) && ExpiringIn4To7(c, now))
  {
  }

  function ExpiredAt(now: int): Card -> bool { c => ExpiredBefore(c, now) }
  function Expiring3At(now: int): Card -> bool { c => DashExpiring3(c, now) }
  function Expiring47At(now: int): Card -> bool { c => ExpiringIn4To7(c, now) }

  /** Three pairwise disjoint filters together keep at most the whole list. */
  lemma {:induction false} DisjointCounts<T>(s: seq<T>, p: T -> bool, q: T -> bool, r: T -> bool)
    requires forall i :: 0 <= i < |s| ==> !(p(s[i]) && q(s[i])) && !(p(s[i]) && r(s[i])) && !(q(s[i]) && r(s[i]))
    ensures |Filter(s, p)| + |Filter(s, q)| + |Filter(s, r)| <= |s|
  {
    if s != [] {
      DisjointCounts(s[1..], p, q, r);
    }
  }

  /** The five stat cards of the dashboard. */
  datatype Stats = Stats(monthlyJoined: nat, inactive: nat, expired: nat, expiring3: nat, expiring47: nat)

  /** The counts, over the list the guard leaves; `table` is the attendance
      table and `parse` is `new Date(...)` on a date key. */
  method ComputeStats(members: Option<seq<Card>>, table: map<string, map<string, bool>>,
                      now: int, monthStart: int, parse: string -> Option<int>) returns (s: Stats)
    ensures s.monthlyJoined == |JoinedKeys(MembersList(members), monthStart)|
    ensures s.inactive == InactiveCount(members, table, now, parse)
    ensures s.expired == |Filter(MembersList(members), ExpiredAt(now))|
    ensures s.expiring3 == |Filter(MembersList(members), Expiring3At(now))|
    ensures s.expiring47 == |Filter(MembersList(members), Expiring47At(now))|
  {
    var list := MembersList(members);
    var joined := MonthlyJoined(list, monthStart);
    var inactive := CountInactive(list, table, now, parse);
    s := Stats(joined, inactive, |Filter(list, ExpiredAt(now))|, |Filter(list, Expiring3At(now))|, |Filter(list, Expiring47At(now))|);
  }

  /** Every count is at most the list length, the three expiry counts add up
      to at most the list length, and a value that is not an array gives
      zero everywhere. */
  lemma StatsBounded(members: Option<seq<Card>>, now: int, monthStart: int)
    ensures |JoinedKeys(MembersList(members), monthStart)| <= |MembersList(members)|
    ensures |Filter(MembersList(members), ExpiredAt(now))| + |Filter(MembersList(members), Expiring3At(now))| +
      |Filter(MembersList(members), Expiring47At(now))| <= |MembersList(members)|
    ensures members.None? ==>
      |JoinedKeys(MembersList(members), monthStart)| == 0 &&
      |Filter(MembersList(members), ExpiredAt(now))| == 0 &&
      |Filter(MembersList(members), Expiring3At(now))| == 0 &&
      |Filter(MembersList(members), Expiring47At(now))| == 0
  {
    var list := MembersList(members);
    JoinedKeysBound(list, monthStart);
    forall i | 0 <= i < |list|
      ensures !(ExpiredAt(now)(list[i]) && Expiring3At(now)(list[i]))
      ensures !(ExpiredAt(now)(list[i]) && Expiring47At(now)(list[i]))
      ensures !(Expiring3At(now)(list[i]) && Expiring47At(now)(list[i]))
    {
      DashBucketsDisjoint(list[i], now);
    }
    DisjointCounts(list, ExpiredAt(now), Expiring3At(now), Expiring47At(now));
    if members.None? {
      assert JoinedKeys(list, monthStart) == {};
    }
  }

  ghost function UnseenBy(table: map<string, map<string, bool>>, now: int, parse: string -> Option<int>): Card -> bool {
    c => Unseen(c, table, now, parse)
  }

  /** The inactive count over the list the guard leaves. */
  ghost function InactiveCount(members: Option<seq<Card>>, table: map<string, map<string, bool>>, now: int, parse: string -> Option<int>): (n: nat)
    ensures n <= |MembersList(members)|
  {
    |Filter(MembersList(members), UnseenBy(table, now, parse))|
  }

  /** The `inactive` filter as a loop over the members, looking up each
      one's last present date; its count is the filter's length. */
  method CountInactive(ms: seq<Card>, table: map<string, map<string, bool>>, now: int, parse: string -> Option<int>)
    returns (n: nat)
    ensures n == |Filter(ms, UnseenBy(table, now, parse))|
  {
    n := 0;
    var i := 0;
    while i < |ms|
      invariant 0 <= i <= |ms|
      invariant n == |Filter(ms[..i], UnseenBy(table, now, parse))|
    {
      var last := LastPresentOf(table, ms[i].id);
      assert ms[..i + 1] == ms[..i] + [ms[i]];
      FilterSnoc(ms[..i], ms[i], UnseenBy(table, now, parse));
      if last.Some? && last.value != "" && parse(last.value).Some? && DifferenceInDays(now, parse(last.value).value) >= 10 {
        n := n + 1;
      }
      i := i + 1;
    }
    assert ms[..|ms|] == ms;
  }

  /** It counts exactly the listed members not seen for ten days. */
  lemma InactiveCounted(members: Option<seq<Card>>, table: map<string, map<string, bool>>, now: int, parse: string -> Option<int>)
    ensures forall c :: c in Filter(MembersList(members), UnseenBy(table, now, parse)) <==>
      c in MembersList(members) && Unseen(c, table, now, parse)
  {
    FilterMembers(MembersList(members), UnseenBy(table, now, parse));
  }
}
