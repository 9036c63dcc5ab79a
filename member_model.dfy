/** The member record of the server: its schema rules, the membership status
    derived from the clock, and the daily check-in/check-out log. */
module MemberModel {
  import opened Common

  type Id = nat

  /** One attendance log entry: the calendar day, the check-in instant and the
      check-out instant once there is one. */
  datatype Entry = Entry(date: int, checkIn: int, checkOut: Option<int>)

  /** A stored member. `createdAt` is the timestamp the schema's `timestamps`
      option adds; `joined` defaults to the creation time. */
  datatype Member = Member(
    id: Id,
    name: string,
    number: string,
    membership: string,
    expiry: int,
    picture: string,
    joined: int,
    isActive: bool,
    attendance: seq<Entry>,
    createdAt: int)

  /** The three membership plans of the schema's enum. */
  const Plans: seq<string> := ["Monthly", "Quarterly", "Yearly"]

  /** The picture a member gets when none is given. */
  const DefaultPicture: string :=
    "https://img.freepik.com/free-vector/hand-drawn-nft-style-ape-illustration_23-2149622021.jpg?semt=ais_items_boosted&w=740"

  predicate IsPlan(s: string) {
    s in Plans
  }

  /** The schema's validators for the fields the store keeps valid at all
      times: a name, a ten-digit number and one of the three plans. */
  predicate FieldsValid(m: Member) {
    m.name != "" && IsTenDigits(m.number) && IsPlan(m.membership)
  }

  /** Everything a save checks at instant `now`: the fields above and an
      expiry strictly later than `now`. */
  predicate RecordValid(m: Member, now: int) {
    FieldsValid(m) && m.expiry > now
  }

  lemma RecordValidMeans(m: Member, now: int)
    ensures RecordValid(m, now) <==>
      m.name != "" && |m.number| == 10 &&
      (forall i :: 0 <= i < 10 ==> '0' <= m.number[i] <= '9') &&
      (m.membership == "Monthly" || m.membership == "Quarterly" || m.membership == "Yearly") &&
      now < m.expiry
    ensures RecordValid(m.(name := Trim(m.name)), now) <==>
      (exists i :: 0 <= i < |m.name| && !IsSpace(m.name[i])) &&
      IsTenDigits(m.number) && IsPlan(m.membership) && now < m.expiry
  {
  }

  datatype Status = Active | Expired | Inactive

  /** The `membershipStatus` virtual: inactive beats everything, then an
      expiry in the past; re-derived from the clock on every read. */
  function MembershipStatus(m: Member, now: int): (s: Status)
    ensures !m.isActive ==> s == Inactive
    ensures m.isActive ==> (s == Expired <==> now > m.expiry)
    ensures m.isActive ==> (s == Active <==> now <= m.expiry)
  {
    if !m.isActive then Inactive
    else if now > m.expiry then Expired
    else Active
  }

  /** The status as the API spells it. */
  function StatusName(s: Status): string {
    match s
    case Active => "active"
    case Expired => "expired"
    case Inactive => "inactive"
  }

  /** `isMembershipValid()`: active and not past its expiry. */
  function IsMembershipValid(m: Member, now: int): bool {
    m.isActive && now <= m.expiry
  }

  lemma ValidIffActiveStatus(m: Member, now: int)
    ensures IsMembershipValid(m, now) <==> MembershipStatus(m, now) == Active
  {
  }

  /** A member with expiry two days ahead is active, becomes expired once the
      clock passes the expiry with no write to the record, and is inactive
      once deactivated whatever the clock says. */
  lemma StatusLifecycle(m: Member, created: int, later: int, any: int)
    requires m.isActive && m.expiry == created + 2 * DayMs && later > m.expiry
    ensures MembershipStatus(m, created) == Active
    ensures MembershipStatus(m, later) == Expired
    ensures MembershipStatus(m.(isActive := false), any) == Inactive
  {
  }

  // ---------------------------------------------------------------------
  // Attendance marker

  /** The log never holds two entries for the same calendar day. */
  predicate OnePerDay(log: seq<Entry>) {
    forall i, j :: 0 <= i < j < |log| ==> Day(log[i].date) != Day(log[j].date)
  }

  /** `attendance.find`: the first entry whose date falls on day `d`. */
  function FindDay(log: seq<Entry>, d: int): (r: Option<nat>)
    ensures r.Some? ==> r.value < |log| && Day(log[r.value].date) == d
    ensures r.Some? ==> forall k :: 0 <= k < r.value ==> Day(log[k].date) != d
    ensures r.None? ==> forall k :: 0 <= k < |log| ==> Day(log[k].date) != d
  {
    if log == [] then None
    else if Day(log[0].date) == d then Some(0)
    else match FindDay(log[1..], d)
      case None => None
      case Some(j) => Some(j + 1)
  }

  /** The log after `markAttendance(checkIn)`: a new open entry for a new day,
      a check-out for a day that has only a check-in, and no change for a day
      that is already closed. */
  function Marked(log: seq<Entry>, checkIn: int): seq<Entry> {
    var today := Day(checkIn);
    match FindDay(log, today)
    case None => log + [Entry(today, checkIn, None)]
    case Some(i) =>
      if log[i].checkOut.None? then log[i := log[i].(checkOut := Some(checkIn))]
      else log
  }

  /** `markAttendance`: look the day up, then append or close the entry. */
  method MarkAttendance(log: seq<Entry>, checkIn: int) returns (updated: seq<Entry>)
    ensures updated == Marked(log, checkIn)
  {
    var today := Day(checkIn);
    var i := 0;
    while i < |log| && Day(log[i].date) != today
      invariant 0 <= i <= |log|
      invariant forall k :: 0 <= k < i ==> Day(log[k].date) != today
    {
      i := i + 1;
    }
    if i == |log| {
      updated := log + [Entry(today, checkIn, None)];
    } else if log[i].checkOut.None? {
      updated := log[i := log[i].(checkOut := Some(checkIn))];
    } else {
      updated := log;
    }
  }

  /** First mark of a day: exactly one entry is appended, for that day, with
      the check-in and no check-out; the old entries are untouched. */
  lemma MarkNewDay(log: seq<Entry>, t: int)
    requires forall k :: 0 <= k < |log| ==> Day(log[k].date) != Day(t)
    ensures |Marked(log, t)| == |log| + 1
    ensures Marked(log, t)[..|log|] == log
    ensures Marked(log, t)[|log|] == Entry(Day(t), t, None)
  {
  }

  /** Second mark of a day: that day's entry gets the check-out; the length,
      the entry's day and check-in, and every other entry stay. */
  lemma MarkCheckOut(log: seq<Entry>, i: nat, t: int)
    requires OnePerDay(log)
    requires i < |log| && Day(log[i].date) == Day(t) && log[i].checkOut.None?
    ensures |Marked(log, t)| == |log|
    ensures Marked(log, t)[i] == Entry(log[i].date, log[i].checkIn, Some(t))
    ensures forall k :: 0 <= k < |log| && k != i ==> Marked(log, t)[k] == log[k]
  {
    var r := FindDay(log, Day(t));
    assert r.Some? && r.value == i;
  }

  /** Any further mark of a closed day changes nothing: an idempotent skip,
      not an error. */
  lemma MarkClosedDay(log: seq<Entry>, i: nat, t: int)
    requires OnePerDay(log)
    requires i < |log| && Day(log[i].date) == Day(t) && log[i].checkOut.Some?
    ensures Marked(log, t) == log
  {
    var r := FindDay(log, Day(t));
    assert r.Some? && r.value == i;
  }

  /** Marking keeps at most one entry per day and adds at most one entry;
      every new entry's date is already a calendar day. */
  lemma MarkPreservesOnePerDay(log: seq<Entry>, t: int)
    requires OnePerDay(log)
    ensures OnePerDay(Marked(log, t))
    ensures |log| <= |Marked(log, t)| <= |log| + 1
  {
    var today := Day(t);
    DayIdempotent(t);
    var r := Marked(log, t);
    match FindDay(log, today)
    case None =>
      forall i, j | 0 <= i < j < |r| ensures Day(r[i].date) != Day(r[j].date) {
        if j == |log| {
          assert r[j].date == today;
        } else {
          assert r[i] == log[i] && r[j] == log[j];
        }
      }
    case Some(k) =>
      forall i, j | 0 <= i < j < |r| ensures Day(r[i].date) != Day(r[j].date) {
        assert r[i].date == log[i].date && r[j].date == log[j].date;
      }
  }

  /** Three marks on one day starting from an empty log: a single entry with
      the first instant as check-in and the second as check-out. */
  lemma ThreeMarksOneDay(t1: int, t2: int, t3: int)
    requires Day(t1) == Day(t2) == Day(t3)
    ensures Marked(Marked(Marked([], t1), t2), t3) == [Entry(Day(t1), t1, Some(t2))]
  {
    var l1 := Marked([], t1);
    assert l1 == [Entry(Day(t1), t1, None)];
    DayIdempotent(t1);
    assert FindDay(l1, Day(t2)) == Some(0);
    var l2 := Marked(l1, t2);
    assert l2 == [Entry(Day(t1), t1, Some(t2))];
    assert FindDay(l2, Day(t3)) == Some(0);
  }

  /** `getAttendanceByDateRange(start, end)`: the entries dated within the
      range, both ends included, in log order. */
  function AttendanceByDateRange(log: seq<Entry>, start: int, end: int): seq<Entry> {
    Filter(log, (e: Entry) => start <= e.date <= end)
  }

  lemma DateRangeIsOrderedSelection(log: seq<Entry>, start: int, end: int)
    ensures IsSubsequence(AttendanceByDateRange(log, start, end), log)
    ensures forall e :: e in AttendanceByDateRange(log, start, end) <==> e in log && start <= e.date <= end
  {
    FilterIsSubsequence(log, (e: Entry) => start <= e.date <= end);
    FilterMembers(log, (e: Entry) => start <= e.date <= end);
  }
}
