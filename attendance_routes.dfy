/** The attendance endpoints of the server: mark a member present (by path
    or by body), read one member's log, and flatten the logs of all active
    members into one report. */
module AttendanceRoutes {
  import opened Common
  import opened MemberModel
  import opened MemberRoutes

  /** The member's record after one mark at instant `now`. */
  function AfterMark(m: Member, now: int): (n: Member)
    ensures n.attendance == Marked(m.attendance, now)
    ensures n.(attendance := m.attendance) == m
  {
    m.(attendance := Marked(m.attendance, now))
  }

  /** A stored member's number is held by no other record. */
  lemma OwnNumber(records: map<Id, Member>, id: Id)
    requires NumbersUnique(records) && id in records
    ensures !HeldByOther(records, id, records[id].number)
  {
  }

  /** `POST /attendance/:id/attendance`: an unknown id is a 404 that changes
      nothing; otherwise the mark is applied at `now` whatever the member's
      active flag or expiry. */
  method MarkById(store: Store, id: Id, now: int) returns (r: Result<Member, ApiError>)
    requires store.Valid()
    modifies store
    ensures store.Valid()
    ensures id !in old(store.records) ==> r == Failure(NotFound(MemberNotFound)) && store.records == old(store.records)
    ensures id in old(store.records) ==>
      r == Success(AfterMark(old(store.records[id]), now)) && store.records == old(store.records)[id := r.value]
    ensures store.order == old(store.order) && store.nextId == old(store.nextId)
  {
    if id !in store.records {
      return Failure(NotFound(MemberNotFound));
    }
    var m := store.records[id];
    var log := MarkAttendance(m.attendance, now);
    var n := m.(attendance := log);
    MarkPreservesOnePerDay(m.attendance, now);
    OwnNumber(store.records, id);
    ReplaceKeepsInv(store.order, store.records, store.nextId, n);
    store.records := store.records[id := n];
    r := Success(n);
  }

  /** Legacy `POST /attendance`: the id comes in the body; a missing (or
      falsy) id is a 400, then the route behaves as the one above. */
  method LegacyMark(store: Store, memberId: Option<Id>, now: int) returns (r: Result<Member, ApiError>)
    requires store.Valid()
    modifies store
    ensures store.Valid()
    ensures memberId.None? ==> r == Failure(BadRequest("memberId is required")) && store.records == old(store.records)
    ensures memberId.Some? && memberId.value !in old(store.records) ==>
      r == Failure(NotFound(MemberNotFound)) && store.records == old(store.records)
    ensures memberId.Some? && memberId.value in old(store.records) ==>
      r == Success(AfterMark(old(store.records[memberId.value]), now)) &&
      store.records == old(store.records)[memberId.value := r.value]
    ensures store.order == old(store.order) && store.nextId == old(store.nextId)
  {
    if memberId.None? {
      return Failure(BadRequest("memberId is required"));
    }
    r := MarkById(store, memberId.value, now);
  }

  /** `GET /attendance/:id`: the log as stored, or a 404. */
  method GetAttendance(store: Store, id: Id) returns (r: Result<seq<Entry>, ApiError>)
    ensures id in store.records ==> r == Success(store.records[id].attendance)
    ensures id !in store.records ==> r == Failure(NotFound(MemberNotFound))
  {
    if id !in store.records {
      return Failure(NotFound(MemberNotFound));
    }
    r := Success(store.records[id].attendance);
  }

  /** One row of the attendance report. */
  datatype AttendanceRecord = AttendanceRecord(memberId: Id, memberName: string, date: int, checkIn: int, checkOut: Option<int>)

  function Row(m: Member, e: Entry): AttendanceRecord {
    AttendanceRecord(m.id, m.name, e.date, e.checkIn, e.checkOut)
  }

  /** The rows of one member, one per log entry, in log order. */
  function RowsOf(m: Member): (r: seq<AttendanceRecord>)
    ensures |r| == |m.attendance|
    ensures forall j :: 0 <= j < |r| ==> r[j] == Row(m, m.attendance[j])
  {
    seq(|m.attendance|, j requires 0 <= j < |m.attendance| => Row(m, m.attendance[j]))
  }

  /** The rows of all of `ms`, member after member. */
  function Flatten(ms: seq<Member>): seq<AttendanceRecord> {
    if ms == [] then [] else Flatten(ms[..|ms| - 1]) + RowsOf(ms[|ms| - 1])
  }

  /** The total length of the members' logs. */
  function LogEntries(ms: seq<Member>): nat {
    if ms == [] then 0 else LogEntries(ms[..|ms| - 1]) + |ms[|ms| - 1].attendance|
  }

  predicate IsActive(m: Member) {
    m.isActive
  }

  /** The members `Member.find({isActive: true})` returns, in store order. */
  function ActiveMembers(ms: seq<Member>): seq<Member> {
    Filter(ms, IsActive)
  }

  /** `GET /attendance`: the report over the active members. */
  method AllAttendance(store: Store) returns (rows: seq<AttendanceRecord>)
    requires store.Valid()
    ensures rows == Flatten(ActiveMembers(store.Members()))
  {
    rows := CollectRows(ActiveMembers(store.Members()));
  }

  /** The two nested `forEach` loops: one row pushed per log entry of each
      member in turn. */
  method CollectRows(ms: seq<Member>) returns (rows: seq<AttendanceRecord>)
    ensures rows == Flatten(ms)
  {
    rows := [];
    var i := 0;
    while i < |ms|
      invariant 0 <= i <= |ms|
      invariant rows == Flatten(ms[..i])
    {
      var m := ms[i];
      var j := 0;
      while j < |m.attendance|
        invariant 0 <= j <= |m.attendance|
        invariant rows == Flatten(ms[..i]) + RowsOf(m)[..j]
      {
        var e := m.attendance[j];
        RowsStep(m, j);
        rows := rows + [AttendanceRecord(m.id, m.name, e.date, e.checkIn, e.checkOut)];
        j := j + 1;
      }
      FlattenStep(ms, i);
      i := i + 1;
    }
    assert ms[..|ms|] == ms;
  }

  lemma RowsStep(m: Member, j: nat)
    requires j < |m.attendance|
    ensures RowsOf(m)[..j + 1] == RowsOf(m)[..j] + [Row(m, m.attendance[j])]
  {
  }

  lemma FlattenStep(ms: seq<Member>, i: nat)
    requires i < |ms|
    ensures Flatten(ms[..i + 1]) == Flatten(ms[..i]) + RowsOf(ms[i])
  {
    assert ms[..i + 1][..i] == ms[..i];
  }

  /** The report has exactly as many rows as the logs have entries. */
  lemma {:induction false} FlattenCount(ms: seq<Member>)
    ensures |Flatten(ms)| == LogEntries(ms)
  {
    if ms != [] {
      FlattenCount(ms[..|ms| - 1]);
    }
  }

  /** Entry `j` of member `i` is reported at position "entries of the
      members before `i`, plus `j`", with that member's id and name: rows
      keep member order, then log order. */
  lemma {:induction false} FlattenAt(ms: seq<Member>, i: nat, j: nat)
    requires i < |ms| && j < |ms[i].attendance|
    ensures LogEntries(ms[..i]) + j < |Flatten(ms)|
    ensures Flatten(ms)[LogEntries(ms[..i]) + j] == AttendanceRecord(ms[i].id, ms[i].name,
      ms[i].attendance[j].date, ms[i].attendance[j].checkIn, ms[i].attendance[j].checkOut)
  {
    var init := ms[..|ms| - 1];
    if i < |ms| - 1 {
      FlattenAt(init, i, j);
      assert init[..i] == ms[..i];
      assert init[i] == ms[i];
    } else {
      assert init == ms[..i];
      FlattenCount(init);
    }
  }

  /** Every row of the report belongs to an active member. */
  lemma ReportOnlyActive(ms: seq<Member>, k: nat)
    requires k < |Flatten(ActiveMembers(ms))|
    ensures exists m :: m in ms && m.isActive && m.id == Flatten(ActiveMembers(ms))[k].memberId
  {
    var a := ActiveMembers(ms);
    var i, j := RowSource(a, k);
    FilterMembers(ms, IsActive);
    assert a[i] in ms && IsActive(a[i]);
  }

  /** The member and entry a row comes from. */
  lemma {:induction false} RowSource(ms: seq<Member>, k: nat) returns (i: nat, j: nat)
    requires k < |Flatten(ms)|
    ensures i < |ms| && j < |ms[i].attendance|
    ensures Flatten(ms)[k] == Row(ms[i], ms[i].attendance[j])
  {
    var init := ms[..|ms| - 1];
    if k < |Flatten(init)| {
      i, j := RowSource(init, k);
    } else {
      i, j := |ms| - 1, k - |Flatten(init)|;
    }
  }
}
