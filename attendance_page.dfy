/** The attendance page: who was present today, the last present date, the
    status label, and the local "marked" flags that give immediate feedback
    after a successful mark. */
module AttendancePage {
  import opened Common
  import opened MemberModel
  import opened ClientMember

  /** `wasPresentToday(member)` at instant `now`: false without an attendance
      array; otherwise some entry's date falls on today's day. */
  predicate WasPresentToday(c: Card, now: int) {
    c.attendance.Some? &&
    exists k :: 0 <= k < |c.attendance.value| && Day(c.attendance.value[k]) == Day(now)
  }

  /** On a card built from a stored member the test agrees with the server's
      day lookup: present today exactly when the log has an entry for
      today. */
  lemma PresentTodayIffLogged(m: Member, idText: string, sentAt: int, now: int)
    ensures WasPresentToday(CardOf(m, idText, sentAt), now) <==> FindDay(m.attendance, Day(now)).Some?
  {
    var c := CardOf(m, idText, sentAt);
    var ds := c.attendance.value;
    if FindDay(m.attendance, Day(now)).Some? {
      var i := FindDay(m.attendance, Day(now)).value;
      assert Day(ds[i]) == Day(now);
    }
  }

  /** Once the server has recorded a mark at `now`, the member's card shows
      present today. */
  lemma PresentAfterMark(m: Member, idText: string, sentAt: int, now: int)
    ensures WasPresentToday(CardOf(m.(attendance := Marked(m.attendance, now)), idText, sentAt), now)
  {
    var log := Marked(m.attendance, now);
    DayIdempotent(now);
    PresentTodayIffLogged(m.(attendance := log), idText, sentAt, now);
    match FindDay(m.attendance, Day(now))
    case None =>
      assert log[|m.attendance|].date == Day(now);
      assert Day(log[|m.attendance|].date) == Day(now);
    case Some(i) =>
      assert log[i].date == m.attendance[i].date;
  }

  /** The latest instant of a non-empty list: the first after sorting with
      `(a, b) => b - a`. */
  function Latest(ds: seq<int>): (r: int)
    requires ds != []
    ensures r in ds
    ensures forall k :: 0 <= k < |ds| ==> ds[k] <= r
  {
    if |ds| == 1 then ds[0]
    else
      var rest := Latest(ds[1..]);
      assert forall k :: 1 <= k < |ds| ==> ds[k] == ds[1..][k - 1];
      if ds[0] >= rest then ds[0] else rest
  }

  /** `getLastPresentDate(member)`: null without attendance or with an empty
      one, otherwise the latest entry date (its `yyyy-MM-dd` rendering left
      out). */
  function LastPresent(c: Card): (r: Option<int>)
    ensures c.attendance.None? || c.attendance == Some([]) ==> r.None?
    ensures c.attendance.Some? && c.attendance.value != [] ==>
      r.Some? && r.value in c.attendance.value &&
      forall k :: 0 <= k < |c.attendance.value| ==> c.attendance.value[k] <= r.value
  {
    if c.attendance.None? || c.attendance.value == [] then None
    else Some(Latest(c.attendance.value))
  }

  /** `m.membershipStatus || 'active'`. */
  function StatusLabel(c: Card): (r: string)
    ensures c.membershipStatus.None? || c.membershipStatus == Some("") ==> r == "active"
    ensures c.membershipStatus.Some? && c.membershipStatus.value != "" ==> r == c.membershipStatus.value
  {
    if c.membershipStatus.None? || c.membershipStatus.value == "" then "active" else c.membershipStatus.value
  }

  /** For a card the server built the label is the server's status name. */
  lemma LabelIsServerStatus(m: Member, idText: string, sentAt: int)
    ensures StatusLabel(CardOf(m, idText, sentAt)) == StatusName(MembershipStatus(m, sentAt))
  {
  }

  /** `isPresentToday` with local flags `marks`: the member's log says so, or
      the member's flag is set. */
  predicate PresentWith(marks: map<string, bool>, c: Card, now: int) {
    WasPresentToday(c, now) || (c.id in marks && marks[c.id])
  }

  /** One table row: the checkbox's `checked` and `disabled` values, the
      label and the last present date. */
  datatype RowView = RowView(checked: bool, disabled: bool, status: string, lastPresent: Option<int>)

  /** The page's local flags, keyed by member id. */
  class AttendanceMarks {
    var marked: map<string, bool>

    constructor ()
      ensures marked == map[]
    {
      marked := map[];
    }

    predicate PresentNow(c: Card, now: int)
      reads this
    {
      PresentWith(marked, c, now)
    }

    /** The row of card `c`: checked and disabled both follow
        `isPresentToday`. */
    function Row(c: Card, now: int): (r: RowView)
      reads this
      ensures r.checked == r.disabled == PresentNow(c, now)
      ensures r.status == StatusLabel(c) && r.lastPresent == LastPresent(c)
    {
      var p := PresentNow(c, now);
      RowView(p, p, StatusLabel(c), LastPresent(c))
    }

    /** `handleMark(memberId, present)`. Unticking does nothing; `markOk` is
        the outcome of the server call: on success the member's flag is set,
        on failure nothing changes (an alert is shown). */
    method HandleMark(memberId: string, present: bool, markOk: bool)
      modifies this
      ensures present && markOk ==> marked == old(marked)[memberId := true]
      ensures !(present && markOk) ==> marked == old(marked)
    {
      if !present {
        return;
      }
      if markOk {
        marked := marked[memberId := true];
      }
    }
  }

  /** After a successful mark the member's row is checked (and so
      disabled) whatever the log says, and every other member's row is as
      before. */
  lemma MarkedRowLocked(marks: map<string, bool>, c: Card, d: Card, now: int)
    requires d.id != c.id
    ensures PresentWith(marks[c.id := true], c, now)
    ensures PresentWith(marks[c.id := true], d, now) == PresentWith(marks, d, now)
  {
  }

  /** A row is never unticked by the page: once present, a later successful
      mark of anyone keeps it present. */
  lemma PresentStaysPresent(marks: map<string, bool>, id: string, c: Card, now: int)
    requires PresentWith(marks, c, now)
    ensures PresentWith(marks[id := true], c, now)
  {
  }
}
