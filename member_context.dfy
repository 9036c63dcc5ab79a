/** The dashboard's shared client state: a member list and a
    date → member → present table, changed only by the pure `reducer`, and
    the way the member list is taken out of the list endpoint's reply. */
module MemberContext {
  import opened Common

  /** A JSON value as the client receives it. Numbers are integers here. */
  datatype Json =
    | JNull
    | JBool(b: bool)
    | JNum(n: int)
    | JStr(s: string)
    | JArr(items: seq<Json>)
    | JObj(fields: map<string, Json>)

  /** `v.key`: the field of an object; `undefined` (None) otherwise. */
  function Field(v: Json, key: string): Option<Json> {
    if v.JObj? && key in v.fields then Some(v.fields[key]) else None
  }

  /** JavaScript truthiness of a value that may be `undefined`. */
  predicate Truthy(v: Option<Json>) {
    match v
    case None => false
    case Some(JNull) => false
    case Some(JBool(b)) => b
    case Some(JNum(n)) => n != 0
    case Some(JStr(s)) => s != ""
    case Some(JArr(_)) => true
    case Some(JObj(_)) => true
  }

  /** `a === b`: equal primitives, or both `undefined`. Objects and arrays
      parsed from JSON are distinct references and never strictly equal. */
  predicate StrictEq(a: Option<Json>, b: Option<Json>) {
    match (a, b)
    case (None, None) => true
    case (Some(x), Some(y)) => x == y && !x.JArr? && !x.JObj?
    case _ => false
  }

  /** The `_id` of a member entry. */
  function IdOf(m: Json): Option<Json> {
    Field(m, "_id")
  }

  /** `{...m, ...data}`: the fields of `data` override those of `m`. */
  function Merge(m: Json, data: map<string, Json>): (r: Json)
    ensures r.JObj?
    ensures forall k :: k in data ==> k in r.fields && r.fields[k] == data[k]
    ensures m.JObj? ==> forall k :: k in m.fields && k !in data ==> k in r.fields && r.fields[k] == m.fields[k]
    ensures m.JObj? ==> r.fields.Keys == m.fields.Keys + data.Keys
  {
    if m.JObj? then JObj(m.fields + data) else JObj(data)
  }

  datatype State = State(
    members: seq<Json>,
    attendance: map<string, map<string, bool>>,
    loading: bool,
    error: Option<string>)

  const InitialState: State := State([], map[], false, None)

  datatype Action =
    | SetLoading(loading: bool)
    | SetError(message: string)
    | SetMembers(payload: Json)
    | SetAttendance(table: map<string, map<string, bool>>)
    | UpdateMember(id: Option<Json>, data: map<string, Json>)
    | AddMember(member: Json)
    | DeleteMember(target: Option<Json>)
    | ReplaceMember(replacement: Json)
    | UpdateAttendance(date: string, memberId: string, present: bool)
    | Other(kind: string)

  /** Every entry whose `_id` is `id` merged with `data`, the others kept. */
  function MergeWhere(ms: seq<Json>, id: Option<Json>, data: map<string, Json>): seq<Json> {
    seq(|ms|, k requires 0 <= k < |ms| => if StrictEq(IdOf(ms[k]), id) then Merge(ms[k], data) else ms[k])
  }

  /** Every entry with the replacement's `_id` replaced by it. */
  function ReplaceWhere(ms: seq<Json>, replacement: Json): seq<Json> {
    seq(|ms|, k requires 0 <= k < |ms| => if StrictEq(IdOf(ms[k]), IdOf(replacement)) then replacement else ms[k])
  }

  /** `ms.filter(m => m._id !== target)`. */
  function KeepOthers(ms: seq<Json>, target: Option<Json>): seq<Json> {
    if ms == [] then []
    else (if StrictEq(IdOf(ms[0]), target) then [] else [ms[0]]) + KeepOthers(ms[1..], target)
  }

  /** The day's row with one cell set; a missing day starts empty. */
  function SetCell(table: map<string, map<string, bool>>, date: string, memberId: string, present: bool): map<string, map<string, bool>> {
    var day := if date in table then table[date] else map[];
    table[date := day[memberId := present]]
  }

  /** The cell of a table, if any. */
  function Cell(table: map<string, map<string, bool>>, date: string, memberId: string): Option<bool> {
    if date in table && memberId in table[date] then Some(table[date][memberId]) else None
  }

  /** `reducer(state, action)`: one branch per action type; any other type
      returns the state as it is. */
  function Reduce(s: State, a: Action): State {
    match a
    case SetLoading(l) => s.(loading := l)
    case SetError(e) => s.(error := Some(e), loading := false)
    case SetMembers(p) => s.(members := if p.JArr? then p.items else [], loading := false, error := None)
    case SetAttendance(t) => s.(attendance := t)
    case UpdateMember(id, data) => s.(members := MergeWhere(s.members, id, data))
    case AddMember(m) => s.(members := [m] + s.members)
    case DeleteMember(target) => s.(members := KeepOthers(s.members, target))
    case ReplaceMember(m) => s.(members := ReplaceWhere(s.members, m))
    case UpdateAttendance(date, id, present) => s.(attendance := SetCell(s.attendance, date, id, present))
    case Other(_) => s
  }

  /** `SET_MEMBERS` keeps an array payload, turns anything else into the
      empty list, and always ends loading and clears the error. */
  lemma SetMembersSpec(s: State, p: Json)
    ensures Reduce(s, SetMembers(p)).members == (if p.JArr? then p.items else [])
    ensures !p.JArr? ==> Reduce(s, SetMembers(p)).members == []
    ensures !Reduce(s, SetMembers(p)).loading && Reduce(s, SetMembers(p)).error.None?
    ensures Reduce(s, SetMembers(p)).attendance == s.attendance
  {
  }

  /** `ADD_MEMBER` puts the new entry in front of the others. */
  lemma AddMemberSpec(s: State, m: Json)
    ensures Reduce(s, AddMember(m)).members == [m] + s.members
    ensures |Reduce(s, AddMember(m)).members| == |s.members| + 1
    ensures Reduce(s, AddMember(m)).members[0] == m && Reduce(s, AddMember(m)).members[1..] == s.members
    ensures Reduce(s, AddMember(m)).(members := s.members) == s
  {
    assert ([m] + s.members)[1..] == s.members;
  }

  /** `UPDATE_MEMBER` keeps the length and order; an entry with the given
      `_id` keeps its other fields and takes those of `data`, every other
      entry is left as it was. */
  lemma UpdateMemberSpec(s: State, id: Option<Json>, data: map<string, Json>)
    ensures var r := Reduce(s, UpdateMember(id, data)).members;
      && |r| == |s.members|
      && (forall k :: 0 <= k < |r| && !StrictEq(IdOf(s.members[k]), id) ==> r[k] == s.members[k])
      && (forall k :: 0 <= k < |r| && StrictEq(IdOf(s.members[k]), id) ==>
            r[k].JObj? && (forall f :: f in data ==> f in r[k].fields && r[k].fields[f] == data[f]))
      && (forall k :: 0 <= k < |r| && StrictEq(IdOf(s.members[k]), id) && s.members[k].JObj? ==>
            forall f :: f in s.members[k].fields && f !in data ==> f in r[k].fields && r[k].fields[f] == s.members[k].fields[f])
    ensures Reduce(s, UpdateMember(id, data)).(members := s.members) == s
  {
  }

  /** `REPLACE_MEMBER` keeps the length and order, puts the replacement
      wherever the `_id` matches and leaves every other entry as it was. */
  lemma ReplaceMemberSpec(s: State, m: Json)
    ensures var r := Reduce(s, ReplaceMember(m)).members;
      && |r| == |s.members|
      && (forall k :: 0 <= k < |r| ==> r[k] == if StrictEq(IdOf(s.members[k]), IdOf(m)) then m else s.members[k])
    ensures Reduce(s, ReplaceMember(m)).(members := s.members) == s
  {
  }

  /** The entries kept are those without that `_id`, in their order, and
      every entry without it is kept. */
  lemma {:induction false} KeepOthersSpec(ms: seq<Json>, target: Option<Json>)
    ensures IsSubsequence(KeepOthers(ms, target), ms)
    ensures forall k :: 0 <= k < |KeepOthers(ms, target)| ==> !StrictEq(IdOf(KeepOthers(ms, target)[k]), target)
    ensures forall k :: 0 <= k < |ms| && !StrictEq(IdOf(ms[k]), target) ==> ms[k] in KeepOthers(ms, target)
  {
    if ms != [] {
      KeepOthersSpec(ms[1..], target);
      var rest := KeepOthers(ms[1..], target);
      if StrictEq(IdOf(ms[0]), target) {
        assert KeepOthers(ms, target) == rest;
        SubsequenceOfTail(rest, ms);
        forall k | 0 <= k < |ms| && !StrictEq(IdOf(ms[k]), target) ensures ms[k] in rest {
          assert ms[k] == ms[1..][k - 1];
        }
      } else {
        assert KeepOthers(ms, target) == [ms[0]] + rest;
        assert ([ms[0]] + rest)[1..] == rest;
        forall k | 0 < k < |ms| && !StrictEq(IdOf(ms[k]), target) ensures ms[k] in rest {
          assert ms[k] == ms[1..][k - 1];
        }
      }
    }
  }

  /** `DELETE_MEMBER` removes every entry with that `_id` and keeps all the
      others in their relative order. */
  lemma DeleteMemberSpec(s: State, target: Option<Json>)
    ensures var r := Reduce(s, DeleteMember(target)).members;
      && IsSubsequence(r, s.members)
      && (forall k :: 0 <= k < |r| ==> !StrictEq(IdOf(r[k]), target))
      && (forall k :: 0 <= k < |s.members| && !StrictEq(IdOf(s.members[k]), target) ==> s.members[k] in r)
    ensures Reduce(s, DeleteMember(target)).(members := s.members) == s
  {
    KeepOthersSpec(s.members, target);
    ReduceDelete(s, target);
  }

  /** Deleting an id nobody has changes nothing. */
  lemma DeleteAbsentIsNoop(s: State, target: Option<Json>)
    requires forall k :: 0 <= k < |s.members| ==> !StrictEq(IdOf(s.members[k]), target)
    ensures Reduce(s, DeleteMember(target)) == s
  {
    KeepOthersAll(s.members, target);
    ReduceDelete(s, target);
  }

  lemma ReduceDelete(s: State, target: Option<Json>)
    ensures Reduce(s, DeleteMember(target)).members == KeepOthers(s.members, target)
    ensures Reduce(s, DeleteMember(target)).(members := s.members) == s
  {
  }

  lemma {:induction false} KeepOthersAll(ms: seq<Json>, target: Option<Json>)
    requires forall k :: 0 <= k < |ms| ==> !StrictEq(IdOf(ms[k]), target)
    ensures KeepOthers(ms, target) == ms
  {
    if ms != [] {
      KeepOthersAll(ms[1..], target);
      assert [ms[0]] + ms[1..] == ms;
    }
  }

  /** `UPDATE_ATTENDANCE` sets one cell and no other. */
  lemma UpdateAttendanceSpec(s: State, date: string, memberId: string, present: bool)
    ensures Cell(Reduce(s, UpdateAttendance(date, memberId, present)).attendance, date, memberId) == Some(present)
    ensures forall d, k :: (d != date || k != memberId) ==>
      Cell(Reduce(s, UpdateAttendance(date, memberId, present)).attendance, d, k) == Cell(s.attendance, d, k)
    ensures Reduce(s, UpdateAttendance(date, memberId, present)).(attendance := s.attendance) == s
  {
  }

  /** `SET_LOADING` changes only `loading`; `SET_ERROR` sets the error and
      forces `loading` off; neither touches the members or the table. */
  lemma LoadingAndErrorSpec(s: State, l: bool, e: string)
    ensures Reduce(s, SetLoading(l)) == s.(loading := l)
    ensures Reduce(s, SetError(e)).error == Some(e) && !Reduce(s, SetError(e)).loading
    ensures Reduce(s, SetError(e)).members == s.members && Reduce(s, SetError(e)).attendance == s.attendance
  {
  }

  /** An action of any other type returns the state as it was. */
  lemma OtherIsIdentity(s: State, kind: string)
    ensures Reduce(s, Other(kind)) == s
  {
  }

  // ---------------------------------------------------------------------
  // Loading the member list

  /** The reply of `GET /members`: `{success: true, data: {members, pagination}}`. */
  function ListBody(members: seq<Json>, pagination: Json): Json {
    JObj(map["success" := JBool(true), "data" := JObj(map["members" := JArr(members), "pagination" := pagination])])
  }

  /** `data.data || data`, the payload the client hands to `SET_MEMBERS`. */
  function PayloadAsWritten(body: Json): Json {
    if Truthy(Field(body, "data")) then Field(body, "data").value else body
  }

  /** Whatever the server lists, the member list the client keeps from a
      list reply is empty: `data.data` is the `{members, pagination}`
      object, not an array. */
  lemma ListReplyLosesMembers(s: State, members: seq<Json>, pagination: Json)
    ensures Reduce(s, SetMembers(PayloadAsWritten(ListBody(members, pagination)))).members == []
  {
  }

  /** A concrete instance: one member listed, none kept. */
  lemma ListReplyLosesOneMember()
    ensures var body := ListBody([JObj(map["_id" := JStr("a1")])], JNull);
      Reduce(InitialState, SetMembers(PayloadAsWritten(body))).members == [] &&
      Field(Field(body, "data").value, "members") == Some(JArr([JObj(map["_id" := JStr("a1")])]))
  {
  }

  /** The payload the list handling evidently means: an array under `data`,
      the `members` array inside `data`, or the body itself when it is the
      array. */
  function MembersPayload(body: Json): Json {
    var d := Field(body, "data");
    if d.Some? && d.value.JArr? then d.value
    else if d.Some? && Field(d.value, "members").Some? then Field(d.value, "members").value
    else body
  }

  /** Fetching the members: `SET_LOADING true`, then `SET_MEMBERS`. */
  function LoadMembers(s: State, body: Json): State {
    Reduce(Reduce(s, SetLoading(true)), SetMembers(MembersPayload(body)))
  }

  /** With the corrected payload every listed member reaches the state, in
      the server's order, and the other two reply shapes still work. */
  lemma LoadMembersKeepsList(s: State, members: seq<Json>, pagination: Json)
    ensures LoadMembers(s, ListBody(members, pagination)).members == members
    ensures LoadMembers(s, JObj(map["data" := JArr(members)])).members == members
    ensures LoadMembers(s, JArr(members)).members == members
    ensures !LoadMembers(s, ListBody(members, pagination)).loading
    ensures LoadMembers(s, ListBody(members, pagination)).error.None?
  {
  }

  // ---------------------------------------------------------------------
  // A refused create

  /** The message `addMember` throws when the create is refused: the body's
      `error` text, else its `message` text, else a fixed fallback (a
      missing or empty text is falsy). The message is never empty. */
  function AddFailureMessage(error: Option<string>, message: Option<string>): (m: string)
    ensures m != ""
    ensures error.Some? && error.value != "" ==> m == error.value
    ensures (error.None? || error.value == "") && message.Some? && message.value != "" ==> m == message.value
    ensures (error.None? || error.value == "") && (message.None? || message.value == "") ==> m == "Failed to add member"
  {
    if error.Some? && error.value != "" then error.value
    else if message.Some? && message.value != "" then message.value
    else "Failed to add member"
  }
}
