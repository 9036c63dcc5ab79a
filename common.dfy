/** Shared vocabulary of the gym-membership model: optional values, results,
    integer timestamps and calendar days, and the few string operations the
    server and the dashboard both rely on. */
module Common {

  datatype Option<+T> = None | Some(value: T) {
    function GetOr(default: T): T {
      match this
      case Some(v) => v
      case None => default
    }
  }

  datatype Result<+R, +E> = Success(value: R) | Failure(error: E)

  /** Milliseconds in one day; every timestamp in the model is an integer
      number of milliseconds. */
  const DayMs: int := 24 * 60 * 60 * 1000

  /** The calendar day of an instant: the instant truncated to midnight. */
  function Day(t: int): (d: int)
    ensures d <= t < d + DayMs
    ensures d % DayMs == 0
  {
    t - t % DayMs
  }

  lemma DayIdempotent(t: int)
    ensures Day(Day(t)) == Day(t)
  {
  }

  /** Two instants fall on the same day exactly when they are less than a day
      past the same midnight. */
  lemma SameDay(t: int, u: int)
    ensures Day(t) == Day(u) <==> Day(t) <= u < Day(t) + DayMs
  {
    var d := Day(t);
    if d <= u < d + DayMs {
      assert u - d == u % DayMs || d == Day(u) by {
        assert 0 <= u - d < DayMs;
        assert d % DayMs == 0;
        assert u == d + (u - d);
        assert u % DayMs == u - d;
      }
    }
  }

  lemma DayMonotone(t: int, u: int)
    requires t <= u
    ensures Day(t) <= Day(u)
  {
  }

  /** `x` is one of the ASCII digits 0-9. */
  predicate IsDigit(c: char) {
    '0' <= c <= '9'
  }

  /** The test `/^[0-9]{10}$/` applied to a string: exactly ten ASCII digits. */
  predicate IsTenDigits(s: string) {
    |s| == 10 && forall i :: 0 <= i < |s| ==> IsDigit(s[i])
  }

  /** `q` occurs in `s` at position `i`. */
  predicate OccursAt(s: string, q: string, i: int) {
    0 <= i && i + |q| <= |s| && s[i..i + |q|] == q
  }

  /** `s.includes(q)`: `q` occurs somewhere in `s`. */
  function Contains(s: string, q: string): (b: bool)
    ensures b <==> exists i :: OccursAt(s, q, i)
    decreases |s|
  {
    if |q| > |s| then
      false
    else if s[..|q|] == q then
      assert OccursAt(s, q, 0);
      true
    else
      var rest := Contains(s[1..], q);
      assert !OccursAt(s, q, 0);
      forall i | 0 < i {
        OccursShift(s, q, i);
      }
      assert rest ==> OccursAt(s, q, 1 + var j :| OccursAt(s[1..], q, j); j);
      rest
  }

  /** An occurrence past the first character is an occurrence in the tail. */
  lemma OccursShift(s: string, q: string, i: int)
    requires s != [] && 0 < i
    ensures OccursAt(s, q, i) <==> OccursAt(s[1..], q, i - 1)
  {
    if i + |q| <= |s| {
      assert s[1..][i - 1..i - 1 + |q|] == s[i..i + |q|];
    }
  }

  lemma ContainsEmpty(s: string)
    ensures Contains(s, "")
  {
    assert OccursAt(s, "", 0);
  }

  /** ASCII lower-casing of one character, the part of `toLowerCase` the model
      covers. */
  function LowerChar(c: char): (r: char)
    ensures 'A' <= c <= 'Z' ==> r as int == c as int + 32
    ensures !('A' <= c <= 'Z') ==> r == c
  {
    if 'A' <= c <= 'Z' then (c as int + 32) as char else c
  }

  function Lower(s: string): (r: string)
    ensures |r| == |s|
    ensures forall i :: 0 <= i < |s| ==> r[i] == LowerChar(s[i])
  {
    if s == [] then [] else [LowerChar(s[0])] + Lower(s[1..])
  }

  /** Code-unit (lexicographic) order on strings: the order of a JavaScript
      `sort()` without a comparator. */
  predicate LexLe(a: string, b: string)
    decreases |a|
  {
    a == [] || (b != [] && (a[0] < b[0] || (a[0] == b[0] && LexLe(a[1..], b[1..]))))
  }

  lemma {:induction false} LexTotal(a: string, b: string)
    ensures LexLe(a, b) || LexLe(b, a)
    decreases |a|
  {
    if a != [] && b != [] && a[0] == b[0] {
      LexTotal(a[1..], b[1..]);
    }
  }

  lemma {:induction false} LexTransitive(a: string, b: string, c: string)
    requires LexLe(a, b) && LexLe(b, c)
    ensures LexLe(a, c)
    decreases |a|
  {
    if a != [] && a[0] == b[0] && b[0] == c[0] {
      LexTransitive(a[1..], b[1..], c[1..]);
    }
  }

  lemma {:induction false} LexAntisymmetric(a: string, b: string)
    requires LexLe(a, b) && LexLe(b, a)
    ensures a == b
    decreases |a|
  {
    if a != [] {
      LexAntisymmetric(a[1..], b[1..]);
    }
  }

  /** `Array.prototype.filter`: the elements satisfying `p`, in their order. */
  function Filter<T>(s: seq<T>, p: T -> bool): (r: seq<T>)
    ensures |r| <= |s|
    ensures forall i :: 0 <= i < |r| ==> p(r[i])
  {
    if s == [] then [] else (if p(s[0]) then [s[0]] else []) + Filter(s[1..], p)
  }

  /** The filter keeps every element satisfying `p` and nothing else. */
  lemma {:induction false} FilterMembers<T>(s: seq<T>, p: T -> bool)
    ensures forall i :: 0 <= i < |Filter(s, p)| ==> Filter(s, p)[i] in s
    ensures forall i :: 0 <= i < |s| && p(s[i]) ==> s[i] in Filter(s, p)
  {
    if s != [] {
      FilterMembers(s[1..], p);
      var r := Filter(s, p);
      var rest := Filter(s[1..], p);
      forall i | 0 <= i < |r| ensures r[i] in s {
        if !(p(s[0]) && i == 0) {
          var j := if p(s[0]) then i - 1 else i;
          assert r[i] == rest[j];
          assert rest[j] in s[1..];
        }
      }
      forall i | 0 <= i < |s| && p(s[i]) ensures s[i] in r {
        if i > 0 {
          assert s[i] == s[1..][i - 1];
          assert s[i] in rest;
        }
      }
    }
  }

  /** `r` is `s` with some elements left out and the rest kept in order. */
  predicate IsSubsequence<T(==)>(r: seq<T>, s: seq<T>)
    decreases |s|
  {
    if r == [] then true
    else if s == [] then false
    else if r[0] == s[0] then IsSubsequence(r[1..], s[1..])
    else IsSubsequence(r, s[1..])
  }

  lemma {:induction false} SubsequenceOfTail<T>(r: seq<T>, s: seq<T>)
    requires s != [] && IsSubsequence(r, s[1..])
    ensures IsSubsequence(r, s)
    decreases |s|, 1
  {
    if r != [] && r[0] == s[0] {
      SubsequenceDropHead(r, s[1..]);
    }
  }

  lemma {:induction false} SubsequenceDropHead<T>(r: seq<T>, s: seq<T>)
    requires r != [] && IsSubsequence(r, s)
    ensures IsSubsequence(r[1..], s)
    decreases |s|, 2
  {
    if s != [] {
      if r[0] == s[0] {
        SubsequenceOfTail(r[1..], s);
      } else {
        SubsequenceDropHead(r, s[1..]);
        SubsequenceOfTail(r[1..], s);
      }
    }
  }

  lemma {:induction false} FilterIsSubsequence<T>(s: seq<T>, p: T -> bool)
    ensures IsSubsequence(Filter(s, p), s)
    decreases |s|
  {
    if s != [] {
      FilterIsSubsequence(s[1..], p);
      if !p(s[0]) {
        assert Filter(s, p) == Filter(s[1..], p);
        SubsequenceOfTail(Filter(s, p), s);
      } else {
        assert Filter(s, p) == [s[0]] + Filter(s[1..], p);
      }
    }
  }

  /** Filtering with a predicate every element satisfies keeps the sequence. */
  lemma {:induction false} FilterAll<T>(s: seq<T>, p: T -> bool)
    requires forall i :: 0 <= i < |s| ==> p(s[i])
    ensures Filter(s, p) == s
    decreases |s|
  {
    if s != [] {
      FilterAll(s[1..], p);
    }
  }

  /** Filtering with a predicate no element satisfies leaves nothing. */
  lemma {:induction false} FilterNone<T>(s: seq<T>, p: T -> bool)
    requires forall i :: 0 <= i < |s| ==> !p(s[i])
    ensures Filter(s, p) == []
    decreases |s|
  {
    if s != [] {
      FilterNone(s[1..], p);
    }
  }

  /** Filtering a sequence extended by one element extends the filtered
      sequence by that element exactly when it satisfies `p`. */
  lemma {:induction false} FilterSnoc<T>(s: seq<T>, x: T, p: T -> bool)
    ensures Filter(s + [x], p) == Filter(s, p) + (if p(x) then [x] else [])
    decreases |s|
  {
    if s != [] {
      assert (s + [x])[1..] == s[1..] + [x];
      FilterSnoc(s[1..], x, p);
    }
  }

  /** The characters `String.prototype.trim` strips: the ECMAScript
      WhiteSpace and LineTerminator code points. */
  predicate IsSpace(c: char) {
    c == ' ' || c == '\t' || c == '\n' || c == '\r' || c == '\U{000B}' || c == '\U{000C}' ||
    c == '\U{00A0}' || c == '\U{1680}' || ('\U{2000}' <= c <= '\U{200A}') || c == '\U{2028}' ||
    c == '\U{2029}' || c == '\U{202F}' || c == '\U{205F}' || c == '\U{3000}' || c == '\U{FEFF}'
  }

  /** The length of the run of whitespace `s` starts with. */
  function LeadingSpace(s: string): (n: nat)
    ensures n <= |s|
    ensures forall i :: 0 <= i < n ==> IsSpace(s[i])
    ensures n < |s| ==> !IsSpace(s[n])
    decreases |s|
  {
    if s != [] && IsSpace(s[0]) then 1 + LeadingSpace(s[1..]) else 0
  }

  /** The length of the run of whitespace `s` ends with. */
  function TrailingSpace(s: string): (n: nat)
    ensures n <= |s|
    ensures forall i :: |s| - n <= i < |s| ==> IsSpace(s[i])
    ensures n < |s| ==> !IsSpace(s[|s| - n - 1])
    decreases |s|
  {
    if s != [] && IsSpace(s[|s| - 1]) then 1 + TrailingSpace(s[..|s| - 1]) else 0
  }

  /** `String.prototype.trim`: `s` without its leading and trailing
      whitespace. The result is empty exactly when `s` is all whitespace;
      otherwise it starts and ends with a character that is not whitespace. */
  function Trim(s: string): (r: string)
    ensures r == "" <==> forall i :: 0 <= i < |s| ==> IsSpace(s[i])
    ensures r != "" ==> !IsSpace(r[0]) && !IsSpace(r[|r| - 1])
  {
    var t := s[LeadingSpace(s)..];
    t[..|t| - TrailingSpace(t)]
  }

  /** The trimmed string is the middle of `s` between two runs of
      whitespace: trimming removes whitespace and nothing else. */
  lemma TrimIsMiddle(s: string)
    ensures exists i, j :: (0 <= i <= j <= |s| && Trim(s) == s[i..j] &&
      (forall k :: 0 <= k < i ==> IsSpace(s[k])) && (forall k :: j <= k < |s| ==> IsSpace(s[k])))
  {
    var a := LeadingSpace(s);
    var t := s[a..];
    var b := |t| - TrailingSpace(t);
    assert t[..b] == s[a..a + b];
    assert forall k :: a + b <= k < |s| ==> s[k] == t[k - a];
  }

  /** `s` neither starts nor ends with whitespace: what `Trim` leaves. */
  predicate Trimmed(s: string) {
    s == "" || (!IsSpace(s[0]) && !IsSpace(s[|s| - 1]))
  }

  /** The strings `Trim` leaves unchanged are exactly the trimmed ones. */
  lemma TrimFixesTrimmed(s: string)
    ensures Trimmed(Trim(s))
    ensures Trim(s) == s <==> Trimmed(s)
  {
    if Trimmed(s) && s != "" {
      assert LeadingSpace(s) == 0;
      assert TrailingSpace(s) == 0;
    }
  }

  /** Three spaces trim to nothing; " Bob " trims to "Bob". */
  lemma TrimExamples()
    ensures Trim("   ") == ""
    ensures Trim(" Bob ") == "Bob"
  {
    assert forall i :: 0 <= i < 3 ==> IsSpace("   "[i]);
    assert LeadingSpace(" Bob ") == 1;
    assert " Bob "[1..] == "Bob ";
    assert TrailingSpace("Bob ") == 1;
    assert "Bob "[..3] == "Bob";
  }

  /** Trimming twice is trimming once. */
  lemma TrimIdempotent(s: string)
    ensures Trim(Trim(s)) == Trim(s)
  {
    var r := Trim(s);
    if r != "" {
      assert LeadingSpace(r) == 0;
      assert TrailingSpace(r) == 0;
    }
  }

  function Min(a: int, b: int): int { if a <= b then a else b }
  function Max(a: int, b: int): int { if a >= b then a else b }
}
