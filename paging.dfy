/** Skip/limit pagination, shared by the member-list endpoint (MongoDB
    `skip`/`limit`) and the member page of the dashboard (`Array.slice` with
    nine cards per page). */
module Paging {
  import opened Common

  /** `Math.ceil(n / d)` for a positive divisor. */
  function CeilDiv(n: nat, d: nat): (r: nat)
    requires d > 0
    ensures n <= r * d
    ensures r == 0 || (r - 1) * d < n
  {
    (n + d - 1) / d
  }

  /** The elements of `s` from position `skip` on, at most `size` of them:
      `s.slice(skip, skip + size)`, equally `skip(skip).limit(size)`. */
  function Window<T>(s: seq<T>, skip: nat, size: nat): (r: seq<T>)
    ensures |r| == if skip >= |s| then 0 else Min(size, |s| - skip)
    ensures forall k :: 0 <= k < |r| ==> r[k] == s[skip + k]
  {
    s[Min(skip, |s|)..Min(skip + size, |s|)]
  }

  /** Page `p` (counted from 1) of `size` items. */
  function Page<T>(s: seq<T>, p: nat, size: nat): (r: seq<T>)
    requires p >= 1
  {
    Window(s, (p - 1) * size, size)
  }

  /** Pages 1 to `k` one after another. */
  function PagesUpTo<T>(s: seq<T>, size: nat, k: nat): seq<T>
  {
    if k == 0 then [] else PagesUpTo(s, size, k - 1) + Page(s, k, size)
  }

  /** A page holds at most `size` items, and they are the items of `s` at
      positions `(p-1)*size` onwards. */
  lemma PageContents<T>(s: seq<T>, p: nat, size: nat)
    requires p >= 1
    ensures |Page(s, p, size)| <= size
    ensures forall k :: 0 <= k < |Page(s, p, size)| ==>
      (p - 1) * size + k < p * size && Page(s, p, size)[k] == s[(p - 1) * size + k]
  {
  }

  /** Distinct pages are drawn from disjoint ranges of positions. */
  lemma PagesDisjoint(p: nat, q: nat, size: nat, i: int)
    requires 1 <= p < q
    ensures !((p - 1) * size <= i < p * size && (q - 1) * size <= i < q * size)
  {
    assert p * size <= (q - 1) * size by {
      assert p <= q - 1;
    }
  }

  /** Pages 1 to `k` cover exactly the first `k * size` items. */
  lemma {:induction false} PagesUpToPrefix<T>(s: seq<T>, size: nat, k: nat)
    ensures PagesUpTo(s, size, k) == s[..Min(k * size, |s|)]
  {
    if k > 0 {
      PagesUpToPrefix(s, size, k - 1);
      var a := Min((k - 1) * size, |s|);
      var b := Min(k * size, |s|);
      assert (k - 1) * size + size == k * size;
      assert Page(s, k, size) == s[a..b];
      assert s[..a] + s[a..b] == s[..b];
    }
  }

  /** Pages 1 to `CeilDiv(|s|, size)` concatenate to the whole list. */
  lemma PagesCover<T>(s: seq<T>, size: nat)
    requires size > 0
    ensures PagesUpTo(s, size, CeilDiv(|s|, size)) == s
  {
    PagesUpToPrefix(s, size, CeilDiv(|s|, size));
  }

  /** A page past the last one is empty. */
  lemma PageBeyondLast<T>(s: seq<T>, p: nat, size: nat)
    requires size > 0 && p > CeilDiv(|s|, size)
    ensures Page(s, p, size) == []
  {
    var c := CeilDiv(|s|, size);
    assert (p - 1) * size >= c * size by {
      assert p - 1 >= c;
    }
  }
}
