/** Sequence helpers shared by the catalog and the file selection:
    order-preserving filtering (JavaScript's `Array.prototype.filter`),
    reversal, and the minimum used for the length of `slice(0, n)`. */
module Lists {

  function Min(a: int, b: int): int
  {
    if a <= b then a else b
  }

  /** The elements of `xs` that satisfy `p`, in their original order. */
  function Keep<T>(xs: seq<T>, p: T -> bool): (r: seq<T>)
    ensures |r| <= |xs|
    ensures forall i :: 0 <= i < |r| ==> p(r[i])
  {
    if |xs| == 0 then []
    else if p(xs[0]) then [xs[0]] + Keep(xs[1..], p)
    else Keep(xs[1..], p)
  }

  /** `r` is read off `xs` at the strictly increasing positions `idx`. */
  ghost predicate SelectsAt<T>(r: seq<T>, xs: seq<T>, idx: seq<int>)
  {
    && |idx| == |r|
    && (forall k :: 0 <= k < |idx| ==> 0 <= idx[k] < |xs| && r[k] == xs[idx[k]])
    && (forall k, l :: 0 <= k < l < |idx| ==> idx[k] < idx[l])
  }

  /** Every position in `idx` moved one to the right. */
  function Shift(idx: seq<int>): seq<int>
  {
    seq(|idx|, k requires 0 <= k < |idx| => idx[k] + 1)
  }

  lemma ShiftMembers(idx: seq<int>, j: int)
    ensures j in Shift(idx) <==> j - 1 in idx
  {
    var s := Shift(idx);
    if j in s {
      var k :| 0 <= k < |s| && s[k] == j;
      assert idx[k] == j - 1;
    }
    if j - 1 in idx {
      var k :| 0 <= k < |idx| && idx[k] == j - 1;
      assert s[k] == j;
    }
  }

  /** A selection from `tail` is a selection from `[x] + tail` one position on,
      and putting `x` in front of it selects position 0 as well. */
  lemma ShiftSelects<T>(r: seq<T>, x: T, tail: seq<T>, idx: seq<int>)
    requires SelectsAt(r, tail, idx)
    ensures SelectsAt(r, [x] + tail, Shift(idx))
    ensures forall k :: 0 <= k < |idx| ==> 0 <= idx[k]
    ensures SelectsAt([x] + r, [x] + tail, [0] + Shift(idx))
  {
    var xs := [x] + tail;
    var s := Shift(idx);
    forall k | 0 <= k < |s|
      ensures 0 <= s[k] < |xs| && r[k] == xs[s[k]]
    {
      assert xs[s[k]] == tail[idx[k]];
    }
  }

  /** `Keep` is an order-preserving subsequence whose positions are exactly
      those of the elements satisfying `p`. */
  lemma {:induction false} KeepSelects<T>(xs: seq<T>, p: T -> bool) returns (idx: seq<int>)
    ensures SelectsAt(Keep(xs, p), xs, idx)
    ensures forall j :: 0 <= j < |xs| ==> (p(xs[j]) <==> j in idx)
    decreases |xs|
  {
    if |xs| == 0 {
      idx := [];
    } else {
      var tail := xs[1..];
      assert xs == [xs[0]] + tail;
      var rest := KeepSelects(tail, p);
      ShiftSelects(Keep(tail, p), xs[0], tail, rest);
      var shifted := Shift(rest);
      if p(xs[0]) {
        idx := [0] + shifted;
      } else {
        idx := shifted;
      }
      forall j | 0 <= j < |xs|
        ensures p(xs[j]) <==> j in idx
      {
        ShiftMembers(rest, j);
        if j > 0 {
          assert xs[j] == tail[j - 1];
        } else {
          assert 0 !in shifted;
        }
      }
    }
  }

  /** When every element satisfies `p`, `Keep` returns the whole sequence. */
  lemma {:induction false} KeepAll<T>(xs: seq<T>, p: T -> bool)
    requires forall i :: 0 <= i < |xs| ==> p(xs[i])
    ensures Keep(xs, p) == xs
    decreases |xs|
  {
    if |xs| > 0 {
      KeepAll(xs[1..], p);
    }
  }

  /** `Keep` comes back empty exactly when no element satisfies `p`. */
  lemma {:induction false} KeepEmptyIff<T>(xs: seq<T>, p: T -> bool)
    ensures Keep(xs, p) == [] <==> forall i :: 0 <= i < |xs| ==> !p(xs[i])
    decreases |xs|
  {
    if |xs| > 0 {
      KeepEmptyIff(xs[1..], p);
      assert forall i :: 1 <= i < |xs| ==> xs[i] == xs[1..][i - 1];
    }
  }

  /** `xs` read back to front. */
  function Reverse<T>(xs: seq<T>): (r: seq<T>)
    ensures |r| == |xs|
    ensures forall i :: 0 <= i < |xs| ==> r[i] == xs[|xs| - 1 - i]
  {
    if |xs| == 0 then [] else Reverse(xs[1..]) + [xs[0]]
  }
}
