/**
 Rows of a picture inside a larger buffer: line `r` begins `r` steps of the line size into it, and
 only the first columns of a line are visible.
 */
module Strides {

  /** `n` steps of `size`: their product, without the cost of multiplication in proofs. */
  function Span(n: nat, size: nat): nat { if n == 0 then 0 else Span(n - 1, size) + size }

  lemma {:induction false} SpanIsProduct(n: nat, size: nat)
    ensures Span(n, size) == n * size
  {
    if n > 0 { SpanIsProduct(n - 1, size); }
  }

  lemma {:induction false} SpanAdd(m: nat, n: nat, size: nat)
    ensures Span(m + n, size) == Span(m, size) + Span(n, size)
    decreases n
  {
    if n > 0 { SpanAdd(m, n - 1, size); }
  }

  lemma {:induction false} SpanUnique(a: nat, i: nat, b: nat, j: nat, size: nat)
    requires i < size && j < size && Span(a, size) + i == Span(b, size) + j
    ensures a == b && i == j
    decreases a + b
  {
    if a > 0 && b > 0 { SpanUnique(a - 1, i, b - 1, j, size); }
  }

  lemma {:induction false} SpanMonotone(m: nat, n: nat, size: nat)
    requires m <= n
    ensures Span(m, size) <= Span(n, size)
  {
    SpanAdd(m, n - m, size);
  }

  /** Index `i` of a plane is one of the visible samples of line `r`. */
  predicate InLine(i: int, r: nat, width: nat, lineSize: nat)
  {
    Span(r, lineSize) <= i < Span(r, lineSize) + width
  }

  /** Index `i` is visible in one of the first `n` lines. */
  ghost predicate Visible(i: int, n: nat, width: nat, lineSize: nat)
  {
    exists r: nat :: r < n && InLine(i, r, width, lineSize)
  }

  /** The first `n` lines stand in a plane, and nothing but their visible samples has changed. */
  ghost predicate Shows(value: (nat, nat) -> int, n: nat, width: nat, now: seq<int>, was: seq<int>, lineSize: nat)
  {
    && |now| == |was|
    && (forall r: nat, i {:trigger InLine(i, r, width, lineSize)} :: r < n && InLine(i, r, width, lineSize) && i < |now| ==>
      now[i] == value(r, i - Span(r, lineSize)))
    && (forall i :: 0 <= i < |now| && !Visible(i, n, width, lineSize) ==> now[i] == was[i])
  }

  /** `now` is `mid` with line `n` as `value` has it. */
  ghost predicate RowShown(value: (nat, nat) -> int, n: nat, width: nat, now: seq<int>, mid: seq<int>, lineSize: nat)
  {
    && |now| == |mid|
    && forall i :: 0 <= i < |now| ==>
      now[i] == if InLine(i, n, width, lineSize) then value(n, i - Span(n, lineSize)) else mid[i]
  }

  lemma LinesAreApart(i: int, r: nat, n: nat, width: nat, lineSize: nat)
    requires r < n && width <= lineSize && InLine(i, r, width, lineSize)
    ensures !InLine(i, n, width, lineSize)
  {
    SpanMonotone(r + 1, n, lineSize);
  }

  lemma OneMoreRow(value: (nat, nat) -> int, n: nat, width: nat, now: seq<int>, mid: seq<int>,
    was: seq<int>, lineSize: nat)
    requires lineSize >= width && Shows(value, n, width, mid, was, lineSize)
    ensures RowShown(value, n, width, now, mid, lineSize) ==> Shows(value, n + 1, width, now, was, lineSize)
  {
    if !RowShown(value, n, width, now, mid, lineSize) { return; }
    forall r: nat, i | r < n + 1 && InLine(i, r, width, lineSize) && i < |now|
      ensures now[i] == value(r, i - Span(r, lineSize))
    {
      if r < n {
        LinesAreApart(i, r, n, width, lineSize);
        assert now[i] == mid[i];
        assert mid[i] == value(r, i - Span(r, lineSize));
      } else {
        assert InLine(i, n, width, lineSize);
        assert r == n;
        assert now[i] == value(n, i - Span(n, lineSize));
      }
    }
    forall i | 0 <= i < |now| && !Visible(i, n + 1, width, lineSize) ensures now[i] == was[i] {
      assert !InLine(i, n, width, lineSize);
      assert !Visible(i, n, width, lineSize);
    }
  }

  /** Nothing at or behind the end of line `n` is visible in the lines before it, ... */
  lemma BehindIsNotVisible(i: int, n: nat, width: nat, lineSize: nat)
    requires width <= lineSize && i >= Span(n, lineSize)
    ensures !Visible(i, n, width, lineSize)
  {
    forall r: nat | r < n ensures !InLine(i, r, width, lineSize) {
      SpanMonotone(r + 1, n, lineSize);
    }
  }

  /** ... and the place right behind a line is visible in none, if lines are apart. */
  lemma BehindIsPadding(r: nat, n: nat, width: nat, lineSize: nat)
    requires width < lineSize
    ensures !Visible(Span(r, lineSize) + width, n, width, lineSize)
  {
    var i := Span(r, lineSize) + width;
    forall k: nat | k < n ensures !InLine(i, k, width, lineSize) {
      if k < r { SpanMonotone(k + 1, r, lineSize); }
      if k > r { SpanMonotone(r + 1, k, lineSize); }
    }
  }

  lemma OneMoreSample(value: (nat, nat) -> int, n: nat, width: nat, now: seq<int>, was: seq<int>, lineSize: nat,
    i: nat, x: int)
    requires Shows(value, n, width, now, was, lineSize) && i < |was| && !Visible(i, n, width, lineSize)
    ensures Shows(value, n, width, now[i := x], was[i := x], lineSize)
  {
    forall r: nat, k | r < n && InLine(k, r, width, lineSize) && k < |now|
      ensures now[i := x][k] == value(r, k - Span(r, lineSize))
    {
      assert Visible(k, n, width, lineSize);
      assert now[k] == value(r, k - Span(r, lineSize));
    }
  }

  lemma ShowsAlike(a: (nat, nat) -> int, b: (nat, nat) -> int, n: nat, width: nat,
    now: seq<int>, was: seq<int>, lineSize: nat)
    requires forall r: nat, j: nat :: r < n && j < width ==> a(r, j) == b(r, j)
    requires Shows(a, n, width, now, was, lineSize)
    ensures Shows(b, n, width, now, was, lineSize)
  {
    forall r: nat, i | r < n && InLine(i, r, width, lineSize) && i < |now|
      ensures now[i] == b(r, i - Span(r, lineSize))
    {
      assert now[i] == a(r, i - Span(r, lineSize));
    }
  }
}
