/** The 8x8 integer matrices the engine uses as travel maps (general.cpp):
    `EmptyMatrix8x8`, `NormalizeMatrix8x8`, and the cellwise `+` of the
    matrix template. */
module Matrices {

  /** An 8x8 matrix of `int`, stored row-major as 64 cells. */
  type Matrix = m: seq<int> | |m| == 64 witness seq(64, _ => 0)

  /** Every cell is 0 or 1: a set of squares. */
  predicate IsBinary(m: Matrix)
  {
    forall i :: 0 <= i < 64 ==> m[i] == 0 || m[i] == 1
  }

  /** No cell is negative. */
  predicate NonNegative(m: Matrix)
  {
    forall i :: 0 <= i < 64 ==> m[i] >= 0
  }

  /** `EmptyMatrix8x8`. */
  function Empty(): (r: Matrix)
    ensures forall i :: 0 <= i < 64 ==> r[i] == 0
  {
    seq(64, _ => 0)
  }

  /** `NormalizeMatrix8x8`: positive cells become 1, all others 0. */
  function Normalize(m: Matrix): (r: Matrix)
    ensures IsBinary(r)
    ensures forall i :: 0 <= i < 64 ==> (r[i] == 1 <==> m[i] > 0)
  {
    seq(64, i requires 0 <= i < 64 => if m[i] > 0 then 1 else 0)
  }

  /** Cellwise sum of two matrices. */
  function Add(a: Matrix, b: Matrix): Matrix
  {
    seq(64, i requires 0 <= i < 64 => a[i] + b[i])
  }

  /** Cellwise difference (the king's subtraction of attacked squares). */
  function Subtract(a: Matrix, b: Matrix): Matrix
  {
    seq(64, i requires 0 <= i < 64 => a[i] - b[i])
  }

  /** Whether some cell is positive. */
  predicate AnyPositive(m: Matrix)
  {
    exists i :: 0 <= i < 64 && m[i] > 0
  }

  /** A binary matrix is left alone by normalisation, so normalising twice
      is the same as normalising once. */
  lemma NormalizeIdempotent(m: Matrix)
    ensures IsBinary(m) ==> Normalize(m) == m
    ensures Normalize(Normalize(m)) == Normalize(m)
  {
    if IsBinary(m) {
      assert forall i :: 0 <= i < 64 ==> Normalize(m)[i] == m[i];
    }
    assert forall i :: 0 <= i < 64 ==> Normalize(Normalize(m))[i] == Normalize(m)[i];
  }

  /** Normalising the sum of two non-negative maps is their union: this is
      how per-vector and per-piece travel maps are combined. */
  lemma NormalizedSumIsUnion(a: Matrix, b: Matrix)
    requires NonNegative(a) && NonNegative(b)
    ensures NonNegative(Add(a, b))
    ensures forall i :: 0 <= i < 64 ==> (Normalize(Add(a, b))[i] == 1 <==> a[i] > 0 || b[i] > 0)
  {
  }

  /** Sums of non-negative maps stay non-negative and keep every positive
      cell of either summand. */
  lemma AddMonotone(a: Matrix, b: Matrix)
    requires NonNegative(a) && NonNegative(b)
    ensures NonNegative(Add(a, b))
    ensures forall i :: 0 <= i < 64 ==> (Add(a, b)[i] > 0 <==> a[i] > 0 || b[i] > 0)
  {
  }

  /** A sum of non-negative maps has a positive cell exactly when one of
      the summands has. */
  lemma AnyPositiveAdd(a: Matrix, b: Matrix)
    requires NonNegative(a) && NonNegative(b)
    ensures AnyPositive(Add(a, b)) <==> AnyPositive(a) || AnyPositive(b)
  {
    AddMonotone(a, b);
    if AnyPositive(a) {
      var i :| 0 <= i < 64 && a[i] > 0;
      assert Add(a, b)[i] > 0;
    }
    if AnyPositive(b) {
      var i :| 0 <= i < 64 && b[i] > 0;
      assert Add(a, b)[i] > 0;
    }
  }
}
