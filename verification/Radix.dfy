/** Quotients, remainders and mixed-radix numbers: the arithmetic behind linear
    indices, strides and group decompositions.  A shape is a list of radices, an
    index tuple within it a list of digits, and its row-major position the number
    they spell; ranking and unranking are inverse to each other, so positions
    number the tuples without gaps. */
module Radix {

  lemma ProductMonotone(q: nat, a: nat, b: nat)
    requires a <= b
    ensures q * a <= q * b
  {
    assert q * b - q * a == q * (b - a);
  }

  lemma NonzeroMultiple(k: int, d: nat)
    requires k != 0
    ensures k * d >= d || k * d <= 0 - d
  {
    if k >= 1 {
      ProductMonotone(d, 1, k);
    } else {
      ProductMonotone(d, 1, 0 - k);
      assert (0 - k) * d == 0 - k * d;
    }
  }

  lemma DivModUnique(q: nat, r: nat, d: nat)
    requires r < d
    ensures (q * d + r) / d == q && (q * d + r) % d == r
  {
    var x := q * d + r;
    var a := x / d;
    assert x == a * d + x % d;
    assert (a - q) * d == r - x % d;
    if a != q { NonzeroMultiple(a - q, d); }
  }

  lemma CellInGrid(i: nat, j: nat, rows: nat, cols: nat)
    requires i < rows && j < cols
    ensures i * cols + j < rows * cols
  {
    ProductMonotone(cols, i + 1, rows);
    assert cols * (i + 1) == i * cols + cols && cols * rows == rows * cols;
  }

  lemma RowInGrid(g: nat, rows: nat, cols: nat)
    requires g < rows * cols
    ensures cols > 0 && g / cols < rows
  {
    var q := g / cols;
    assert g == q * cols + g % cols;
    if q >= rows { ProductMonotone(cols, rows, q); }
  }

  lemma DigitBounds(n: nat, rows: nat, cols: nat)
    requires n < rows * cols
    ensures cols > 0 && 0 <= n / cols < rows && 0 <= n % cols < cols
  {
    RowInGrid(n, rows, cols);
  }

  lemma SamePlace(g: nat, h: nat, d: nat)
    requires d > 0 && g / d == h / d && g % d == h % d
    ensures g == h
  {
    assert g == g / d * d + g % d;
    assert h == h / d * d + h % d;
  }

  // ----- mixed-radix numbers -----

  function Product(shape: seq<int>): (p: int)
    ensures (forall k :: 0 <= k < |shape| ==> shape[k] >= 0) ==> p >= 0
  {
    if shape == [] then 1 else shape[0] * Product(shape[1..])
  }

  /** An index tuple within the extents. */
  predicate InShape(idx: seq<nat>, shape: seq<nat>) {
    |idx| == |shape| && forall k :: 0 <= k < |idx| ==> idx[k] < shape[k]
  }

  /** The position of a tuple when the last index varies fastest. */
  function RowMajor(idx: seq<nat>, shape: seq<nat>): nat
    requires |idx| == |shape|
  {
    if idx == [] then 0 else idx[0] * Product(shape[1..]) + RowMajor(idx[1..], shape[1..])
  }

  /** The tuple at a row-major position. */
  function Unrank(n: nat, shape: seq<nat>): (idx: seq<nat>)
    requires n < Product(shape)
    ensures |idx| == |shape|
  {
    if shape == [] then []
    else
      var p := Product(shape[1..]);
      DigitBounds(n, shape[0], p);
      [n / p] + Unrank(n % p, shape[1..])
  }

  lemma {:induction false} RowMajorUnrank(idx: seq<nat>, shape: seq<nat>)
    requires InShape(idx, shape)
    ensures RowMajor(idx, shape) < Product(shape)
    ensures Unrank(RowMajor(idx, shape), shape) == idx
  {
    if idx != [] {
      var p := Product(shape[1..]);
      RowMajorUnrank(idx[1..], shape[1..]);
      var r := RowMajor(idx[1..], shape[1..]);
      CellInGrid(idx[0], r, shape[0], p);
      DivModUnique(idx[0], r, p);
      assert [idx[0]] + idx[1..] == idx;
    }
  }

  lemma {:induction false} UnrankRowMajor(n: nat, shape: seq<nat>)
    requires n < Product(shape)
    ensures InShape(Unrank(n, shape), shape)
    ensures RowMajor(Unrank(n, shape), shape) == n
  {
    if shape != [] {
      var p := Product(shape[1..]);
      var q, r := Decompose(n, shape[0], p);
      UnrankRowMajor(r, shape[1..]);
      assert Unrank(n, shape) == [q] + Unrank(r, shape[1..]);
      RowMajorCons(q, Unrank(r, shape[1..]), shape);
    }
  }

  lemma Decompose(n: nat, rows: nat, cols: nat) returns (q: nat, r: nat)
    requires n < rows * cols
    ensures cols > 0 && q == n / cols && r == n % cols
    ensures q < rows && r < cols && q * cols + r == n
  {
    RowInGrid(n, rows, cols);
    q, r := n / cols, n % cols;
  }

  lemma RowMajorCons(q: nat, idx: seq<nat>, shape: seq<nat>)
    requires |shape| == |idx| + 1
    ensures RowMajor([q] + idx, shape) == q * Product(shape[1..]) + RowMajor(idx, shape[1..])
  {
    assert ([q] + idx)[1..] == idx;
  }

  /** Positions are a bijection between the tuples of a shape and 0 .. its size. */
  lemma RowMajorInjective(idx: seq<nat>, jdx: seq<nat>, shape: seq<nat>)
    requires InShape(idx, shape) && InShape(jdx, shape) && RowMajor(idx, shape) == RowMajor(jdx, shape)
    ensures idx == jdx
  {
    RowMajorUnrank(idx, shape);
    RowMajorUnrank(jdx, shape);
  }

  lemma {:induction false} ProductConcat(a: seq<int>, b: seq<int>)
    ensures Product(a + b) == Product(a) * Product(b)
  {
    if a == [] {
      assert a + b == b;
    } else {
      ProductConcat(a[1..], b);
      assert (a + b)[1..] == a[1..] + b;
      var x, y, z := a[0], Product(a[1..]), Product(b);
      assert x * (y * z) == (x * y) * z;
    }
  }
}
