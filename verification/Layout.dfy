/** The memory layout of arrays in 64-bit arithmetic: the size and the strides
    of a newly allocated array, the strides of an array taken over from Python,
    and the way back.  Sizes and strides are products that may wrap; the lemmas say
    for which shapes they are exact, and that then every index tuple has a slot of
    its own. */
module Layout {
  import opened Options
  import opened Radix
  import TreeSum

  const MODULUS := 0x1_0000_0000_0000_0000
  const MAX_INTP := 0x7FFF_FFFF_FFFF_FFFF
  const MIN_INTP := -0x8000_0000_0000_0000

  predicate Fits(x: int) {
    MIN_INTP <= x <= MAX_INTP
  }

  /** The 64-bit two's complement value of an integer. */
  function Wrap(x: int): (r: int)
    ensures Fits(r) && (Fits(x) <==> r == x)
  {
    var m := x % MODULUS;
    if m > MAX_INTP then m - MODULUS else m
  }

  lemma WrapPeriod(x: int, k: int)
    ensures Wrap(x + k * MODULUS) == Wrap(x)
  {
    assert (x + k * MODULUS) % MODULUS == x % MODULUS;
  }

  /** A product may be wrapped as it is accumulated or once at the end. */
  lemma WrapMul(a: int, b: int)
    ensures Wrap(Wrap(a) * b) == Wrap(a * b)
  {
    var k := a / MODULUS + if a % MODULUS > MAX_INTP then 1 else 0;
    assert a == Wrap(a) + k * MODULUS;
    assert a * b == Wrap(a) * b + (k * b) * MODULUS;
    WrapPeriod(Wrap(a) * b, k * b);
  }

  /** The truncated product and the overflow bit of a signed multiplication. */
  datatype Checked = Checked(value: int, overflow: bool)

  function SMulWithOverflow(a: int, b: int): Checked {
    Checked(Wrap(a * b), !Fits(a * b))
  }

  // ----- allocating a new array -----

  datatype Order = RowOrder | ColumnOrder | AnyOrder

  datatype Outcome = Allocated(allocsize: int, strides: seq<int>) | TooBig | UnknownLayout

  /** Byte strides when the last index varies fastest. */
  function RowStrides(shape: seq<int>, itemsize: int): seq<int> {
    seq(|shape|, k requires 0 <= k < |shape| => itemsize * Product(shape[k + 1..]))
  }

  /** Byte strides when the first index varies fastest. */
  function ColumnStrides(shape: seq<int>, itemsize: int): seq<int> {
    seq(|shape|, k requires 0 <= k < |shape| => itemsize * Product(shape[..k]))
  }

  function StridesFor(order: Order, shape: seq<int>, itemsize: int): seq<int> {
    if order == RowOrder then RowStrides(shape, itemsize) else ColumnStrides(shape, itemsize)
  }

  function WrapAll(s: seq<int>): seq<int> {
    seq(|s|, k requires 0 <= k < |s| => Wrap(s[k]))
  }

  ghost predicate PrefixesFit(shape: seq<int>, n: nat)
    requires n <= |shape|
  {
    forall k :: 0 <= k <= n ==> Fits(Product(shape[..k]))
  }

  /** Every partial product of the extents fits, and so does the size in bytes. */
  ghost predicate SizeFits(shape: seq<int>, itemsize: int) {
    PrefixesFit(shape, |shape|) && Fits(Product(shape) * itemsize)
  }

  lemma ProductSnoc(shape: seq<int>, k: nat)
    requires k < |shape|
    ensures Product(shape[..k + 1]) == Product(shape[..k]) * shape[k]
  {
    assert shape[..k + 1] == shape[..k] + [shape[k]];
    ProductConcat(shape[..k], [shape[k]]);
    assert [shape[k]][1..] == [];
    assert Product([shape[k]]) == shape[k] * Product([]);
  }

  /** The size of the array with its sticky overflow flag. */
  method ArrayLength(shape: seq<int>) returns (arrlen: int, overflow: bool)
    ensures overflow <==> !PrefixesFit(shape, |shape|)
    ensures !overflow ==> arrlen == Product(shape)
  {
    arrlen, overflow := 1, false;
    for i := 0 to |shape|
      invariant overflow <==> !PrefixesFit(shape, i)
      invariant !overflow ==> arrlen == Product(shape[..i])
    {
      ProductSnoc(shape, i);
      var m := SMulWithOverflow(arrlen, shape[i]);
      arrlen, overflow := m.value, overflow || m.overflow;
    }
    assert shape[..|shape|] == shape;
  }

  lemma WrapStep(itemsize: int, p: int, d: int)
    ensures Wrap(Wrap(itemsize * p) * d) == Wrap(itemsize * (p * d)) == Wrap(itemsize * (d * p))
  {
    WrapMul(itemsize * p, d);
    assert itemsize * p * d == itemsize * (p * d);
  }

  method RowMajorStrides(shape: seq<int>, itemsize: int) returns (strides: seq<int>)
    requires |shape| > 0 && Fits(itemsize)
    ensures strides == WrapAll(RowStrides(shape, itemsize))
  {
    var n := |shape|;
    strides := [itemsize];
    for k := n downto 1
      invariant |strides| == n - k + 1
      invariant forall j :: 0 <= j < |strides| ==> strides[j] == Wrap(itemsize * Product(shape[n - j..]))
    {
      WrapStep(itemsize, Product(shape[k + 1..]), shape[k]);
      assert shape[k..][1..] == shape[k + 1..];
      strides := strides + [Wrap(strides[|strides| - 1] * shape[k])];
    }
    strides := seq(n, j requires 0 <= j < n => strides[n - 1 - j]);
  }

  method ColumnMajorStrides(shape: seq<int>, itemsize: int) returns (strides: seq<int>)
    requires |shape| > 0 && Fits(itemsize)
    ensures strides == WrapAll(ColumnStrides(shape, itemsize))
  {
    strides := [itemsize];
    for k := 0 to |shape| - 1
      invariant |strides| == k + 1
      invariant forall j :: 0 <= j <= k ==> strides[j] == Wrap(itemsize * Product(shape[..j]))
    {
      WrapStep(itemsize, Product(shape[..k]), shape[k]);
      ProductSnoc(shape, k);
      strides := strides + [Wrap(strides[k] * shape[k])];
    }
  }

  method EmptyNd(order: Order, shape: seq<int>, itemsize: int) returns (r: Outcome)
    requires Fits(itemsize) && forall k :: 0 <= k < |shape| ==> Fits(shape[k])
    ensures r == UnknownLayout <==> shape != [] && order == AnyOrder
    ensures r != UnknownLayout ==> (r == TooBig <==> !SizeFits(shape, itemsize))
    ensures r.Allocated? ==>
              r.allocsize == Product(shape) * itemsize && r.strides == WrapAll(StridesFor(order, shape, itemsize))
  {
    var arrlen, overflow := ArrayLength(shape);
    var strides: seq<int> := [];
    if shape != [] {
      match order
      case RowOrder => strides := RowMajorStrides(shape, itemsize);
      case ColumnOrder => strides := ColumnMajorStrides(shape, itemsize);
      case AnyOrder => return UnknownLayout;
    }
    var m := SMulWithOverflow(arrlen, itemsize);
    overflow := overflow || m.overflow;
    if overflow { return TooBig; }
    return Allocated(m.value, strides);
  }

  // ----- when the size is refused -----

  ghost predicate Positive(shape: seq<int>) {
    forall k :: 0 <= k < |shape| ==> shape[k] >= 1
  }

  lemma {:induction false} ProductPositive(shape: seq<int>)
    requires Positive(shape)
    ensures Product(shape) >= 1
  {
    if shape != [] {
      ProductPositive(shape[1..]);
      ProductMonotone(shape[0], 1, Product(shape[1..]));
    }
  }

  lemma SplitProduct(shape: seq<int>, k: nat)
    requires k <= |shape|
    ensures Product(shape) == Product(shape[..k]) * Product(shape[k..])
  {
    assert shape == shape[..k] + shape[k..];
    ProductConcat(shape[..k], shape[k..]);
  }

  /** Of positive extents, no part has a larger product than the whole. */
  lemma PartsAreSmaller(shape: seq<int>, k: nat)
    requires Positive(shape) && k <= |shape|
    ensures 1 <= Product(shape[..k]) <= Product(shape) && 1 <= Product(shape[k..]) <= Product(shape)
  {
    hide Product;
    SplitProduct(shape, k);
    ProductPositive(shape[..k]);
    ProductPositive(shape[k..]);
    var a, b := Product(shape[..k]), Product(shape[k..]);
    ProductMonotone(a, 1, b);
    ProductMonotone(b, 1, a);
  }

  /** For positive extents the error is raised exactly when the number of bytes
      is too large. */
  lemma PositiveSizeFits(shape: seq<int>, itemsize: int)
    requires Positive(shape) && itemsize >= 1
    ensures SizeFits(shape, itemsize) <==> Product(shape) * itemsize <= MAX_INTP
  {
    ProductPositive(shape);
    ProductMonotone(Product(shape), 1, itemsize);
    forall k | 0 <= k <= |shape|
      ensures 1 <= Product(shape[..k]) <= Product(shape)
    {
      PartsAreSmaller(shape, k);
    }
  }

  /** The number of extents before the first zero one. */
  function BeforeZero(shape: seq<int>): (z: nat)
    ensures z <= |shape| && (z < |shape| ==> shape[z] == 0)
    ensures forall k :: 0 <= k < z ==> shape[k] != 0
  {
    if shape == [] || shape[0] == 0 then 0 else 1 + BeforeZero(shape[1..])
  }

  /** In general only the extents before the first zero one count: an empty
      array is refused when they alone are too many. */
  lemma SizeFitsExactly(shape: seq<nat>, itemsize: int)
    requires itemsize >= 1
    ensures var z := BeforeZero(shape);
            SizeFits(shape, itemsize) <==>
            Product(shape[..z]) * (if z == |shape| then itemsize else 1) <= MAX_INTP
  {
    var z := BeforeZero(shape);
    if z == |shape| {
      assert shape[..z] == shape;
      PositiveSizeFits(shape, itemsize);
    } else {
      PositiveSizeFits(shape[..z], 1);
      ZeroStopsOverflow(shape, z, itemsize);
    }
  }

  lemma ZeroStopsOverflow(shape: seq<nat>, z: nat, itemsize: int)
    requires z < |shape| && shape[z] == 0
    ensures SizeFits(shape, itemsize) <==> PrefixesFit(shape[..z], z)
    ensures PrefixesFit(shape[..z], z) ==> Fits(Product(shape[..z]))
  {
    hide Product;
    var head := shape[..z];
    assert head[..z] == head;
    ZeroAfter(shape, z, |shape|);
    assert shape[..|shape|] == shape;
    forall k | 0 <= k <= |shape|
      ensures k <= z ==> shape[..k] == head[..k]
      ensures k > z ==> Product(shape[..k]) == 0
    {
      if k > z { ZeroAfter(shape, z, k); }
    }
    if PrefixesFit(head, z) {
      forall k | 0 <= k <= |shape| ensures Fits(Product(shape[..k])) {
        if k <= z { assert Fits(Product(head[..k])); }
      }
    }
    if PrefixesFit(shape, |shape|) {
      forall k | 0 <= k <= z ensures Fits(Product(head[..k])) {
        assert Fits(Product(shape[..k]));
      }
    }
  }

  lemma ZeroAfter(shape: seq<nat>, z: nat, k: nat)
    requires z < k <= |shape| && shape[z] == 0
    ensures Product(shape[..k]) == 0
  {
    SplitProduct(shape[..k], z + 1);
    assert shape[..k][..z + 1] == shape[..z + 1];
    ProductSnoc(shape, z);
    assert Product(shape[..z + 1]) == 0;
  }

  /** An array without elements that is refused as too big, and the same
      extents in another order that are not. */
  lemma EmptyArrayTooBig()
    ensures var wide := 0x1_0000_0000;
            Product([wide, wide, 0]) == 0
            && !SizeFits([wide, wide, 0], 8) && SizeFits([0, wide, wide], 8)
  {
    var wide := 0x1_0000_0000;
    var s: seq<nat>, t: seq<nat> := [wide, wide, 0], [0, wide, wide];
    SizeFitsExactly(s, 8);
    SizeFitsExactly(t, 8);
    ZeroAfter(s, 2, 3);
    assert s[..3] == s;
    assert BeforeZero(s[2..]) == 0;
    assert s[1..][1..] == s[2..];
    assert BeforeZero(s) == 2;
    ProductSnoc(s, 0);
    ProductSnoc(s, 1);
    assert s[..0] == [];
    assert Product(s[..2]) == wide * wide;
  }

  // ----- what the strides address -----

  /** The byte offset of an element. */
  function Offset(idx: seq<nat>, strides: seq<int>): int
    requires |idx| == |strides|
  {
    if idx == [] then 0 else idx[0] * strides[0] + Offset(idx[1..], strides[1..])
  }

  /** The position of a tuple when the first index varies fastest. */
  function ColumnMajor(idx: seq<nat>, shape: seq<nat>): nat
    requires |idx| == |shape|
  {
    if idx == [] then 0 else idx[0] + shape[0] * ColumnMajor(idx[1..], shape[1..])
  }

  function Position(order: Order, idx: seq<nat>, shape: seq<nat>): nat
    requires |idx| == |shape|
  {
    if order == RowOrder then RowMajor(idx, shape) else ColumnMajor(idx, shape)
  }

  lemma {:induction false} RowOffset(idx: seq<nat>, shape: seq<nat>, itemsize: nat)
    requires |idx| == |shape|
    ensures Offset(idx, RowStrides(shape, itemsize)) == itemsize * RowMajor(idx, shape)
  {
    if idx != [] {
      var p, m := Product(shape[1..]), RowMajor(idx[1..], shape[1..]);
      RowOffset(idx[1..], shape[1..], itemsize);
      RowStridesCons(shape, itemsize);
      ScaledSum(itemsize, idx[0], p, m);
    }
  }

  lemma ScaledSum(itemsize: nat, i: nat, p: nat, m: nat)
    ensures itemsize * (i * p + m) == i * (itemsize * p) + itemsize * m
  {
    assert itemsize * (i * p) == i * (itemsize * p);
  }

  lemma RowStridesCons(shape: seq<nat>, itemsize: nat)
    requires shape != []
    ensures RowStrides(shape, itemsize) == [itemsize * Product(shape[1..])] + RowStrides(shape[1..], itemsize)
  {
    hide Product;
    forall k | 1 <= k < |shape| ensures shape[k + 1..] == shape[1..][k..] {}
  }

  lemma {:induction false} ColumnOffset(idx: seq<nat>, shape: seq<nat>, itemsize: nat)
    requires |idx| == |shape|
    ensures Offset(idx, ColumnStrides(shape, itemsize)) == itemsize * ColumnMajor(idx, shape)
  {
    if idx != [] {
      var scale := itemsize * shape[0];
      var m := ColumnMajor(idx[1..], shape[1..]);
      ColumnOffset(idx[1..], shape[1..], scale);
      ColumnStridesCons(shape, itemsize);
      assert itemsize * (idx[0] + shape[0] * m) == idx[0] * itemsize + scale * m;
    }
  }

  lemma ColumnStridesCons(shape: seq<nat>, itemsize: nat)
    requires shape != []
    ensures ColumnStrides(shape, itemsize) == [itemsize] + ColumnStrides(shape[1..], itemsize * shape[0])
  {
    assert shape[..0] == [];
    var scale := itemsize * shape[0];
    forall k | 1 <= k < |shape|
      ensures itemsize * Product(shape[..k]) == scale * Product(shape[1..][..k - 1])
    {
      assert shape[..k][1..] == shape[1..][..k - 1];
      var p := Product(shape[1..][..k - 1]);
      assert itemsize * (shape[0] * p) == scale * p;
    }
  }

  lemma {:induction false} ColumnMajorInRange(idx: seq<nat>, shape: seq<nat>)
    requires InShape(idx, shape)
    ensures ColumnMajor(idx, shape) < Product(shape)
  {
    if idx != [] {
      var m, p := ColumnMajor(idx[1..], shape[1..]), Product(shape[1..]);
      ColumnMajorInRange(idx[1..], shape[1..]);
      CellInGrid(m, idx[0], p, shape[0]);
      assert m * shape[0] == shape[0] * m && p * shape[0] == shape[0] * p;
    }
  }

  lemma {:induction false} ColumnMajorInjective(idx: seq<nat>, jdx: seq<nat>, shape: seq<nat>)
    requires InShape(idx, shape) && InShape(jdx, shape)
    requires ColumnMajor(idx, shape) == ColumnMajor(jdx, shape)
    ensures idx == jdx
  {
    if idx != [] {
      var m, n := ColumnMajor(idx[1..], shape[1..]), ColumnMajor(jdx[1..], shape[1..]);
      assert m * shape[0] == shape[0] * m && n * shape[0] == shape[0] * n;
      DivModUnique(m, idx[0], shape[0]);
      DivModUnique(n, jdx[0], shape[0]);
      ColumnMajorInjective(idx[1..], jdx[1..], shape[1..]);
      assert idx == [idx[0]] + idx[1..] && jdx == [jdx[0]] + jdx[1..];
    }
  }

  lemma StrideFits(order: Order, shape: seq<nat>, itemsize: nat, k: nat)
    requires Positive(shape) && itemsize >= 1 && Product(shape) * itemsize <= MAX_INTP && k < |shape|
    ensures Fits(StridesFor(order, shape, itemsize)[k])
  {
    hide Product;
    PartsAreSmaller(shape, k);
    PartsAreSmaller(shape, k + 1);
    ScaledFits(Product(shape[k + 1..]), Product(shape), itemsize);
    ScaledFits(Product(shape[..k]), Product(shape), itemsize);
  }

  lemma ScaledFits(part: nat, total: nat, itemsize: nat)
    requires part <= total && total * itemsize <= MAX_INTP
    ensures Fits(itemsize * part)
  {
    ProductMonotone(itemsize, part, total);
    ProductMonotone(itemsize, 0, part);
  }

  /** The number of extents up to and including the last zero one. */
  function PastZero(shape: seq<int>): (z: nat)
    ensures z <= |shape| && (z > 0 ==> shape[z - 1] == 0)
    ensures forall k :: z <= k < |shape| ==> shape[k] != 0
  {
    if shape == [] then 0
    else
      var z := PastZero(shape[1..]);
      if z > 0 then z + 1 else if shape[0] == 0 then 1 else 0
  }

  /** The extents whose product is the largest stride: those before the first zero
      one for column order, those behind the last zero one for row order. */
  function Effective(order: Order, shape: seq<int>): seq<int> {
    if order == RowOrder then shape[PastZero(shape)..] else shape[..BeforeZero(shape)]
  }

  lemma ZeroBehind(shape: seq<nat>, z: nat, k: nat)
    requires k <= z < |shape| && shape[z] == 0
    ensures Product(shape[k..]) == 0
  {
    SplitProduct(shape[k..], z - k);
    assert shape[k..][z - k..][0] == 0;
    assert Product(shape[k..][z - k..]) == 0 * Product(shape[k..][z - k..][1..]);
  }

  /** Every stride is zero or a product of some of the effective extents. */
  lemma StrideBounded(order: Order, shape: seq<nat>, itemsize: nat, k: nat)
    requires k < |shape|
    ensures 0 <= StridesFor(order, shape, itemsize)[k] <= itemsize * Product(Effective(order, shape))
  {
    hide Product, BeforeZero, PastZero;
    var effective := Effective(order, shape);
    if order == RowOrder {
      var z := PastZero(shape);
      if k + 1 >= z {
        PartsAreSmaller(effective, k + 1 - z);
        assert effective[k + 1 - z..] == shape[k + 1..];
        ScaledMonotone(itemsize, Product(shape[k + 1..]), Product(effective));
      } else {
        ZeroBehind(shape, z - 1, k + 1);
        PartsAreSmaller(effective, 0);
        ScaledMonotone(itemsize, 0, Product(effective));
      }
    } else {
      var z := BeforeZero(shape);
      PartsAreSmaller(effective, if k <= z then k else 0);
      if k <= z {
        assert effective[..k] == shape[..k];
        ScaledMonotone(itemsize, Product(shape[..k]), Product(effective));
      } else {
        ZeroAfter(shape, z, k);
        ScaledMonotone(itemsize, 0, Product(effective));
      }
    }
  }

  lemma ScaledMonotone(itemsize: nat, a: nat, b: nat)
    requires a <= b
    ensures 0 <= itemsize * a <= itemsize * b
  {
    ProductMonotone(itemsize, a, b);
    ProductMonotone(itemsize, 0, a);
  }

  /** With a zero extent the product of the effective ones is itself a stride. */
  lemma LargestStride(order: Order, shape: seq<nat>, itemsize: nat) returns (k: nat)
    requires BeforeZero(shape) < |shape|
    ensures k < |shape| && StridesFor(order, shape, itemsize)[k] == itemsize * Product(Effective(order, shape))
  {
    hide Product;
    k := if order == RowOrder then PastZero(shape) - 1 else BeforeZero(shape);
    assert order == RowOrder ==> PastZero(shape) > 0 by {
      assert shape[BeforeZero(shape)] == 0;
    }
  }

  /** No stride of an accepted array wraps exactly if it has no zero extent or its
      largest stride fits. */
  lemma StridesFitExactly(order: Order, shape: seq<nat>, itemsize: nat)
    requires itemsize >= 1 && SizeFits(shape, itemsize)
    ensures WrapAll(StridesFor(order, shape, itemsize)) == StridesFor(order, shape, itemsize)
            <==> BeforeZero(shape) == |shape| || itemsize * Product(Effective(order, shape)) <= MAX_INTP
  {
    hide Product, PrefixesFit, BeforeZero, Effective;
    var strides := StridesFor(order, shape, itemsize);
    var largest := itemsize * Product(Effective(order, shape));
    if BeforeZero(shape) == |shape| {
      PositiveSizeFits(shape, itemsize);
      forall k | 0 <= k < |shape| ensures Wrap(strides[k]) == strides[k] { StrideFits(order, shape, itemsize, k); }
    } else if largest <= MAX_INTP {
      forall k | 0 <= k < |shape| ensures Wrap(strides[k]) == strides[k] { StrideBounded(order, shape, itemsize, k); }
    } else {
      var k := LargestStride(order, shape, itemsize);
      assert WrapAll(strides)[k] != strides[k];
    }
  }

  lemma StridesDoNotWrap(order: Order, shape: seq<nat>, itemsize: nat)
    requires Positive(shape) && itemsize >= 1 && SizeFits(shape, itemsize)
    ensures WrapAll(StridesFor(order, shape, itemsize)) == StridesFor(order, shape, itemsize)
  {
    hide Product, PrefixesFit, WrapAll, StridesFor;
    StridesFitExactly(order, shape, itemsize);
  }

  lemma PositionInRange(order: Order, idx: seq<nat>, shape: seq<nat>)
    requires InShape(idx, shape)
    ensures Positive(shape) && Position(order, idx, shape) < Product(shape)
  {
    forall k | 0 <= k < |shape| ensures shape[k] >= 1 { assert idx[k] < shape[k]; }
    RowMajorUnrank(idx, shape);
    ColumnMajorInRange(idx, shape);
  }

  lemma PositionInjective(order: Order, idx: seq<nat>, jdx: seq<nat>, shape: seq<nat>)
    requires InShape(idx, shape) && InShape(jdx, shape)
    requires Position(order, idx, shape) == Position(order, jdx, shape)
    ensures idx == jdx
  {
    if order == RowOrder {
      RowMajorInjective(idx, jdx, shape);
    } else {
      ColumnMajorInjective(idx, jdx, shape);
    }
  }

  lemma SlotInRange(position: nat, size: nat, itemsize: nat)
    requires position < size
    ensures 0 <= itemsize * position <= size * itemsize - itemsize
  {
    ProductMonotone(itemsize, 0, position);
    ProductMonotone(itemsize, position + 1, size);
  }

  /** In an array that was allocated, every element has its own slot of
      `itemsize` bytes inside the allocation. */
  lemma AllocatedSlots(order: Order, shape: seq<nat>, itemsize: nat, idx: seq<nat>)
    requires itemsize >= 1 && SizeFits(shape, itemsize) && InShape(idx, shape)
    ensures var strides := WrapAll(StridesFor(order, shape, itemsize));
            0 <= Offset(idx, strides) <= Product(shape) * itemsize - itemsize
            && Offset(idx, strides) == itemsize * Position(order, idx, shape)
  {
    hide Product, RowMajor, ColumnMajor, Offset, PrefixesFit, WrapAll;
    PositionInRange(order, idx, shape);
    StridesDoNotWrap(order, shape, itemsize);
    RowOffset(idx, shape, itemsize);
    ColumnOffset(idx, shape, itemsize);
    SlotInRange(Position(order, idx, shape), Product(shape), itemsize);
  }

  lemma SlotsAreDisjoint(order: Order, shape: seq<nat>, itemsize: nat, idx: seq<nat>, jdx: seq<nat>)
    requires itemsize >= 1 && SizeFits(shape, itemsize)
    requires InShape(idx, shape) && InShape(jdx, shape) && idx != jdx
    ensures var strides := WrapAll(StridesFor(order, shape, itemsize));
            Offset(idx, strides) + itemsize <= Offset(jdx, strides)
            || Offset(jdx, strides) + itemsize <= Offset(idx, strides)
  {
    hide Product, Position, Offset, PrefixesFit, WrapAll, StridesFor;
    AllocatedSlots(order, shape, itemsize, idx);
    AllocatedSlots(order, shape, itemsize, jdx);
    var i, j := Position(order, idx, shape), Position(order, jdx, shape);
    if i == j {
      PositionInjective(order, idx, jdx, shape);
    } else if i < j {
      ProductMonotone(itemsize, i + 1, j);
    } else {
      ProductMonotone(itemsize, j + 1, i);
    }
  }

  /** Without elements the strides may have wrapped unnoticed. */
  lemma StridesOfEmptyArrayWrap()
    ensures var shape := [0, 0x4000_0000_0000_0000, 4];
            SizeFits(shape, 8) && WrapAll(RowStrides(shape, 8)) != RowStrides(shape, 8)
            && WrapAll(ColumnStrides(shape, 8)) == ColumnStrides(shape, 8)
  {
    var shape: seq<nat> := [0, 0x4000_0000_0000_0000, 4];
    SizeFitsExactly(shape, 8);
    StridesFitExactly(RowOrder, shape, 8);
    StridesFitExactly(ColumnOrder, shape, 8);
    assert shape[1..] == [0x4000_0000_0000_0000, 4] && shape[1..][1..] == [4] && [4][1..] == [];
    assert PastZero([4]) == 0 && PastZero(shape[1..]) == 0 && PastZero(shape) == 1 && BeforeZero(shape) == 0;
    assert Product([4]) == 4 * Product([]);
    assert Product(shape[1..]) == 0x4000_0000_0000_0000 * Product([4]);
    assert shape[..0] == [];
  }

  // ----- taking over an array from Python, and giving it back -----

  /** The exponent found by shifting the item size down to zero. */
  function Exponent(itemsize: nat): nat {
    if itemsize <= 1 then 0 else 1 + Exponent(itemsize / 2)
  }

  lemma {:induction false} ExponentIsLog(itemsize: nat)
    requires itemsize >= 1
    ensures TreeSum.Pow2(Exponent(itemsize)) <= itemsize < 2 * TreeSum.Pow2(Exponent(itemsize))
    ensures TreeSum.Pow2(Exponent(itemsize)) == itemsize <==> TreeSum.PowerOfTwo(itemsize)
  {
    if itemsize > 1 { ExponentIsLog(itemsize / 2); }
  }

  /** The unit by which element strides are shifted. */
  function Unit(itemsize: nat): nat {
    TreeSum.Pow2(Exponent(itemsize))
  }

  function Scaled(strides: seq<int>, unit: int): seq<int> {
    seq(|strides|, k requires 0 <= k < |strides| => strides[k] * unit)
  }

  /** The byte strides of an array whose element strides may be missing. */
  function ByteStrides(shape: seq<int>, strides: Option<seq<int>>, itemsize: nat): seq<int> {
    match strides
    case Some(s) => WrapAll(Scaled(s, Unit(itemsize)))
    case None => WrapAll(RowStrides(shape, Unit(itemsize)))
  }

  /** Given element strides become byte strides: `itemsize` times as large, for
      power-of-two items and where the product fits. */
  lemma GivenStrides(shape: seq<int>, s: seq<int>, itemsize: nat)
    requires |s| == |shape| && TreeSum.PowerOfTwo(itemsize)
    ensures var strides := ByteStrides(shape, Some(s), itemsize);
            |strides| == |s| && forall k :: 0 <= k < |s| ==> (strides[k] == itemsize * s[k] <==> Fits(itemsize * s[k]))
  {
    ExponentIsLog(itemsize);
    forall k | 0 <= k < |s| ensures s[k] * Unit(itemsize) == itemsize * s[k] {}
  }

  /** So they address the same elements, in bytes. */
  lemma GivenStridesAddress(shape: seq<int>, s: seq<int>, itemsize: nat, idx: seq<nat>)
    requires |idx| == |s| == |shape| && TreeSum.PowerOfTwo(itemsize)
    requires forall k :: 0 <= k < |s| ==> Fits(itemsize * s[k])
    ensures |ByteStrides(shape, Some(s), itemsize)| == |idx|
    ensures Offset(idx, ByteStrides(shape, Some(s), itemsize)) == itemsize * Offset(idx, s)
  {
    hide Offset, ByteStrides;
    GivenStrides(shape, s, itemsize);
    ScaledOffset(idx, s, ByteStrides(shape, Some(s), itemsize), itemsize);
  }

  lemma {:induction false} ScaledOffset(idx: seq<nat>, s: seq<int>, t: seq<int>, itemsize: nat)
    requires |idx| == |s| == |t| && forall k :: 0 <= k < |s| ==> t[k] == itemsize * s[k]
    ensures Offset(idx, t) == itemsize * Offset(idx, s)
  {
    if idx != [] {
      ScaledOffset(idx[1..], s[1..], t[1..], itemsize);
      var i, x, y := idx[0], s[0], Offset(idx[1..], s[1..]);
      assert t[0] == itemsize * x;
      assert i * (itemsize * x) == itemsize * (i * x);
      assert itemsize * (i * x + y) == itemsize * (i * x) + itemsize * y;
    }
  }

  lemma ByteStridesLength(shape: seq<int>, strides: Option<seq<int>>, itemsize: nat)
    requires strides.Some? ==> |strides.value| == |shape|
    ensures |ByteStrides(shape, strides, itemsize)| == |shape|
  {}

  /** `dpctl.tensor.usm_ndarray`, as far as boxing looks at it. */
  class UsmNdArray {
    var data: int
    var shape: seq<int>
    var strides: Option<seq<int>>
    var itemsize: nat

    ghost predicate Valid() reads this {
      strides.Some? ==> |strides.value| == |shape|
    }
  }

  method ShiftCount(itemsize: nat) returns (exp: nat)
    ensures exp == Exponent(itemsize)
  {
    exp := 0;
    var size: nat := itemsize / 2;
    while size != 0
      invariant Exponent(itemsize) == if size == 0 then exp else exp + 1 + Exponent(size)
    {
      exp := exp + 1;
      size := size / 2;
    }
  }

  /** `strides[k] << exp` and `strides[k] >> exp`, on 64-bit values. */
  function ShiftLeft(x: int, exp: nat): int { Wrap(x * TreeSum.Pow2(exp)) }

  function ShiftRight(x: int, exp: nat): int { x / TreeSum.Pow2(exp) }

  /** The product of the extents from `first` on, shifted by `exp`. */
  method DefaultStride(shape: seq<int>, first: nat, exp: nat) returns (stride: int)
    requires first <= |shape|
    ensures stride == Wrap(Product(shape[first..]) * TreeSum.Pow2(exp))
  {
    var p := 1;
    for k := |shape| downto first
      invariant p == Wrap(Product(shape[k..]))
    {
      WrapMul(Product(shape[k + 1..]), shape[k]);
      assert shape[k..][1..] == shape[k + 1..];
      p := Wrap(p * shape[k]);
    }
    WrapMul(Product(shape[first..]), TreeSum.Pow2(exp));
    stride := ShiftLeft(p, exp);
  }

  /** One byte stride of an array with or without element strides. */
  method ByteStride(shape: seq<int>, strides: Option<seq<int>>, itemsize: nat, i: nat) returns (stride: int)
    requires i < |shape| && (strides.Some? ==> |strides.value| == |shape|)
    ensures stride == ByteStrides(shape, strides, itemsize)[i]
  {
    hide Product, Exponent, TreeSum.Pow2, Wrap;
    var exp := ShiftCount(itemsize);
    assert Unit(itemsize) == TreeSum.Pow2(exp);
    if strides.Some? {
      stride := ShiftLeft(strides.value[i], exp);
    } else {
      stride := DefaultStride(shape, i + 1, exp);
    }
  }

  method ProductOfShape(shape: seq<int>) returns (nelems: int)
    ensures nelems == Wrap(Product(shape))
  {
    nelems := 1;
    for i := 0 to |shape|
      invariant nelems == Wrap(Product(shape[..i]))
    {
      WrapMul(Product(shape[..i]), shape[i]);
      ProductSnoc(shape, i);
      nelems := Wrap(nelems * shape[i]);
    }
    assert shape[..|shape|] == shape;
  }

  /** The native array structure; `dims` holds the shape followed by the strides. */
  class UsmArrayStruct {
    var data: int
    var nitems: int
    var itemsize: nat
    var parent: UsmNdArray?
    const ndim: nat
    const dims: array<int>

    ghost predicate Valid() reads this, parent {
      dims.Length == 2 * ndim && (parent != null ==> parent.Valid())
    }

    ghost function Shape(): seq<int>
      reads this, dims
      requires dims.Length == 2 * ndim
    {
      dims[..ndim]
    }

    ghost function Strides(): seq<int>
      reads this, dims
      requires dims.Length == 2 * ndim
    {
      dims[ndim..]
    }

    constructor (ndim: nat)
      ensures Valid() && this.ndim == ndim && parent == null && fresh(dims)
    {
      this.ndim := ndim;
      dims := new int[2 * ndim];
      data, nitems, itemsize, parent := 0, 0, 0, null;
    }

    /** Unboxing: a zero-dimensional array is an error. */
    method FromPython(obj: UsmNdArray) returns (ok: bool)
      requires Valid() && obj.Valid() && |obj.shape| == ndim
      modifies this, dims
      ensures Valid()
      ensures ok <==> ndim != 0
      ensures ok ==> parent == obj && data == obj.data && itemsize == obj.itemsize
      ensures ok ==> nitems == Wrap(Product(obj.shape))
      ensures ok ==> Shape() == obj.shape && Strides() == ByteStrides(obj.shape, obj.strides, obj.itemsize)
      ensures ok && obj.strides.Some? && TreeSum.PowerOfTwo(obj.itemsize) ==>
                forall k :: 0 <= k < ndim && Fits(obj.itemsize * obj.strides.value[k]) ==>
                              Strides()[k] == obj.itemsize * obj.strides.value[k]
    {
      if obj.strides.Some? && TreeSum.PowerOfTwo(obj.itemsize) {
        GivenStrides(obj.shape, obj.strides.value, obj.itemsize);
      }
      hide ByteStrides;
      if ndim == 0 { return false; }
      nitems := ProductOfShape(obj.shape);
      data, itemsize, parent := obj.data, obj.itemsize, obj;
      FillDims(obj.shape, obj.strides);
      return true;
    }

    method FillDims(shape: seq<int>, strides: Option<seq<int>>)
      requires dims.Length == 2 * ndim && |shape| == ndim
      requires strides.Some? ==> |strides.value| == ndim
      modifies dims
      ensures Shape() == shape && Strides() == ByteStrides(shape, strides, itemsize)
    {
      hide ByteStrides;
      for i := 0 to ndim
        invariant forall k :: 0 <= k < i ==> dims[k] == shape[k]
      {
        dims[i] := shape[i];
      }
      ghost var image := ByteStrides(shape, strides, itemsize);
      assert |image| == ndim by { ByteStridesLength(shape, strides, itemsize); }
      for i := 0 to ndim
        invariant forall k :: 0 <= k < ndim ==> dims[k] == shape[k]
        invariant forall k :: 0 <= k < i ==> dims[ndim + k] == image[k]
      {
        var stride := ByteStride(shape, strides, itemsize, i);
        dims[ndim + i] := stride;
      }
    }

    /** Boxing hands out the parent again exactly if the structure still has
        the parent's data, shape and strides. */
    method BoxFromParent() returns (obj: UsmNdArray?)
      requires Valid()
      ensures obj != null ==> obj == parent
      ensures obj != null <==> parent != null && parent.data == data && parent.shape == Shape()
                               && ByteStrides(parent.shape, parent.strides, itemsize) == Strides()
    {
      if parent == null || parent.data != data || |parent.shape| != ndim { return null; }
      var same := MatchesDims(parent.shape, parent.strides);
      return if same then parent else null;
    }

    method MatchesDims(shape: seq<int>, strides: Option<seq<int>>) returns (same: bool)
      requires dims.Length == 2 * ndim && |shape| == ndim
      requires strides.Some? ==> |strides.value| == ndim
      ensures same <==> shape == Shape() && ByteStrides(shape, strides, itemsize) == Strides()
    {
      hide ByteStrides;
      for i := 0 to ndim
        invariant forall k :: 0 <= k < i ==> shape[k] == dims[k]
      {
        if shape[i] != dims[i] {
          assert Shape()[i] != shape[i];
          return false;
        }
      }
      assert shape == Shape();
      ghost var image := ByteStrides(shape, strides, itemsize);
      assert |image| == ndim by { ByteStridesLength(shape, strides, itemsize); }
      for i := 0 to ndim
        invariant forall k :: 0 <= k < i ==> image[k] == dims[ndim + k]
      {
        var expected := ByteStride(shape, strides, itemsize, i);
        if expected != dims[ndim + i] {
          assert Strides()[i] != image[i];
          return false;
        }
      }
      return true;
    }

    /** Boxing without a parent: byte strides become element strides in place. */
    method ToElementStrides()
      requires Valid()
      modifies dims
      ensures Shape() == old(Shape())
      ensures forall k :: 0 <= k < ndim ==> Strides()[k] == old(Strides())[k] / Unit(itemsize)
    {
      var exp := ShiftCount(itemsize);
      for i := ndim to 2 * ndim
        invariant forall k :: 0 <= k < ndim || i <= k < 2 * ndim ==> dims[k] == old(dims[k])
        invariant forall k :: ndim <= k < i ==> dims[k] == old(dims[k]) / TreeSum.Pow2(exp)
      {
        dims[i] := ShiftRight(dims[i], exp);
      }
    }
  }

  /** An array that is not touched in between comes back as the same object. */
  method UnboxThenBox(obj: UsmNdArray) returns (back: UsmNdArray?)
    requires obj.Valid()
    ensures back == if |obj.shape| == 0 then null else obj
  {
    var s := new UsmArrayStruct(|obj.shape|);
    var ok := s.FromPython(obj);
    if ok { back := s.BoxFromParent(); } else { back := null; }
  }

  /** Given element strides come back from the structure exactly where their byte
      strides fit. */
  method UnboxThenToElementStrides(obj: UsmNdArray) returns (s: UsmArrayStruct)
    requires obj.Valid() && |obj.shape| > 0 && obj.strides.Some? && 1 <= obj.itemsize <= MAX_INTP
    ensures s.dims.Length == 2 * s.ndim && s.ndim == |obj.shape| && s.Shape() == obj.shape
    ensures forall k :: 0 <= k < s.ndim ==>
                          (s.Strides()[k] == obj.strides.value[k] <==> Fits(obj.strides.value[k] * Unit(obj.itemsize)))
  {
    s := new UsmArrayStruct(|obj.shape|);
    var _ := s.FromPython(obj);
    s.ToElementStrides();
    forall k | 0 <= k < s.ndim
      ensures s.Strides()[k] == obj.strides.value[k] <==> Fits(obj.strides.value[k] * Unit(obj.itemsize))
    {
      ShiftRoundTrip(obj.strides.value[k], obj.itemsize);
    }
  }

  lemma FarFromItsWrap(x: int)
    requires !Fits(x)
    ensures x - Wrap(x) >= MODULUS || Wrap(x) - x >= MODULUS
  {
    var k := x / MODULUS + if x % MODULUS > MAX_INTP then 1 else 0;
    assert x == Wrap(x) + k * MODULUS;
  }

  /** The shift to bytes and back gives the element stride again exactly if the
      byte stride fits 64 bits. */
  lemma ShiftRoundTrip(stride: int, itemsize: nat)
    requires 1 <= itemsize <= MAX_INTP
    ensures var exp := Exponent(itemsize);
            ShiftRight(ShiftLeft(stride, exp), exp) == stride <==> Fits(stride * Unit(itemsize))
  {
    ExponentIsLog(itemsize);
    var unit := Unit(itemsize);
    if !Fits(stride * unit) { FarFromItsWrap(stride * unit); }
    DivisionRecovers(Wrap(stride * unit), unit, stride);
  }

  lemma DivisionRecovers(w: int, unit: nat, stride: int)
    requires unit > 0
    ensures w / unit == stride <==> stride * unit <= w < stride * unit + unit
  {
    var q := w / unit;
    assert w == q * unit + w % unit;
    assert (q - stride) * unit == q * unit - stride * unit;
    if q != stride { NonzeroMultiple(q - stride, unit); }
  }

  /** The default byte strides put the element at row-major position `n` at byte
      `itemsize * n`, for every position once, if the item size is a power of two. */
  lemma DefaultStridesAddressEveryItem(shape: seq<nat>, itemsize: nat, idx: seq<nat>, n: nat)
    requires TreeSum.PowerOfTwo(itemsize) && SizeFits(shape, itemsize)
    requires InShape(idx, shape) && n < Product(shape)
    ensures var strides := ByteStrides(shape, None, itemsize);
            Offset(idx, strides) == itemsize * RowMajor(idx, shape)
            && (Offset(idx, strides) == itemsize * n <==> idx == Unrank(n, shape))
  {
    hide Product, Offset, RowMajor, PrefixesFit, WrapAll, Unrank;
    ExponentIsLog(itemsize);
    assert Unit(itemsize) == itemsize;
    AllocatedSlots(RowOrder, shape, itemsize, idx);
    RowMajorUnrank(idx, shape);
    UnrankRowMajor(n, shape);
    SameSlot(itemsize, RowMajor(idx, shape), n);
  }

  lemma SameSlot(itemsize: nat, m: nat, n: nat)
    requires itemsize >= 1
    ensures itemsize * m == itemsize * n <==> m == n
  {
    if m < n { ProductMonotone(itemsize, m + 1, n); }
    if n < m { ProductMonotone(itemsize, n + 1, m); }
  }
}
