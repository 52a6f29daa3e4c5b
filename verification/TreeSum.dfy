/** The arithmetic of the in-place tree reduction: what halving the stride does to
    the slots of a work-group, and when slot 0 ends up with the total. */
module TreeSum {
  import opened WorkGroup

  function Identity(op: BinOp): int {
    match op
    case Add => 0
    case Mul => 1
  }

  function Fold(op: BinOp, xs: seq<int>): int {
    if xs == [] then Identity(op) else Apply(op, Fold(op, xs[..|xs| - 1]), xs[|xs| - 1])
  }

  /** Sums from 0 and products from 1, element by element. */
  lemma FoldSnoc(xs: seq<int>, x: int)
    ensures Fold(Add, []) == 0 && Fold(Mul, []) == 1
    ensures Fold(Add, xs + [x]) == Fold(Add, xs) + x
    ensures Fold(Mul, xs + [x]) == Fold(Mul, xs) * x
  {
    assert (xs + [x])[..|xs|] == xs;
  }

  /** The stride of the k-th barrier phase; phase 0 fills the slots. */
  function Stride(size: nat, k: nat): nat {
    if k == 0 then size else Stride(size, k - 1) / 2
  }

  /** How often the reduction loop runs. */
  function Rounds(size: nat): nat
    requires size > 0
  {
    if size == 1 then 0 else 1 + Rounds(size / 2)
  }

  lemma {:induction false} StrideOfHalf(size: nat, k: nat)
    requires k > 0
    ensures Stride(size, k) == Stride(size / 2, k - 1)
  {
    if k > 1 { StrideOfHalf(size, k - 1); }
  }

  lemma {:induction false} LastStride(size: nat)
    requires size > 0
    ensures Stride(size, Rounds(size)) == 1
  {
    if size > 1 {
      LastStride(size / 2);
      StrideOfHalf(size, Rounds(size));
    }
  }

  lemma {:induction false} StrideMonotone(size: nat, k: nat, n: nat)
    requires k <= n
    ensures Stride(size, n) <= Stride(size, k)
    decreases n
  {
    if k < n { StrideMonotone(size, k, n - 1); }
  }

  lemma StridePositive(size: nat, k: nat)
    requires size > 0 && k <= Rounds(size)
    ensures 1 <= Stride(size, k) <= size
  {
    LastStride(size);
    StrideMonotone(size, k, Rounds(size));
    StrideMonotone(size, 0, k);
  }

  /** One barrier phase: slot i < s takes in slot i + s. */
  function Halve(op: BinOp, xs: seq<int>, s: nat): (ys: seq<int>)
    requires 2 * s <= |xs|
    ensures |ys| == |xs|
  {
    seq(|xs|, i requires 0 <= i < |xs| => if i < s then Apply(op, xs[i], xs[i + s]) else xs[i])
  }

  function Slots(op: BinOp, xs: seq<int>, k: nat): (ys: seq<int>)
    ensures |ys| == |xs|
  {
    if k == 0 then xs
    else
      StrideMonotone(|xs|, 0, k - 1);
      Halve(op, Slots(op, xs, k - 1), Stride(|xs|, k))
  }

  lemma SlotsCell(op: BinOp, xs: seq<int>, k: nat, i: nat)
    requires k > 0 && i < |xs|
    ensures 2 * Stride(|xs|, k) <= |xs|
    ensures Slots(op, xs, k)[i] ==
      var ys, s := Slots(op, xs, k - 1), Stride(|xs|, k); if i < s then Apply(op, ys[i], ys[i + s]) else ys[i]
  {
    StrideMonotone(|xs|, 0, k - 1);
  }

  function Result(op: BinOp, xs: seq<int>): int
    requires |xs| > 0
  {
    Slots(op, xs, Rounds(|xs|))[0]
  }

  predicate PowerOfTwo(n: nat)
  {
    n == 1 || (n > 1 && n % 2 == 0 && PowerOfTwo(n / 2))
  }

  function Pow2(k: nat): (p: nat)
    ensures p >= 1
  {
    if k == 0 then 1 else 2 * Pow2(k - 1)
  }

  // ----- folds -----

  lemma ApplyLaws(op: BinOp, x: int, y: int, z: int)
    ensures Apply(op, x, y) == Apply(op, y, x)
    ensures Apply(op, Apply(op, x, y), z) == Apply(op, x, Apply(op, y, z))
    ensures Apply(op, Identity(op), x) == x
  {
    assert (x * y) * z == x * (y * z);
  }

  /** (x + y) + (a + b) == (x + a) + (y + b), for either operation. */
  lemma Exchange(op: BinOp, x: int, y: int, a: int, b: int)
    ensures Apply(op, Apply(op, x, y), Apply(op, a, b)) == Apply(op, Apply(op, x, a), Apply(op, y, b))
  {
    ApplyLaws(op, x, y, Apply(op, a, b));
    ApplyLaws(op, y, a, b);
    ApplyLaws(op, a, y, b);
    ApplyLaws(op, x, a, Apply(op, y, b));
  }

  lemma {:induction false} FoldConcat(op: BinOp, xs: seq<int>, ys: seq<int>)
    ensures Fold(op, xs + ys) == Apply(op, Fold(op, xs), Fold(op, ys))
  {
    if ys == [] {
      assert xs + ys == xs;
      ApplyLaws(op, Identity(op), Fold(op, xs), 0);
    } else {
      var n := |ys| - 1;
      FoldConcat(op, xs, ys[..n]);
      assert (xs + ys)[..|xs| + n] == xs + ys[..n];
      ApplyLaws(op, Fold(op, xs), Fold(op, ys[..n]), ys[n]);
    }
  }

  lemma {:induction false} FoldPairs(op: BinOp, xs: seq<int>, ys: seq<int>, zs: seq<int>)
    requires |xs| == |ys| == |zs|
    requires forall i :: 0 <= i < |xs| ==> zs[i] == Apply(op, xs[i], ys[i])
    ensures Fold(op, zs) == Apply(op, Fold(op, xs), Fold(op, ys))
  {
    if zs == [] {
      ApplyLaws(op, Identity(op), Identity(op), 0);
    } else {
      var n := |zs| - 1;
      FoldPairs(op, xs[..n], ys[..n], zs[..n]);
      Exchange(op, Fold(op, xs[..n]), Fold(op, ys[..n]), xs[n], ys[n]);
    }
  }

  lemma HalveKeepsFold(op: BinOp, xs: seq<int>, s: nat)
    requires 2 * s <= |xs|
    ensures Fold(op, Halve(op, xs, s)[..s]) == Fold(op, xs[..2 * s])
  {
    FoldPairs(op, xs[..s], xs[s..2 * s], Halve(op, xs, s)[..s]);
    FoldConcat(op, xs[..s], xs[s..2 * s]);
    assert xs[..s] + xs[s..2 * s] == xs[..2 * s];
  }

  // ----- when the tree computes the total -----

  lemma {:induction false} StrideHalvesExactly(size: nat, k: nat)
    requires PowerOfTwo(size) && k < Rounds(size)
    ensures Stride(size, k) == 2 * Stride(size, k + 1)
  {
    if k > 0 {
      StrideHalvesExactly(size / 2, k - 1);
      StrideOfHalf(size, k);
      StrideOfHalf(size, k + 1);
    }
  }

  lemma RoundKeepsTotal(op: BinOp, xs: seq<int>, k: nat)
    requires Stride(|xs|, k) == 2 * Stride(|xs|, k + 1) <= |xs|
    ensures Fold(op, Slots(op, xs, k + 1)[..Stride(|xs|, k + 1)]) == Fold(op, Slots(op, xs, k)[..Stride(|xs|, k)])
  {
    HalveKeepsFold(op, Slots(op, xs, k), Stride(|xs|, k + 1));
  }

  /** For a power-of-two group the slots below the current stride always combine to
      the group total. */
  lemma {:induction false} SlotsKeepTotal(op: BinOp, xs: seq<int>, k: nat)
    requires PowerOfTwo(|xs|) && k <= Rounds(|xs|)
    ensures Stride(|xs|, k) <= |xs| && Fold(op, Slots(op, xs, k)[..Stride(|xs|, k)]) == Fold(op, xs)
  {
    StridePositive(|xs|, k);
    if k == 0 {
      assert xs[..|xs|] == xs;
    } else {
      hide PowerOfTwo, Fold, Slots, Stride, Rounds;
      var total := Fold(op, xs);
      assert Fold(op, Slots(op, xs, k - 1)[..Stride(|xs|, k - 1)]) == total by { SlotsKeepTotal(op, xs, k - 1); }
      assert Stride(|xs|, k - 1) == 2 * Stride(|xs|, k) by { StrideHalvesExactly(|xs|, k - 1); }
      assert Stride(|xs|, k - 1) <= |xs| by { StridePositive(|xs|, k - 1); }
      RoundKeepsTotal(op, xs, k - 1);
    }
  }

  lemma TotalForPowersOfTwo(op: BinOp, xs: seq<int>)
    requires PowerOfTwo(|xs|)
    ensures Result(op, xs) == Fold(op, xs)
  {
    var k := Rounds(|xs|);
    SlotsKeepTotal(op, xs, k);
    LastStride(|xs|);
    var ys := Slots(op, xs, k)[..1];
    assert ys[..0] == [];
    ApplyLaws(op, ys[0], Identity(op), 0);
  }

  function Ones(n: nat): seq<int> { seq(n, _ => 1) }

  lemma {:induction false} OnesFold(n: nat)
    ensures Fold(Add, Ones(n)) == n
  {
    if n > 0 {
      assert Ones(n)[..n - 1] == Ones(n - 1);
      OnesFold(n - 1);
    }
  }

  lemma {:induction false} OnesSlots(n: nat, k: nat)
    requires n > 0 && k <= Rounds(n)
    ensures forall i :: 0 <= i < Stride(n, k) <= n ==> Slots(Add, Ones(n), k)[i] == Pow2(k)
  {
    StridePositive(n, k);
    if k > 0 {
      OnesSlots(n, k - 1);
      StridePositive(n, k - 1);
    }
  }

  lemma {:induction false} RoundsPow2(n: nat)
    requires n > 0 && Pow2(Rounds(n)) == n
    ensures PowerOfTwo(n)
  {
    if n > 1 {
      RoundsPow2Bound(n / 2);
      RoundsPow2(n / 2);
    }
  }

  lemma {:induction false} RoundsPow2Bound(n: nat)
    requires n > 0
    ensures Pow2(Rounds(n)) <= n
  {
    if n > 1 { RoundsPow2Bound(n / 2); }
  }

  /** The kernels sum every group exactly when the group size is a power of two. */
  lemma TreeSumsIffPowerOfTwo(size: nat)
    requires size > 0
    ensures PowerOfTwo(size) <==> (forall xs: seq<int> :: |xs| == size ==> Result(Add, xs) == Fold(Add, xs))
  {
    if PowerOfTwo(size) {
      forall xs: seq<int> | |xs| == size ensures Result(Add, xs) == Fold(Add, xs) {
        TotalForPowersOfTwo(Add, xs);
      }
    } else if forall xs: seq<int> :: |xs| == size ==> Result(Add, xs) == Fold(Add, xs) {
      OnesSlots(size, Rounds(size));
      LastStride(size);
      OnesFold(size);
      assert |Ones(size)| == size;
      RoundsPow2(size);
      assert false;
    }
  }
}
