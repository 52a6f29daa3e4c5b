/** The two hand-written sum reductions: one finishes on the host, the other calls
    itself with its two buffers swapped. */
module SumReduction {
  import opened Radix
  import opened Options
  import opened WorkGroup
  import opened TreeSum
  import opened TreeKernel

  /** The local accessor of both kernels has this many elements. */
  const SLM_SIZE: nat := 64

  function Values(m: Mem, buf: nat, n: nat): (xs: seq<int>)
    ensures |xs| == n
  {
    seq(n, i requires 0 <= i < n => Read(m, Global(buf, i, 0)))
  }

  /** n input values from position from on, zero where the input has ended. */
  function Padded(m: Mem, buf: nat, size: nat, from: nat, n: nat): (xs: seq<int>)
    ensures |xs| == n
  {
    seq(n, i requires 0 <= i < n => if from + i < size then Read(m, Global(buf, from + i, 0)) else 0)
  }

  ghost predicate Allocated(m: Mem, buf: nat, n: nat) { forall i :: 0 <= i < n ==> Global(buf, i, 0) in m }

  // ----- the kernel -----

  /** The kernel that is given the input's size clears its slot and then loads its
      element if it has one; the other one just loads. */
  function Fill(sized: bool, g: nat, l: nat, groupSize: nat, inp: nat, size: nat): Code {
    var gid := g * groupSize + l;
    (if sized then [Const(0, 0), Store(Slot(g, 0, l), 0)] else [])
    + if !sized || gid < size then [Load(0, Global(inp, gid, 0)), Store(Slot(g, 0, l), 0)] else []
  }

  function GroupOf(sized: bool, g: nat, groupSize: nat, inp: nat, size: nat, out: nat): Tree {
    Tree(g, [Add], seq(groupSize, l requires 0 <= l < groupSize => Fill(sized, g, l, groupSize, inp, size)), [out])
  }

  function Groups(sized: bool, n: nat, groupSize: nat, inp: nat, size: nat, out: nat): (trees: seq<Tree>)
    ensures |trees| == n
  {
    seq(n, g requires 0 <= g < n => GroupOf(sized, g, groupSize, inp, size, out))
  }

  ghost function Inputs(inp: nat, size: nat): set<Addr> { set i | 0 <= i < size :: Global(inp, i, 0) }

  lemma FillRun(sized: bool, g: nat, l: nat, groupSize: nat, inp: nat, size: nat, m: Mem)
    requires l < groupSize && (sized || g * groupSize + l < size)
    ensures var c := Fill(sized, g, l, groupSize, inp, size);
      && Read(RunAll(c, View(map[], m)).mem, Slot(g, 0, l)) == Padded(m, inp, size, g * groupSize, groupSize)[l]
      && Slot(g, 0, l) in Foot(c)
      && (forall a :: a in Foot(c) ==> SlotOf(g, 1, l, a) || a in Inputs(inp, size))
      && (forall a :: a in Writes(c) ==> SlotOf(g, 1, l, a))
  {
    var c, w := Fill(sized, g, l, groupSize, inp, size), View(map[], m);
    var gid := g * groupSize + l;
    assert Run(c, 0, w) == w;
    assert Run(c, 1, w) == Exec(c[0], w);
    assert Run(c, 2, w) == Exec(c[1], Run(c, 1, w));
    assert c[1].Store? && c[1].addr == Slot(g, 0, l);
    if sized && gid < size {
      assert Run(c, 3, w) == Exec(c[2], Run(c, 2, w));
      assert Run(c, 4, w) == Exec(c[3], Run(c, 3, w));
      assert Read(Run(c, 2, w).mem, Global(inp, gid, 0)) == Read(m, Global(inp, gid, 0));
    } else if sized {
      assert Reg(Run(c, 1, w).regs, 0) == 0;
    }
  }

  lemma GroupIsOk(sized: bool, g: nat, groupSize: nat, inp: nat, size: nat, out: nat, m: Mem)
    requires groupSize > 0 && inp != out && (sized || g * groupSize + groupSize <= size)
    ensures var t := GroupOf(sized, g, groupSize, inp, size, out);
      && t.Ok() && FillOk(t, Inputs(inp, size))
      && Fills(t, m, [Padded(m, inp, size, g * groupSize, groupSize)])
  {
    var t := GroupOf(sized, g, groupSize, inp, size, out);
    forall l | 0 <= l < groupSize
      ensures forall a :: a in Foot(t.fill[l]) ==> SlotOf(g, 1, l, a) || a in Inputs(inp, size)
      ensures forall a :: a in Writes(t.fill[l]) ==> SlotOf(g, 1, l, a)
      ensures SlotFilled(t, m, 0, l, Padded(m, inp, size, g * groupSize, groupSize)[l])
    {
      FillRun(sized, g, l, groupSize, inp, size, m);
    }
  }

  lemma GroupsAreUniform(sized: bool, n: nat, groupSize: nat, inp: nat, size: nat, out: nat, m: Mem)
    requires groupSize > 0 && inp != out && (sized || n * groupSize <= size)
    ensures Uniform(Groups(sized, n, groupSize, inp, size, out), [Add], [out], groupSize, Inputs(inp, size))
    ensures forall g :: 0 <= g < n ==>
      && Groups(sized, n, groupSize, inp, size, out)[g].Ok()
      && Fills(Groups(sized, n, groupSize, inp, size, out)[g], m, [Padded(m, inp, size, g * groupSize, groupSize)])
  {
    hide FillOk, Fills;
    forall g | 0 <= g < n
      ensures var t := GroupOf(sized, g, groupSize, inp, size, out);
        && t.Ok() && FillOk(t, Inputs(inp, size))
        && Fills(t, m, [Padded(m, inp, size, g * groupSize, groupSize)])
    {
      CellInGrid(g, groupSize - 1, n, groupSize);
      GroupIsOk(sized, g, groupSize, inp, size, out, m);
    }
  }

  /** n groups of the kernel, under any interleaving. */
  method RunGroups(sized: bool, n: nat, groupSize: nat, inp: nat, size: nat, out: nat, m: Mem,
                   scratch: Addr -> int, scheduler: (Launch, Mem) -> seq<Event>) returns (m': Mem)
    requires 0 < groupSize <= SLM_SIZE && inp != out && Scheduler(scheduler)
    requires Allocated(m, inp, size) && Allocated(m, out, n) && (sized || n * groupSize <= size)
    ensures m'.Keys >= m.Keys
    ensures forall g :: 0 <= g < n ==> Read(m', Global(out, g, 0)) == Result(Add, Padded(m, inp, size, g * groupSize, groupSize))
    ensures forall a: Addr :: a.Global? && (a.buf != out || n == 0) ==> Read(m', a) == Read(m, a)
  {
    hide WfLaunch, RaceFree, InBounds, Complete, WithLocals, Uniform, Fills, GroupOf, Groups, LaunchOf, Outcome, Result;
    var trees := Groups(sized, n, groupSize, inp, size, out);
    LocalsAreThere(m, 1, n, SLM_SIZE, scratch);
    var m0 := WithLocals(m, 1, n, SLM_SIZE, scratch);
    WithLocalsGrows(m, 1, n, SLM_SIZE, scratch);
    GroupsAreUniform(sized, n, groupSize, inp, size, out, m0);
    LaunchIsSafe(trees, [Add], [out], groupSize, Inputs(inp, size), m0);
    var L := LaunchOf(trees);
    m' := Submit(L, m0, scheduler(L, m0));
    LaunchKeeps(trees, [Add], [out], groupSize, Inputs(inp, size), m0, m');
    forall g | 0 <= g < n
      ensures Read(m', Global(out, g, 0)) == Result(Add, Padded(m, inp, size, g * groupSize, groupSize))
    {
      GroupResult(trees, g, groupSize, inp, size, out, m, m0, m');
    }
    if n == 0 { NoGroups(trees, m0, m'); }
  }

  lemma GroupResult(trees: seq<Tree>, g: nat, groupSize: nat, inp: nat, size: nat, out: nat, m: Mem, m0: Mem, m': Mem)
    requires g < |trees| && Uniform(trees, [Add], [out], groupSize, Inputs(inp, size))
    requires groupSize > 0 && Fills(trees[g], m0, [Padded(m0, inp, size, g * groupSize, groupSize)])
    requires WfLaunch(LaunchOf(trees)) && Outcome(LaunchOf(trees), |trees|, m0, m')
    requires forall a: Addr :: a.Global? ==> Read(m0, a) == Read(m, a)
    ensures Read(m', Global(out, g, 0)) == Result(Add, Padded(m, inp, size, g * groupSize, groupSize))
  {
    hide WfLaunch, Uniform, Fills, LaunchOf, Outcome, Result;
    var xs := Padded(m0, inp, size, g * groupSize, groupSize);
    LaunchResult(trees, [Add], [out], groupSize, Inputs(inp, size), m0, m', g, [xs], 0);
    assert xs == Padded(m, inp, size, g * groupSize, groupSize);
  }

  /** A blocking launch over NdRange(globalSize, groupSize). */
  method CallSumKernel(sized: bool, globalSize: nat, groupSize: nat, inp: nat, size: nat, out: nat, m: Mem,
                       scratch: Addr -> int, scheduler: (Launch, Mem) -> seq<Event>) returns (r: Option<Mem>)
    requires 0 < groupSize <= SLM_SIZE && inp != out && Scheduler(scheduler)
    requires Allocated(m, inp, size) && Allocated(m, out, globalSize / groupSize) && (sized || globalSize <= size)
    ensures r.None? <==> globalSize % groupSize != 0
    ensures r.Some? ==> r.value.Keys >= m.Keys
    ensures r.Some? ==> forall g :: 0 <= g < globalSize / groupSize ==>
      Read(r.value, Global(out, g, 0)) == Result(Add, Padded(m, inp, size, g * groupSize, groupSize))
    ensures r.Some? ==> forall a: Addr :: a.Global? && (a.buf != out || globalSize / groupSize == 0) ==> Read(r.value, a) == Read(m, a)
  {
    if globalSize % groupSize != 0 {
      return None;
    }
    hide Result, Scheduler, Allocated, Padded;
    var m' := RunGroups(sized, globalSize / groupSize, groupSize, inp, size, out, m, scratch, scheduler);
    return Some(m');
  }

  lemma WithLocalsGrows(m: Mem, V: nat, groups: nat, size: nat, scratch: Addr -> int)
    ensures m.Keys <= WithLocals(m, V, groups, size, scratch).Keys
  {
  }

  lemma NoGroups(trees: seq<Tree>, m: Mem, m': Mem)
    requires |trees| == 0 && WfLaunch(LaunchOf(trees)) && Outcome(LaunchOf(trees), 0, m, m')
    ensures forall a :: Read(m', a) == Read(m, a)
  {
  }

  // ----- sums of blocks -----

  lemma PaddedSplit(m: Mem, buf: nat, size: nat, a: nat, b: nat)
    ensures Fold(Add, Padded(m, buf, size, 0, a + b)) == Fold(Add, Padded(m, buf, size, 0, a)) + Fold(Add, Padded(m, buf, size, a, b))
  {
    var front, back := Padded(m, buf, size, 0, a), Padded(m, buf, size, a, b);
    assert Padded(m, buf, size, 0, a + b) == front + back;
    FoldConcat(Add, front, back);
  }

  /** x is the sum of group g's elements. */
  ghost predicate BlockSum(m: Mem, buf: nat, size: nat, groupSize: nat, g: nat, x: int) {
    x == Fold(Add, Padded(m, buf, size, g * groupSize, groupSize))
  }

  lemma {:induction false} BlocksAddUp(m: Mem, buf: nat, size: nat, groupSize: nat, sums: seq<int>)
    requires forall g :: 0 <= g < |sums| ==> BlockSum(m, buf, size, groupSize, g, sums[g])
    ensures BlocksSum(m, buf, size, groupSize, |sums|, Fold(Add, sums))
  {
    if sums != [] {
      var n := |sums| - 1;
      assert Fold(Add, sums) == Fold(Add, sums[..n]) + sums[n];
      hide BlockSum, BlocksSum, Fold;
      BlocksAddUp(m, buf, size, groupSize, sums[..n]);
      OneMoreBlock(m, buf, size, groupSize, n, Fold(Add, sums[..n]), sums[n]);
    }
  }

  /** x is the sum of the elements of the first n groups. */
  ghost predicate BlocksSum(m: Mem, buf: nat, size: nat, groupSize: nat, n: nat, x: int) {
    x == Fold(Add, Padded(m, buf, size, 0, n * groupSize))
  }

  lemma OneMoreBlock(m: Mem, buf: nat, size: nat, groupSize: nat, n: nat, x: int, y: int)
    requires BlocksSum(m, buf, size, groupSize, n, x) && BlockSum(m, buf, size, groupSize, n, y)
    ensures BlocksSum(m, buf, size, groupSize, n + 1, x + y)
  {
    hide Padded, Fold;
    var k := n * groupSize;
    assert (n + 1) * groupSize == k + groupSize;
    PaddedSplit(m, buf, size, k, groupSize);
  }

  lemma {:induction false} PaddingAddsNothing(m: Mem, buf: nat, size: nat, n: nat)
    requires size <= n
    ensures Fold(Add, Padded(m, buf, size, 0, n)) == Fold(Add, Values(m, buf, size))
    decreases n
  {
    if size < n {
      PaddingAddsNothing(m, buf, size, n - 1);
      assert Padded(m, buf, size, 0, n)[..n - 1] == Padded(m, buf, size, 0, n - 1);
    } else {
      assert Padded(m, buf, size, 0, n) == Values(m, buf, size);
    }
  }

  /** One launch replaces the input by fewer partial sums with the same total. */
  lemma LaunchKeepsTotal(m: Mem, m': Mem, inp: nat, size: nat, out: nat, n: nat, groupSize: nat)
    requires PowerOfTwo(groupSize) && size <= n * groupSize
    requires forall g :: 0 <= g < n ==> Read(m', Global(out, g, 0)) == Result(Add, Padded(m, inp, size, g * groupSize, groupSize))
    ensures Fold(Add, Values(m', out, n)) == Fold(Add, Values(m, inp, size))
  {
    hide Fold, Result;
    forall g | 0 <= g < n ensures BlockSum(m, inp, size, groupSize, g, Values(m', out, n)[g]) {
      TotalForPowersOfTwo(Add, Padded(m, inp, size, g * groupSize, groupSize));
    }
    BlocksAddUp(m, inp, size, groupSize, Values(m', out, n));
    PaddingAddsNothing(m, inp, size, n * groupSize);
  }

  lemma SingleValue(m: Mem, buf: nat)
    ensures Fold(Add, Values(m, buf, 1)) == Read(m, Global(buf, 0, 0))
  {
    assert Values(m, buf, 1)[..0] == [];
  }

  // ----- the hosts -----

  function CeilDiv(n: nat, d: nat): nat
    requires d > 0
  {
    if n % d == 0 then n / d else n / d + 1
  }

  lemma CeilDivBounds(n: nat, d: nat)
    requires d > 0
    ensures n <= CeilDiv(n, d) * d
    ensures n > 0 ==> CeilDiv(n, d) > 0
    ensures n % d == 0 ==> CeilDiv(n, d) * d == n
    ensures CeilDiv(n, d) * d / d == CeilDiv(n, d) && CeilDiv(n, d) * d % d == 0
  {
    DivModUnique(CeilDiv(n, d), 0, d);
    assert (n / d + 1) * d == n / d * d + d;
  }

  lemma CeilDivShrinks(n: nat, d: nat)
    requires 1 < d < n
    ensures CeilDiv(n, d) < n
  {
    var q := n / d;
    assert n == q * d + n % d;
    assert q * d >= q * 2 by { ProductMonotone(q, 2, d); }
    assert q >= 1;
  }

  ghost function Needed(size: nat): nat { if size == 0 then 1 else size }

  /** The number of groups the host passes on, and the global size it launches. */
  method LaunchShape(size: nat, groupSize: nat) returns (nbWorkGroups: nat, passedSize: nat)
    requires groupSize > 1
    ensures size <= groupSize ==> nbWorkGroups == 1 && passedSize == size
    ensures size > groupSize ==> nbWorkGroups == CeilDiv(size, groupSize) < size && passedSize == nbWorkGroups * groupSize
    ensures passedSize % groupSize == 0 <==> size == 0 || size >= groupSize
    ensures size >= groupSize ==> passedSize / groupSize == nbWorkGroups == CeilDiv(size, groupSize)
  {
    CeilDivBounds(size, groupSize);
    nbWorkGroups, passedSize := 1, size;
    if size > groupSize {
      CeilDivShrinks(size, groupSize);
      nbWorkGroups := size / groupSize;
      if size % groupSize != 0 {
        nbWorkGroups := nbWorkGroups + 1;
        passedSize := nbWorkGroups * groupSize;
      }
    }
  }

  /** Terminates with the sum of the first size elements of inp when they fill at least
      one group; smaller non-empty inputs are refused by NdRange; for an empty input
      nothing runs on the first level and the stale first partial sum is returned. */
  method SumRecursiveReduction(size: nat, groupSize: nat, inp: nat, out: nat, m: Mem,
                               scratch: Addr -> int, scheduler: (Launch, Mem) -> seq<Event>)
      returns (result: Option<int>, m': Mem)
    requires PowerOfTwo(groupSize) && 2 <= groupSize <= SLM_SIZE
    requires inp != out && Scheduler(scheduler)
    requires Allocated(m, inp, Needed(size)) && Allocated(m, out, Needed(CeilDiv(size, groupSize)))
    ensures size >= groupSize ==> result == Some(Fold(Add, Values(m, inp, size)))
    ensures 0 < size < groupSize ==> result.None?
    ensures size == 0 ==> result == Some(Read(m, Global(out, 0, 0)))
    decreases size
  {
    hide Fold, Result, PowerOfTwo, Scheduler, CeilDiv;
    CeilDivBounds(size, groupSize);
    var nbWorkGroups, passedSize := LaunchShape(size, groupSize);
    var r := CallSumKernel(true, passedSize, groupSize, inp, size, out, m, scratch, scheduler);
    if r.None? {
      return None, m;
    }
    var m1 := r.value;
    if size > 0 {
      LaunchKeepsTotal(m, m1, inp, size, out, nbWorkGroups, groupSize);
    }
    if nbWorkGroups <= groupSize {
      result, m' := FinishOnDevice(nbWorkGroups, groupSize, out, inp, m1, scratch, scheduler);
      SingleValue(m1, out);
    } else {
      CeilDivBounds(nbWorkGroups, groupSize);
      NeededShrinks(size, nbWorkGroups, groupSize);
      result, m' := SumRecursiveReduction(nbWorkGroups, groupSize, out, inp, m1, scratch, scheduler);
    }
  }

  lemma NeededShrinks(size: nat, n: nat, groupSize: nat)
    requires 1 < groupSize < n < size
    ensures CeilDiv(n, groupSize) < size
  {
    CeilDivShrinks(n, groupSize);
  }

  /** The last level: one group adds up the remaining partial sums. */
  method FinishOnDevice(n: nat, groupSize: nat, inp: nat, out: nat, m: Mem,
                        scratch: Addr -> int, scheduler: (Launch, Mem) -> seq<Event>)
      returns (result: Option<int>, m': Mem)
    requires PowerOfTwo(groupSize) && 2 <= groupSize <= SLM_SIZE && n <= groupSize
    requires inp != out && Scheduler(scheduler)
    requires Allocated(m, inp, n) && Allocated(m, out, 1)
    ensures result == Some(Fold(Add, Values(m, inp, n)))
  {
    hide Fold, Result, PowerOfTwo, Scheduler;
    var r := CallSumKernel(true, groupSize, groupSize, inp, n, out, m, scratch, scheduler);
    m' := r.value;
    LaunchKeepsTotal(m, m', inp, n, out, 1, groupSize);
    SingleValue(m', out);
    result := Some(Read(m', Global(out, 0, 0)));
  }

  datatype SumOutcome = Sum(value: int) | Refused | OutOfBounds

  /** The entry point: groups of 64 and fresh partial sums, one per group.  Without
      elements there are none, yet the second launch would read the first. */
  method SumReduce(size: nat, inp: nat, out: nat, m: Mem,
                   scratch: Addr -> int, scheduler: (Launch, Mem) -> seq<Event>) returns (result: SumOutcome)
    requires inp != out && Allocated(m, inp, size) && Scheduler(scheduler)
    ensures result == if size >= 64 then Sum(Fold(Add, Values(m, inp, size)))
                      else if size > 0 then Refused else OutOfBounds
  {
    hide Fold;
    var nbWorkGroups := size / SLM_SIZE;
    if size % SLM_SIZE != 0 {
      nbWorkGroups := nbWorkGroups + 1;
    }
    if nbWorkGroups == 0 { return OutOfBounds; }
    var m0 := m + map i | 0 <= i < nbWorkGroups :: Global(out, i, 0) := 0;
    assert PowerOfTwo(SLM_SIZE) by { assert PowerOfTwo(1) && PowerOfTwo(4) && PowerOfTwo(16); }
    assert Values(m0, inp, size) == Values(m, inp, size);
    var sum, m' := SumRecursiveReduction(size, SLM_SIZE, inp, out, m0, scratch, scheduler);
    return if sum.Some? then Sum(sum.value) else Refused;
  }

  /** The other reduction: one launch, then the host adds up the partial sums.  Group
      sizes that divide the input are summed exactly; others are refused. */
  method SumReduceOnHost(size: nat, groupSize: nat, inp: nat, out: nat, m: Mem,
                         scratch: Addr -> int, scheduler: (Launch, Mem) -> seq<Event>) returns (result: Option<int>)
    requires PowerOfTwo(groupSize) && 2 <= groupSize <= SLM_SIZE
    requires inp != out && Scheduler(scheduler)
    requires Allocated(m, inp, size) && Allocated(m, out, size / groupSize)
    ensures result == if size % groupSize == 0 then Some(Fold(Add, Values(m, inp, size))) else None
  {
    hide Result, PowerOfTwo, Scheduler;
    var r := CallSumKernel(false, size, groupSize, inp, size, out, m, scratch, scheduler);
    if r.None? {
      return None;
    }
    var nbWorkGroups := size / groupSize;
    var finalSum := 0;
    for i := 0 to nbWorkGroups
      invariant finalSum == Fold(Add, Values(r.value, out, i))
    {
      finalSum := finalSum + Read(r.value, Global(out, i, 0));
      assert Values(r.value, out, i + 1)[..i] == Values(r.value, out, i);
    }
    LaunchKeepsTotal(m, r.value, inp, size, out, nbWorkGroups, groupSize);
    return Some(finalSum);
  }
}
