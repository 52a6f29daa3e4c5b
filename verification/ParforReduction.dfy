/** A reduction prange: the tree kernel over full work-groups of eight, then the
    single-item remainder kernel, then the copy of the result to the host. */
module ParforReduction {
  import opened WorkGroup
  import opened TreeSum
  import opened TreeKernel

  const WORK_GROUP_SIZE: nat := 8

  /** body(v, i): what loop iteration i contributes to reduction variable v. */
  type Body = (nat, nat) -> int

  function Contributions(body: Body, v: nat, from: nat, n: nat): (xs: seq<int>)
    ensures |xs| == n
  {
    seq(n, i requires 0 <= i < n => body(v, from + i))
  }

  // ----- the loop body inside the tree kernel -----

  function InitVars(ops: seq<BinOp>, n: nat): Code
    requires n <= |ops|
  {
    if n == 0 then [] else InitVars(ops, n - 1) + [Const(n - 1, Identity(ops[n - 1]))]
  }

  function LoopBody(ops: seq<BinOp>, body: Body, i: nat, n: nat): Code
    requires n <= |ops|
  {
    if n == 0 then []
    else LoopBody(ops, body, i, n - 1) + [Const(|ops|, body(n - 1, i)), Arith(n - 1, ops[n - 1], n - 1, |ops|)]
  }

  function StoreVars(g: nat, l: nat, n: nat): Code {
    if n == 0 then [] else StoreVars(g, l, n - 1) + [Store(Slot(g, n - 1, l), n - 1)]
  }

  /** Everything before the first barrier: reduction variables set to the initial value,
      the loop body in place of the sentinel, the copy to the local accessors. */
  function Fill(ops: seq<BinOp>, body: Body, g: nat, l: nat): Code {
    InitVars(ops, |ops|) + LoopBody(ops, body, g * WORK_GROUP_SIZE + l, |ops|) + StoreVars(g, l, |ops|)
  }

  lemma {:induction false} InitVarsRun(ops: seq<BinOp>, n: nat, w: View)
    requires n <= |ops|
    ensures RunAll(InitVars(ops, n), w).mem == w.mem
    ensures forall v :: 0 <= v < n ==> Reg(RunAll(InitVars(ops, n), w).regs, v) == Identity(ops[v])
    ensures Foot(InitVars(ops, n)) == {}
  {
    if n > 0 {
      var c, d := InitVars(ops, n - 1), [Const(n - 1, Identity(ops[n - 1]))];
      InitVarsRun(ops, n - 1, w);
      RunAllConcat(c, d, w);
      FootConcat(c, d);
      assert Run(d, 0, RunAll(c, w)) == RunAll(c, w);
    }
  }

  lemma {:induction false} LoopBodyRun(ops: seq<BinOp>, body: Body, i: nat, n: nat, w: View)
    requires n <= |ops|
    ensures var r := RunAll(LoopBody(ops, body, i, n), w);
      && r.mem == w.mem
      && (forall v :: 0 <= v < n ==> Reg(r.regs, v) == Apply(ops[v], Reg(w.regs, v), body(v, i)))
      && (forall v :: n <= v < |ops| ==> Reg(r.regs, v) == Reg(w.regs, v))
    ensures Foot(LoopBody(ops, body, i, n)) == {}
  {
    if n > 0 {
      var c, d := LoopBody(ops, body, i, n - 1), [Const(|ops|, body(n - 1, i)), Arith(n - 1, ops[n - 1], n - 1, |ops|)];
      LoopBodyRun(ops, body, i, n - 1, w);
      RunAllConcat(c, d, w);
      FootConcat(c, d);
      var w0 := RunAll(c, w);
      assert Run(d, 0, w0) == w0;
      assert Run(d, 1, w0) == Exec(d[0], w0);
      assert Run(d, 2, w0) == Exec(d[1], Run(d, 1, w0));
    }
  }

  lemma {:induction false} StoreVarsRun(g: nat, l: nat, n: nat, w: View)
    ensures forall v :: 0 <= v < n ==> Read(RunAll(StoreVars(g, l, n), w).mem, Slot(g, v, l)) == Reg(w.regs, v)
    ensures RunAll(StoreVars(g, l, n), w).regs == w.regs
    ensures forall a :: a in Foot(StoreVars(g, l, n)) <==> SlotOf(g, n, l, a)
    ensures Writes(StoreVars(g, l, n)) <= Foot(StoreVars(g, l, n))
  {
    if n > 0 {
      var c, d := StoreVars(g, l, n - 1), [Store(Slot(g, n - 1, l), n - 1)];
      StoreVarsRun(g, l, n - 1, w);
      RunAllConcat(c, d, w);
      FootConcat(c, d);
      assert d[0].Store?;
      assert Foot(d) == {Slot(g, n - 1, l)};
      assert Run(d, 0, RunAll(c, w)) == RunAll(c, w);
    }
  }

  lemma FillRun(ops: seq<BinOp>, body: Body, g: nat, l: nat, m: Mem)
    ensures var c := Fill(ops, body, g, l);
      && (forall v :: 0 <= v < |ops| ==> Read(RunAll(c, View(map[], m)).mem, Slot(g, v, l)) == body(v, g * WORK_GROUP_SIZE + l))
      && (forall a :: a in Foot(c) <==> SlotOf(g, |ops|, l, a))
      && Writes(c) <= Foot(c)
  {
    var i := g * WORK_GROUP_SIZE + l;
    var c, d, e := InitVars(ops, |ops|), LoopBody(ops, body, i, |ops|), StoreVars(g, l, |ops|);
    var w := View(map[], m);
    InitVarsRun(ops, |ops|, w);
    LoopBodyRun(ops, body, i, |ops|, RunAll(c, w));
    StoreVarsRun(g, l, |ops|, RunAll(d, RunAll(c, w)));
    RunAllConcat(c, d, w);
    RunAllConcat(c + d, e, w);
    FootConcat(c, d);
    FootConcat(c + d, e);
    WritesInFoot(c + d + e);
    forall v | 0 <= v < |ops| ensures Apply(ops[v], Identity(ops[v]), body(v, i)) == body(v, i) {
      ApplyLaws(ops[v], body(v, i), 0, 0);
    }
  }

  // ----- the whole tree-kernel launch -----

  /** Work-group g; reduction variable v publishes to buffer outs[v]. */
  function GroupOf(ops: seq<BinOp>, body: Body, outs: seq<nat>, g: nat): Tree {
    Tree(g, ops, seq(WORK_GROUP_SIZE, l requires 0 <= l < WORK_GROUP_SIZE => Fill(ops, body, g, l)), outs)
  }

  predicate Distinct(outs: seq<nat>) { forall v, w :: 0 <= v < w < |outs| ==> outs[v] != outs[w] }

  function Groups(ops: seq<BinOp>, body: Body, outs: seq<nat>, groups: nat): seq<Tree> {
    seq(groups, g requires 0 <= g < groups => GroupOf(ops, body, outs, g))
  }

  function GroupVals(ops: seq<BinOp>, body: Body, g: nat): seq<seq<int>> {
    seq(|ops|, v requires 0 <= v < |ops| => Contributions(body, v, g * WORK_GROUP_SIZE, WORK_GROUP_SIZE))
  }

  lemma GroupIsOk(ops: seq<BinOp>, body: Body, outs: seq<nat>, g: nat, m: Mem)
    requires |outs| == |ops| && Distinct(outs)
    ensures var t := GroupOf(ops, body, outs, g);
      t.Ok() && FillOk(t, {}) && Fills(t, m, GroupVals(ops, body, g))
  {
    var t := GroupOf(ops, body, outs, g);
    var vals := GroupVals(ops, body, g);
    forall l | 0 <= l < WORK_GROUP_SIZE
      ensures forall a :: a in Foot(t.fill[l]) ==> SlotOf(g, |ops|, l, a)
      ensures forall a :: a in Writes(t.fill[l]) ==> SlotOf(g, |ops|, l, a)
      ensures forall v :: 0 <= v < |ops| ==> SlotFilled(t, m, v, l, vals[v][l])
    {
      FillRun(ops, body, g, l, m);
    }
  }

  lemma GroupsAreUniform(ops: seq<BinOp>, body: Body, outs: seq<nat>, groups: nat, m: Mem)
    requires |outs| == |ops| && Distinct(outs)
    ensures Uniform(Groups(ops, body, outs, groups), ops, outs, WORK_GROUP_SIZE, {})
    ensures forall g :: 0 <= g < groups ==> Groups(ops, body, outs, groups)[g].Ok()
    ensures forall g :: 0 <= g < groups ==> Fills(Groups(ops, body, outs, groups)[g], m, GroupVals(ops, body, g))
  {
    hide FillOk, Fills;
    forall g | 0 <= g < groups
      ensures GroupOf(ops, body, outs, g).Ok() && FillOk(GroupOf(ops, body, outs, g), {})
      ensures Fills(GroupOf(ops, body, outs, g), m, GroupVals(ops, body, g))
    {
      GroupIsOk(ops, body, outs, g, m);
    }
  }

  lemma EightIsAPowerOfTwo()
    ensures PowerOfTwo(8)
  {
    assert PowerOfTwo(1) && PowerOfTwo(2) && PowerOfTwo(4);
  }

  /** In every run of the tree kernel, under every interleaving, group g's partial
      result of variable v is the fold of the group's eight iterations. */
  lemma TreeLaunchResult(ops: seq<BinOp>, body: Body, outs: seq<nat>, groups: nat, m: Mem, m': Mem)
    requires |outs| == |ops| && Distinct(outs) && LaunchCells(|ops|, outs, WORK_GROUP_SIZE, groups, {}, m)
    requires forall g :: 0 <= g < groups ==> Groups(ops, body, outs, groups)[g].Ok()
    requires var L := LaunchOf(Groups(ops, body, outs, groups)); WfLaunch(L) && Outcome(L, groups, m, m')
    ensures forall v, g :: 0 <= v < |ops| && 0 <= g < groups ==>
      Read(m', Global(outs[v], g, 0)) == Fold(ops[v], Contributions(body, v, g * WORK_GROUP_SIZE, WORK_GROUP_SIZE))
    ensures forall a: Addr :: a.Global? && a.buf !in outs ==> Read(m', a) == Read(m, a)
    ensures m'.Keys == m.Keys
  {
    hide Uniform, LaunchCells, Fills, WfLaunch, Outcome, Result, Fold, GroupOf, LaunchOf;
    var trees := Groups(ops, body, outs, groups);
    GroupsAreUniform(ops, body, outs, groups, m);
    LaunchKeeps(trees, ops, outs, WORK_GROUP_SIZE, {}, m, m');
    EightIsAPowerOfTwo();
    forall v, g | 0 <= v < |ops| && 0 <= g < groups
      ensures Read(m', Global(outs[v], g, 0)) == Fold(ops[v], Contributions(body, v, g * WORK_GROUP_SIZE, WORK_GROUP_SIZE))
    {
      var vals := GroupVals(ops, body, g);
      LaunchResult(trees, ops, outs, WORK_GROUP_SIZE, {}, m, m', g, vals, v);
      TotalForPowersOfTwo(ops[v], vals[v]);
    }
  }

  // ----- host side -----

  /** The sizes and arrays allocated for one reduction variable. */
  class ReductionHelper {
    const globalSize: nat
    const globalSizeMod: nat
    const partialSumSize: nat
    const partialSum: nat
    const finalSum: nat

    ghost predicate For(totalWork: nat, partialSum: nat, finalSum: nat) {
      && globalSizeMod == totalWork % 8
      && globalSize == totalWork - totalWork % 8 == partialSumSize * 8
      && this.partialSum == partialSum && this.finalSum == finalSum
    }

    constructor (totalWork: nat, partialSum: nat, finalSum: nat)
      ensures For(totalWork, partialSum, finalSum)
    {
      var mod := totalWork % WORK_GROUP_SIZE;
      this.globalSizeMod := mod;
      this.globalSize := totalWork - mod;
      this.partialSumSize := (totalWork - mod) / WORK_GROUP_SIZE;
      this.partialSum := partialSum;
      this.finalSum := finalSum;
    }
  }

  function PartialBuf(v: nat): nat { 2 * v }
  function FinalBuf(v: nat): nat { 2 * v + 1 }

  /** Arrays of an earlier allocation keep their contents. */
  method FillArray(m: Mem, buf: nat, size: nat, value: int) returns (m': Mem)
    ensures forall a: Addr :: a in m' <==> a in m || (a.Global? && a.buf == buf && a.i < size && a.j == 0)
    ensures forall i :: 0 <= i < size ==> Read(m', Global(buf, i, 0)) == value
    ensures forall a: Addr :: !(a.Global? && a.buf == buf) ==> Read(m', a) == Read(m, a)
  {
    m' := m;
    for i := 0 to size
      invariant forall a: Addr :: a in m' <==> a in m || (a.Global? && a.buf == buf && a.i < i && a.j == 0)
      invariant forall k :: 0 <= k < i ==> Read(m', Global(buf, k, 0)) == value
      invariant forall a: Addr :: !(a.Global? && a.buf == buf) ==> Read(m', a) == Read(m, a)
    {
      m' := m'[Global(buf, i, 0) := value];
    }
  }

  // ----- the remainder kernel -----

  /** What the remainder kernel relies on: one helper per variable, all for the same loop. */
  ghost predicate HelpersFor(helpers: seq<ReductionHelper>, V: nat, totalWork: nat) {
    |helpers| == V && forall v :: 0 <= v < V ==> helpers[v].For(totalWork, PartialBuf(v), FinalBuf(v))
  }

  ghost predicate FinalsAre(ops: seq<BinOp>, body: Body, n: nat, m: Mem) {
    forall v :: 0 <= v < |ops| ==> FinalIs(ops, body, n, m, v)
  }

  ghost predicate FinalIs(ops: seq<BinOp>, body: Body, n: nat, m: Mem, v: nat)
    requires v < |ops|
  {
    FinalHolds(m, v, Fold(ops[v], Contributions(body, v, 0, n)))
  }

  predicate FinalHolds(m: Mem, v: nat, x: int) { HasFinal(m, v) && Read(m, Global(FinalBuf(v), 0, 0)) == x }

  predicate HasFinal(m: Mem, v: nat) { Global(FinalBuf(v), 0, 0) in m }

  /** Partial sums that groups 0, 1, ... left behind. */
  ghost predicate PartialsAre(ops: seq<BinOp>, body: Body, groups: nat, m: Mem) {
    forall v, g :: 0 <= v < |ops| && 0 <= g < groups ==>
      && Global(PartialBuf(v), g, 0) in m
      && Read(m, Global(PartialBuf(v), g, 0)) == Fold(ops[v], Contributions(body, v, g * WORK_GROUP_SIZE, WORK_GROUP_SIZE))
  }

  lemma ContributionsSplit(op: BinOp, body: Body, v: nat, n: nat, k: nat)
    ensures Fold(op, Contributions(body, v, 0, n + k))
         == Apply(op, Fold(op, Contributions(body, v, 0, n)), Fold(op, Contributions(body, v, n, k)))
  {
    FoldConcat(op, Contributions(body, v, 0, n), Contributions(body, v, n, k));
    assert Contributions(body, v, 0, n + k) == Contributions(body, v, 0, n) + Contributions(body, v, n, k);
  }

  lemma OneContribution(op: BinOp, body: Body, v: nat, n: nat)
    ensures Fold(op, Contributions(body, v, 0, n + 1))
         == Apply(op, Fold(op, Contributions(body, v, 0, n)), body(v, n))
  {
    var xs := Contributions(body, v, 0, n + 1);
    assert xs[..n] == Contributions(body, v, 0, n);
  }

  /** final_sum_v[0] op= x, for the variables below V one after the other. */
  method Accumulate(ops: seq<BinOp>, helpers: seq<ReductionHelper>, xs: seq<int>, m: Mem) returns (m': Mem)
    requires |helpers| == |ops| == |xs|
    requires forall v :: 0 <= v < |ops| ==> helpers[v].finalSum == FinalBuf(v) && HasFinal(m, v)
    ensures m'.Keys == m.Keys
    ensures forall v :: 0 <= v < |ops| ==>
      Read(m', Global(FinalBuf(v), 0, 0)) == Apply(ops[v], Read(m, Global(FinalBuf(v), 0, 0)), xs[v])
    ensures forall v, i, j :: Read(m', Global(PartialBuf(v), i, j)) == Read(m, Global(PartialBuf(v), i, j))
  {
    m' := m;
    for v := 0 to |ops|
      invariant m'.Keys == m.Keys
      invariant forall u :: 0 <= u < v ==> Read(m', Global(FinalBuf(u), 0, 0)) == Apply(ops[u], Read(m, Global(FinalBuf(u), 0, 0)), xs[u])
      invariant forall u :: v <= u < |ops| ==> Read(m', Global(FinalBuf(u), 0, 0)) == Read(m, Global(FinalBuf(u), 0, 0))
      invariant forall u, i, j :: Read(m', Global(PartialBuf(u), i, j)) == Read(m, Global(PartialBuf(u), i, j))
    {
      var f := Global(helpers[v].finalSum, 0, 0);
      m' := m'[f := Apply(ops[v], m'[f], xs[v])];
    }
  }

  method FoldPartials(ops: seq<BinOp>, ghost body: Body, helpers: seq<ReductionHelper>, ghost totalWork: nat, m: Mem) returns (m': Mem)
    requires |ops| > 0 && HelpersFor(helpers, |ops|, totalWork)
    requires PartialsAre(ops, body, totalWork / WORK_GROUP_SIZE, m)
    requires FinalsAre(ops, body, 0, m)
    ensures FinalsAre(ops, body, helpers[0].globalSize, m')
  {
    hide Fold, Contributions;
    m' := m;
    for j := 0 to helpers[0].partialSumSize
      invariant m'.Keys == m.Keys
      invariant PartialsAre(ops, body, helpers[0].partialSumSize, m')
      invariant FinalsAre(ops, body, j * WORK_GROUP_SIZE, m')
    {
      var xs := seq(|ops|, v requires 0 <= v < |ops| && Global(helpers[v].partialSum, j, 0) in m' => m'[Global(helpers[v].partialSum, j, 0)]);
      ghost var before, n := m', (j + 1) * WORK_GROUP_SIZE;
      forall v | 0 <= v < |ops| ensures HasFinal(before, v) { assert FinalIs(ops, body, j * WORK_GROUP_SIZE, before, v); }
      m' := Accumulate(ops, helpers, xs, m');
      forall v | 0 <= v < |ops| ensures FinalIs(ops, body, n, m', v) {
        assert FinalIs(ops, body, j * WORK_GROUP_SIZE, before, v);
        ContributionsSplit(ops[v], body, v, j * WORK_GROUP_SIZE, WORK_GROUP_SIZE);
      }
    }
  }

  method FoldRest(ops: seq<BinOp>, body: Body, helpers: seq<ReductionHelper>, ghost totalWork: nat, m: Mem) returns (m': Mem)
    requires |ops| > 0 && HelpersFor(helpers, |ops|, totalWork)
    requires FinalsAre(ops, body, helpers[0].globalSize, m)
    ensures FinalsAre(ops, body, totalWork, m')
  {
    hide Fold, Contributions;
    m' := m;
    for j := 0 to helpers[0].globalSizeMod
      invariant m'.Keys == m.Keys
      invariant FinalsAre(ops, body, helpers[0].globalSize + j, m')
    {
      var i := helpers[0].globalSize + j;
      var xs := seq(|ops|, v requires 0 <= v < |ops| => Apply(ops[v], Identity(ops[v]), body(v, i)));
      ghost var before, n := m', i + 1;
      forall v | 0 <= v < |ops| ensures HasFinal(before, v) { assert FinalIs(ops, body, i, before, v); }
      m' := Accumulate(ops, helpers, xs, m');
      forall v | 0 <= v < |ops| ensures FinalIs(ops, body, n, m', v) {
        assert FinalIs(ops, body, i, before, v);
        ApplyLaws(ops[v], body(v, i), 0, 0);
        OneContribution(ops[v], body, v, i);
      }
    }
  }

  /** The single-item kernel: it folds in the partial sums, then the iterations that
      did not fill a work-group.  It looks only at the first helper's sizes. */
  method RemainderKernel(ops: seq<BinOp>, body: Body, helpers: seq<ReductionHelper>, ghost totalWork: nat, m: Mem) returns (m': Mem)
    requires |ops| > 0 && HelpersFor(helpers, |ops|, totalWork)
    requires PartialsAre(ops, body, totalWork / WORK_GROUP_SIZE, m)
    requires FinalsAre(ops, body, 0, m)
    ensures FinalsAre(ops, body, totalWork, m')
  {
    m' := FoldPartials(ops, body, helpers, totalWork, m);
    m' := FoldRest(ops, body, helpers, totalWork, m');
  }

  // ----- the launch sequence -----

  function PartialBufs(V: nat): seq<nat> { seq(V, v requires 0 <= v < V => PartialBuf(v)) }

  /** Allocates the helpers of all variables: partial and final sums filled with the
      identity of each variable's operation. */
  method Allocate(ops: seq<BinOp>, totalWork: nat, m: Mem) returns (helpers: seq<ReductionHelper>, m': Mem)
    ensures HelpersFor(helpers, |ops|, totalWork)
    ensures forall v, g :: 0 <= v < |ops| && 0 <= g < totalWork / WORK_GROUP_SIZE ==>
      Global(PartialBuf(v), g, 0) in m' && Read(m', Global(PartialBuf(v), g, 0)) == Identity(ops[v])
    ensures forall v :: 0 <= v < |ops| ==> FinalHolds(m', v, Identity(ops[v]))
  {
    helpers, m' := [], m;
    for v := 0 to |ops|
      invariant HelpersFor(helpers, v, totalWork)
      invariant forall u, g :: 0 <= u < v && 0 <= g < totalWork / WORK_GROUP_SIZE ==>
        Global(PartialBuf(u), g, 0) in m' && Read(m', Global(PartialBuf(u), g, 0)) == Identity(ops[u])
      invariant forall u :: 0 <= u < v ==> FinalHolds(m', u, Identity(ops[u]))
    {
      var h := new ReductionHelper(totalWork, PartialBuf(v), FinalBuf(v));
      helpers := helpers + [h];
      m' := FillArray(m', h.partialSum, h.partialSumSize, Identity(ops[v]));
      m' := FillArray(m', h.finalSum, 1, Identity(ops[v]));
    }
  }

  /** Submits the tree kernel and waits for it. */
  method TreeStage(ops: seq<BinOp>, body: Body, groups: nat, m: Mem, scratch: Addr -> int, scheduler: (Launch, Mem) -> seq<Event>)
      returns (m': Mem)
    requires Scheduler(scheduler)
    requires forall v, g :: 0 <= v < |ops| && 0 <= g < groups ==> Global(PartialBuf(v), g, 0) in m
    requires forall v :: 0 <= v < |ops| ==> FinalHolds(m, v, Identity(ops[v]))
    ensures PartialsAre(ops, body, groups, m')
    ensures forall v :: 0 <= v < |ops| ==> FinalHolds(m', v, Identity(ops[v]))
  {
    hide WfLaunch, RaceFree, InBounds, Fold, Complete, WithLocals, Uniform, Fills, GroupOf, LaunchOf, Outcome;
    var outs := PartialBufs(|ops|);
    LocalsAreThere(m, |ops|, groups, WORK_GROUP_SIZE, scratch);
    var m0 := WithLocals(m, |ops|, groups, WORK_GROUP_SIZE, scratch);
    var trees := Groups(ops, body, outs, groups);
    GroupsAreUniform(ops, body, outs, groups, m0);
    LaunchIsSafe(trees, ops, outs, WORK_GROUP_SIZE, {}, m0);
    var L := LaunchOf(trees);
    m' := Submit(L, m0, scheduler(L, m0));
    TreeLaunchResult(ops, body, outs, groups, m0, m');
    forall v | 0 <= v < |ops| ensures FinalHolds(m', v, Identity(ops[v])) {
      assert FinalHolds(m, v, Identity(ops[v]));
    }
    forall v, g | 0 <= v < |ops| && 0 <= g < groups
      ensures Global(PartialBuf(v), g, 0) in m'
      ensures Read(m', Global(PartialBuf(v), g, 0)) == Fold(ops[v], Contributions(body, v, g * WORK_GROUP_SIZE, WORK_GROUP_SIZE))
    {
      assert outs[v] == PartialBuf(v);
    }
  }

  /** A reduction over totalWork iterations: for every number of variables, every mix of
      + and *, every body, every initial content of local memory and every interleaving
      of the tree kernel, each variable ends up with the sequential fold. */
  method ReductionCodegen(ops: seq<BinOp>, body: Body, totalWork: nat, memory: Mem, scratch: Addr -> int,
                          scheduler: (Launch, Mem) -> seq<Event>)
      returns (result: seq<int>)
    requires |ops| > 0 && Scheduler(scheduler)
    ensures |result| == |ops|
    ensures forall v :: 0 <= v < |ops| ==>
                          result[v] == Fold(ops[v], seq(totalWork, i requires 0 <= i < totalWork => body(v, i)))
  {
    var helpers, m := Allocate(ops, totalWork, memory);
    var groups := helpers[0].globalSize / WORK_GROUP_SIZE;
    assert groups == totalWork / WORK_GROUP_SIZE;
    m := TreeStage(ops, body, groups, m, scratch, scheduler);
    forall v | 0 <= v < |ops| ensures FinalIs(ops, body, 0, m, v) {
      assert FinalHolds(m, v, Identity(ops[v]));
    }
    m := RemainderKernel(ops, body, helpers, totalWork, m);
    forall v | 0 <= v < |ops| ensures FinalHolds(m, v, Fold(ops[v], Contributions(body, v, 0, totalWork))) {
      assert FinalIs(ops, body, totalWork, m, v);
    }
    forall v | 0 <= v < |ops|
      ensures Contributions(body, v, 0, totalWork) == seq(totalWork, i requires 0 <= i < totalWork => body(v, i)) {}
    result := seq(|ops|, v requires 0 <= v < |ops| => Read(m, Global(helpers[v].finalSum, 0, 0)));
  }
}
