/** The work-group tree reduction as code for the machine of WorkGroup.  Three kernels
    of the repository share it: the generated reduction kernel and the two hand-written
    sum reductions.  They differ in how a slot is first filled. */
module TreeKernel {
  import opened Options
  import opened WorkGroup
  import opened TreeSum

  /** Slot i of the local accessor of reduction variable v. */
  function Slot(g: nat, v: nat, i: nat): Addr { Local(g, v, i, 0) }

  /** slot[i] op= slot[i + s], one memory access at a time. */
  function CombineOne(g: nat, v: nat, op: BinOp, i: nat, s: nat, tmp: nat): Code {
    [Load(tmp, Slot(g, v, i)), Load(tmp + 1, Slot(g, v, i + s)), Arith(tmp, op, tmp, tmp + 1), Store(Slot(g, v, i), tmp)]
  }

  /** The body of the stride loop for the first n reduction variables. */
  function Combine(g: nat, ops: seq<BinOp>, n: nat, i: nat, s: nat): Code
    requires n <= |ops|
  {
    if n == 0 then [] else Combine(g, ops, n - 1, i, s) + CombineOne(g, n - 1, ops[n - 1], i, s, |ops|)
  }

  /** Item 0 copies slot 0 of each variable to that variable's partial-sum buffer. */
  function Publish(g: nat, outs: seq<nat>, n: nat, tmp: nat): Code
    requires n <= |outs|
  {
    if n == 0 then []
    else Publish(g, outs, n - 1, tmp) + [Load(tmp, Slot(g, n - 1, 0)), Store(Global(outs[n - 1], g, 0), tmp)]
  }

  /** One work-group: fill[l] fills item l's slots; outs[v] is where variable v's
      partial results go. */
  datatype Tree = Tree(g: nat, ops: seq<BinOp>, fill: seq<Code>, outs: seq<nat>) {
    function Size(): nat { |fill| }

    predicate Ok() { |fill| > 0 && |outs| == |ops| && forall v, w :: 0 <= v < w < |outs| ==> outs[v] != outs[w] }

    /** What item l does to the slots between barriers k and k + 1. */
    function Core(l: nat, k: nat): Code
      requires Ok() && l < Size()
    {
      if k == 0 then fill[l] else if l < Stride(Size(), k) then Combine(g, ops, |ops|, l, Stride(Size(), k)) else []
    }

    /** What item l executes between barriers k and k + 1. */
    function Phase(l: nat, k: nat): Code
      requires Ok() && l < Size() && k <= Rounds(Size())
    {
      Core(l, k) + (if k == Rounds(Size()) && l == 0 then Publish(g, outs, |outs|, |ops|) else [])
    }

    function Program(l: nat): seq<Code>
      requires Ok() && l < Size()
    {
      seq(Rounds(Size()) + 1, k requires 0 <= k <= Rounds(Size()) => Phase(l, k))
    }

    function Items(): Group
      requires Ok()
    {
      seq(Size(), l requires 0 <= l < Size() => Program(l))
    }
  }

  /** The item's program written by the kernel's own loop: a barrier, the combining
      step if this item is below the stride, and the stride shifted right. */
  method ItemProgram(t: Tree, l: nat) returns (p: seq<Code>)
    requires t.Ok() && l < t.Size()
    ensures p == t.Program(l)
  {
    hide Combine, Publish, Stride, Rounds;
    var current := t.fill[l];
    p := [];
    var stride := t.Size() / 2;
    ghost var k := 0;
    StrideStep(t.Size(), 0);
    while stride > 0
      invariant |p| == k <= Rounds(t.Size())
      invariant stride == Stride(t.Size(), k + 1)
      invariant forall j :: 0 <= j < k ==> p[j] == t.Core(l, j)
      invariant current == t.Core(l, k)
    {
      StrideStep(t.Size(), k);
      StrideStep(t.Size(), k + 1);
      p := p + [current];
      current := [];
      if l < stride {
        current := Combine(t.g, t.ops, |t.ops|, l, stride);
      }
      stride := stride / 2;
      k := k + 1;
    }
    StrideStep(t.Size(), k);
    assert k == Rounds(t.Size());
    if l == 0 {
      current := current + Publish(t.g, t.outs, |t.outs|, |t.ops|);
    }
    p := p + [current];
    assert forall j :: 0 <= j < k ==> p[j] == t.Phase(l, j);
  }

  lemma StrideStep(size: nat, k: nat)
    requires size > 0 && k <= Rounds(size) + 1
    ensures Stride(size, 0) == size && Stride(size, k + 1) == Stride(size, k) / 2
    ensures Stride(size, k + 1) > 0 <==> k < Rounds(size)
  {
    LastStride(size);
    if k < Rounds(size) {
      StridePositive(size, k + 1);
    } else {
      StrideMonotone(size, Rounds(size), k);
    }
  }

  // ----- what the code touches -----

  predicate SlotOf(g: nat, V: nat, i: nat, a: Addr) {
    a.Local? && a.group == g && a.buf < V && a.i == i && a.j == 0
  }

  predicate PartialOf(g: nat, outs: seq<nat>, a: Addr) {
    a.Global? && a.buf in outs && a.i == g && a.j == 0
  }

  lemma {:induction false} CombineFoot(g: nat, ops: seq<BinOp>, n: nat, i: nat, s: nat)
    requires n <= |ops|
    ensures forall a :: a in Foot(Combine(g, ops, n, i, s)) ==> SlotOf(g, |ops|, i, a) || SlotOf(g, |ops|, i + s, a)
    ensures forall a :: a in Writes(Combine(g, ops, n, i, s)) ==> SlotOf(g, |ops|, i, a)
  {
    if n > 0 {
      CombineFoot(g, ops, n - 1, i, s);
      FootConcat(Combine(g, ops, n - 1, i, s), CombineOne(g, n - 1, ops[n - 1], i, s, |ops|));
    }
  }

  lemma {:induction false} PublishFoot(g: nat, outs: seq<nat>, n: nat, tmp: nat)
    requires n <= |outs|
    ensures forall a :: a in Foot(Publish(g, outs, n, tmp)) ==> SlotOf(g, |outs|, 0, a) || PartialOf(g, outs, a)
    ensures forall a :: a in Writes(Publish(g, outs, n, tmp)) ==> PartialOf(g, outs, a)
  {
    if n > 0 {
      PublishFoot(g, outs, n - 1, tmp);
      FootConcat(Publish(g, outs, n - 1, tmp), [Load(tmp, Slot(g, n - 1, 0)), Store(Global(outs[n - 1], g, 0), tmp)]);
    }
  }

  /** Filling touches the item's own slots and an input that is no partial-sum buffer. */
  ghost predicate FillOk(t: Tree, inputs: set<Addr>) {
    && (forall a :: a in inputs ==> a.Global? && a.buf !in t.outs)
    && (forall l, a :: 0 <= l < |t.fill| && a in Foot(t.fill[l]) ==> SlotOf(t.g, |t.ops|, l, a) || a in inputs)
    && (forall l, a :: 0 <= l < |t.fill| && a in Writes(t.fill[l]) ==> SlotOf(t.g, |t.ops|, l, a))
  }

  /** The item whose slot an item reads besides its own. */
  function Partner(t: Tree, l: nat, k: nat): nat {
    if k > 0 && l < Stride(t.Size(), k) then l + Stride(t.Size(), k) else l
  }

  lemma PhaseFoot(t: Tree, l: nat, k: nat, inputs: set<Addr>)
    requires t.Ok() && FillOk(t, inputs) && l < t.Size() && k <= Rounds(t.Size())
    ensures forall a :: a in Foot(t.Phase(l, k)) ==>
      SlotOf(t.g, |t.ops|, l, a) || SlotOf(t.g, |t.ops|, Partner(t, l, k), a) || (l == 0 && PartialOf(t.g, t.outs, a)) || (k == 0 && a in inputs)
    ensures forall a :: a in Writes(t.Phase(l, k)) ==>
      (SlotOf(t.g, |t.ops|, l, a) && (k == 0 || l < Stride(t.Size(), k))) || (l == 0 && PartialOf(t.g, t.outs, a))
  {
    var c := t.Core(l, k);
    var d := if k == Rounds(t.Size()) && l == 0 then Publish(t.g, t.outs, |t.outs|, |t.ops|) else [];
    FootConcat(c, d);
    CombineFoot(t.g, t.ops, |t.ops|, l, Stride(t.Size(), k));
    PublishFoot(t.g, t.outs, |t.outs|, |t.ops|);
  }

  /** For every group size and every stride of the loop, no item writes a slot that
      another item accesses in the same phase. */
  lemma TreeHasNoRaces(t: Tree, inputs: set<Addr>)
    requires t.Ok() && FillOk(t, inputs)
    ensures WfGroup(t.Items()) && PhaseRaceFree(t.Items())
  {
    var G := t.Items();
    forall l: nat, l': nat, k: nat | InGroup(G, l, k) && InGroup(G, l', k) && l != l'
      ensures Writes(G[l][k]) !! Foot(G[l'][k])
    {
      PhaseFoot(t, l, k, inputs);
      PhaseFoot(t, l', k, inputs);
      assert G[l][k] == t.Phase(l, k) && G[l'][k] == t.Phase(l', k);
    }
  }

  /** Everything a group touches: its slots, its partial results, the inputs. */
  lemma TreeTouch(t: Tree, inputs: set<Addr>)
    requires t.Ok() && FillOk(t, inputs)
    ensures forall a :: a in Touch(t.Items()) ==>
      (a.Local? && a.i < t.Size() && SlotOf(t.g, |t.ops|, a.i, a)) || PartialOf(t.g, t.outs, a) || a in inputs
    ensures forall a :: a in GroupWrites(t.Items()) ==>
      (a.Local? && SlotOf(t.g, |t.ops|, a.i, a)) || PartialOf(t.g, t.outs, a)
  {
    var G := t.Items();
    forall l, k | 0 <= l < |G| && 0 <= k < |G[l]|
      ensures Partner(t, l, k) < t.Size() && G[l][k] == t.Phase(l, k)
    {
      if k > 0 { PartnerInGroup(t, l, k); }
    }
    forall a | a in Touch(G)
      ensures (a.Local? && a.i < t.Size() && SlotOf(t.g, |t.ops|, a.i, a)) || PartialOf(t.g, t.outs, a) || a in inputs
    {
      var l, k :| 0 <= l < |G| && 0 <= k < |G[l]| && a in Foot(G[l][k]);
      PhaseFoot(t, l, k, inputs);
    }
    forall a | a in GroupWrites(G) ensures (a.Local? && SlotOf(t.g, |t.ops|, a.i, a)) || PartialOf(t.g, t.outs, a) {
      var l, k :| 0 <= l < |G| && 0 <= k < |G[l]| && a in Writes(G[l][k]);
      PhaseFoot(t, l, k, inputs);
    }
  }

  lemma PartnerInGroup(t: Tree, l: nat, k: nat)
    requires t.Ok() && l < t.Size() && 0 < k <= Rounds(t.Size())
    ensures Partner(t, l, k) < t.Size()
    ensures 2 * Stride(t.Size(), k) <= t.Size()
  {
    StridePositive(t.Size(), k - 1);
  }

  // ----- what the code computes -----

  lemma {:induction false} CombineRun(g: nat, ops: seq<BinOp>, n: nat, i: nat, s: nat, w: View)
    requires n <= |ops| && s > 0
    ensures var m := RunAll(Combine(g, ops, n, i, s), w).mem;
      && (forall v :: 0 <= v < n ==> Read(m, Slot(g, v, i)) == Apply(ops[v], Read(w.mem, Slot(g, v, i)), Read(w.mem, Slot(g, v, i + s))))
      && (forall a :: !SlotOf(g, n, i, a) ==> Read(m, a) == Read(w.mem, a))
  {
    hide RunAll, CombineOne;
    if n == 0 {
      assert RunAll([], w) == w by { RunEmpty(w); }
    } else {
      var c := Combine(g, ops, n - 1, i, s);
      CombineRun(g, ops, n - 1, i, s, w);
      RunAllConcat(c, CombineOne(g, n - 1, ops[n - 1], i, s, |ops|), w);
      CombineOneRun(g, n - 1, ops[n - 1], i, s, |ops|, RunAll(c, w));
    }
  }

  lemma RunEmpty(w: View)
    ensures RunAll([], w) == w
  {
  }

  lemma CombineOneRun(g: nat, v: nat, op: BinOp, i: nat, s: nat, tmp: nat, w: View)
    ensures var m := RunAll(CombineOne(g, v, op, i, s, tmp), w).mem;
      && Read(m, Slot(g, v, i)) == Apply(op, Read(w.mem, Slot(g, v, i)), Read(w.mem, Slot(g, v, i + s)))
      && (forall a :: a != Slot(g, v, i) ==> Read(m, a) == Read(w.mem, a))
  {
    var c := CombineOne(g, v, op, i, s, tmp);
    assert Run(c, 0, w) == w;
    assert Run(c, 1, w) == Exec(c[0], w);
    assert Run(c, 2, w) == Exec(c[1], Run(c, 1, w));
    assert Run(c, 3, w) == Exec(c[2], Run(c, 2, w));
    assert Run(c, 4, w) == Exec(c[3], Run(c, 3, w));
  }

  lemma {:induction false} PublishRun(g: nat, outs: seq<nat>, n: nat, tmp: nat, w: View)
    requires n <= |outs|
    requires forall v, u :: 0 <= v < u < |outs| ==> outs[v] != outs[u]
    ensures var m := RunAll(Publish(g, outs, n, tmp), w).mem;
      && (forall v :: 0 <= v < n ==> Read(m, Global(outs[v], g, 0)) == Read(w.mem, Slot(g, v, 0)))
      && (forall a :: !PartialOf(g, outs[..n], a) ==> Read(m, a) == Read(w.mem, a))
  {
    if n > 0 {
      var c := Publish(g, outs, n - 1, tmp);
      var d := [Load(tmp, Slot(g, n - 1, 0)), Store(Global(outs[n - 1], g, 0), tmp)];
      PublishRun(g, outs, n - 1, tmp, w);
      RunAllConcat(c, d, w);
      var w0 := RunAll(c, w);
      assert Run(d, 1, w0) == Exec(d[0], w0);
      assert Run(d, 2, w0) == Exec(d[1], Exec(d[0], w0));
      assert outs[..n] == outs[..n - 1] + [outs[n - 1]];
    }
  }

  /** vals[v][l] is what item l's fill code leaves in its slot of variable v. */
  ghost predicate Fills(t: Tree, m: Mem, vals: seq<seq<int>>) {
    && |vals| == |t.ops|
    && (forall v :: 0 <= v < |vals| ==> |vals[v]| == t.Size())
    && forall v, l :: 0 <= v < |vals| && 0 <= l < t.Size() ==>
         SlotFilled(t, m, v, l, vals[v][l])
  }

  ghost predicate SlotFilled(t: Tree, m: Mem, v: nat, l: nat, x: int)
    requires l < t.Size()
  {
    Read(RunAll(t.fill[l], View(map[], m)).mem, Slot(t.g, v, l)) == x && Slot(t.g, v, l) in Foot(t.fill[l])
  }

  /** After phase k the slots hold TreeSum.Slots of the filled-in values. */
  ghost predicate SlotsAt(t: Tree, vals: seq<seq<int>>, k: nat, m: Mem)
    requires |vals| == |t.ops| && forall v :: 0 <= v < |vals| ==> |vals[v]| == t.Size()
  {
    forall v, i :: 0 <= v < |vals| && 0 <= i < t.Size() ==> Read(m, Slot(t.g, v, i)) == Slots(t.ops[v], vals[v], k)[i]
  }

  /** A phase's effect on the item's own slot, and on the partial results. */
  lemma PhaseRun(t: Tree, l: nat, k: nat, v: nat, w: View)
    requires t.Ok() && l < t.Size() && k <= Rounds(t.Size()) && v < |t.ops|
    ensures var m := RunAll(t.Phase(l, k), w).mem;
      && Read(m, Slot(t.g, v, l)) == SlotEffect(t, l, k, v, w)
      && (l == 0 && k == Rounds(t.Size()) ==> Read(m, Global(t.outs[v], t.g, 0)) == Read(m, Slot(t.g, v, 0)))
  {
    hide RunAll, Combine, Publish, Rounds;
    var s := Stride(t.Size(), k);
    var c := t.Core(l, k);
    var d := if k == Rounds(t.Size()) && l == 0 then Publish(t.g, t.outs, |t.outs|, |t.ops|) else [];
    RunAllConcat(c, d, w);
    assert Read(RunAll(c, w).mem, Slot(t.g, v, l)) == SlotEffect(t, l, k, v, w) by {
      if k > 0 && l < s { CombineRun(t.g, t.ops, |t.ops|, l, s, w); }
      RunEmpty(w);
    }
    if k == Rounds(t.Size()) && l == 0 {
      PublishRun(t.g, t.outs, |t.outs|, |t.ops|, RunAll(c, w));
    } else {
      RunEmpty(RunAll(c, w));
    }
  }

  ghost function SlotEffect(t: Tree, l: nat, k: nat, v: nat, w: View): int
    requires t.Ok() && l < t.Size() && v < |t.ops|
  {
    var s := Stride(t.Size(), k);
    if k == 0 then Read(RunAll(t.fill[l], w).mem, Slot(t.g, v, l))
    else if l < s then Apply(t.ops[v], Read(w.mem, Slot(t.g, v, l)), Read(w.mem, Slot(t.g, v, l + s)))
    else Read(w.mem, Slot(t.g, v, l))
  }

  lemma PhaseTouchesSlot(t: Tree, l: nat, k: nat, v: nat)
    requires t.Ok() && l < t.Size() && k <= Rounds(t.Size()) && v < |t.ops|
    requires if k == 0 then Slot(t.g, v, l) in Foot(t.fill[l]) else l < Stride(t.Size(), k)
    ensures Slot(t.g, v, l) in Foot(t.Phase(l, k))
  {
    var s := Stride(t.Size(), k);
    var c := t.Core(l, k);
    var d := if k == Rounds(t.Size()) && l == 0 then Publish(t.g, t.outs, |t.outs|, |t.ops|) else [];
    FootConcat(c, d);
    if k > 0 { CombineTouches(t.g, t.ops, |t.ops|, l, s, v); }
  }

  lemma {:induction false} CombineTouches(g: nat, ops: seq<BinOp>, n: nat, i: nat, s: nat, v: nat)
    requires v < n <= |ops|
    ensures Slot(g, v, i) in Foot(Combine(g, ops, n, i, s))
  {
    var d := CombineOne(g, n - 1, ops[n - 1], i, s, |ops|);
    FootConcat(Combine(g, ops, n - 1, i, s), d);
    if v < n - 1 {
      CombineTouches(g, ops, n - 1, i, s, v);
    } else {
      assert d[0].Load? && d[0].addr == Slot(g, v, i);
    }
  }

  lemma {:induction false} PublishTouches(g: nat, outs: seq<nat>, n: nat, tmp: nat, v: nat)
    requires v < n <= |outs|
    ensures Global(outs[v], g, 0) in Foot(Publish(g, outs, n, tmp))
  {
    var d := [Load(tmp, Slot(g, n - 1, 0)), Store(Global(outs[n - 1], g, 0), tmp)];
    FootConcat(Publish(g, outs, n - 1, tmp), d);
    if v < n - 1 {
      PublishTouches(g, outs, n - 1, tmp, v);
    } else {
      assert d[1].Store? && d[1].addr == Global(outs[v], g, 0);
    }
  }

  /** The group's code, indexed. */
  lemma ItemsAt(t: Tree, l: nat, k: nat)
    requires t.Ok() && l < t.Size() && k <= Rounds(t.Size())
    ensures |t.Items()| == t.Size() && WfGroup(t.Items()) && Phases(t.Items()) == Rounds(t.Size()) + 1
    ensures t.Items()[l][k] == t.Phase(l, k)
  {
  }

  lemma SlotWhenFilled(t: Tree, v: nat, i: nat, x: int, m: Mem)
    requires t.Ok() && v < |t.ops| && i < t.Size() && SlotFilled(t, m, v, i, x)
    requires WfGroup(t.Items()) && PhaseRaceFree(t.Items()) && Phases(t.Items()) > 0
    ensures Read(RunItems(t.Items(), 0, |t.Items()|, GroupView(m, Fresh(t.Items()))).mem, Slot(t.g, v, i)) == x
  {
    hide PhaseRaceFree, RunItems, RunAll, Foot, Tree.Phase, Tree.Program;
    ItemsAt(t, i, 0);
    PhaseTouchesSlot(t, i, 0, v);
    CellOfItem(t.Items(), 0, GroupView(m, Fresh(t.Items())), i, Slot(t.g, v, i));
    PhaseRun(t, i, 0, v, View(map[], m));
  }

  lemma SlotWhenCombined(t: Tree, s: GroupView, v: nat, i: nat, k: nat)
    requires t.Ok() && v < |t.ops| && 0 < k <= Rounds(t.Size()) && i < Stride(t.Size(), k)
    requires i < t.Size() && |s.regs| == |t.Items()| == t.Size()
    requires WfGroup(t.Items()) && PhaseRaceFree(t.Items()) && k < Phases(t.Items())
    ensures Read(RunItems(t.Items(), k, |t.Items()|, s).mem, Slot(t.g, v, i))
         == Apply(t.ops[v], Read(s.mem, Slot(t.g, v, i)), Read(s.mem, Slot(t.g, v, i + Stride(t.Size(), k))))
  {
    hide PhaseRaceFree, RunItems, RunAll, Foot, Tree.Phase, Tree.Program, Tree.Items;
    ItemsAt(t, i, k);
    PhaseTouchesSlot(t, i, k, v);
    CellOfItem(t.Items(), k, s, i, Slot(t.g, v, i));
    PhaseRun(t, i, k, v, View(s.regs[i], s.mem));
  }

  lemma SlotWhenIdle(t: Tree, s: GroupView, v: nat, i: nat, k: nat, inputs: set<Addr>)
    requires t.Ok() && FillOk(t, inputs) && v < |t.ops| && 0 < k <= Rounds(t.Size()) && Stride(t.Size(), k) <= i < t.Size()
    requires |s.regs| == |t.Items()| == t.Size()
    requires WfGroup(t.Items()) && PhaseRaceFree(t.Items()) && k < Phases(t.Items())
    ensures Read(RunItems(t.Items(), k, |t.Items()|, s).mem, Slot(t.g, v, i)) == Read(s.mem, Slot(t.g, v, i))
  {
    hide PhaseRaceFree, RunItems, RunAll, Foot, Writes, Tree.Phase, Tree.Program, Tree.Items, FillOk;
    forall l | 0 <= l < t.Size() ensures Slot(t.g, v, i) !in Writes(t.Items()[l][k]) {
      ItemsAt(t, l, k);
      PhaseFoot(t, l, k, inputs);
    }
    CellOfNone(t.Items(), k, s, Slot(t.g, v, i));
  }

  lemma SlotAfterFill(t: Tree, m: Mem, vals: seq<seq<int>>, v: nat, i: nat)
    requires t.Ok() && Fills(t, m, vals) && v < |vals| && i < t.Size()
    requires WfGroup(t.Items()) && PhaseRaceFree(t.Items()) && 0 < Phases(t.Items())
    ensures Read(At(t.Items(), 1, m).mem, Slot(t.g, v, i)) == Slots(t.ops[v], vals[v], 0)[i]
  {
    hide PhaseRaceFree, RunItems, RunAll, Tree.Phase, Tree.Program, Tree.Items, At, Rounds, SlotFilled;
    AtNext(t.Items(), 0, m);
    AtStart(t.Items(), m);
    assert SlotFilled(t, m, v, i, vals[v][i]);
    SlotWhenFilled(t, v, i, vals[v][i], m);
  }

  lemma SlotAfterRound(t: Tree, m: Mem, vals: seq<seq<int>>, inputs: set<Addr>, k: nat, v: nat, i: nat)
    requires t.Ok() && FillOk(t, inputs) && Fills(t, m, vals) && 0 < k <= Rounds(t.Size())
    requires v < |vals| && i < t.Size()
    requires WfGroup(t.Items()) && PhaseRaceFree(t.Items()) && k < Phases(t.Items()) && |t.Items()| == t.Size()
    requires SlotsAt(t, vals, k - 1, At(t.Items(), k, m).mem)
    ensures Read(At(t.Items(), k + 1, m).mem, Slot(t.g, v, i)) == Slots(t.ops[v], vals[v], k)[i]
  {
    hide PhaseRaceFree, RunItems, RunAll, Tree.Phase, Tree.Program, Tree.Items, FillOk, At, Apply, Stride, Read, Slots, Rounds, SlotFilled;
    AtNext(t.Items(), k, m);
    SlotsCell(t.ops[v], vals[v], k, i);
    if i < Stride(t.Size(), k) {
      SlotWhenCombined(t, At(t.Items(), k, m), v, i, k);
    } else {
      SlotWhenIdle(t, At(t.Items(), k, m), v, i, k, inputs);
    }
  }

  lemma {:induction false} SlotsAfterPhase(t: Tree, m: Mem, vals: seq<seq<int>>, inputs: set<Addr>, k: nat)
    requires t.Ok() && FillOk(t, inputs) && Fills(t, m, vals) && k <= Rounds(t.Size())
    ensures WfGroup(t.Items()) && k < Phases(t.Items())
    ensures SlotsAt(t, vals, k, At(t.Items(), k + 1, m).mem)
  {
    hide PhaseRaceFree, Tree.Phase, Tree.Program, Tree.Items, FillOk, At, Slots;
    TreeHasNoRaces(t, inputs);
    ItemsAt(t, 0, k);
    if k > 0 { SlotsAfterPhase(t, m, vals, inputs, k - 1); }
    forall v, i | 0 <= v < |vals| && 0 <= i < t.Size()
      ensures Read(At(t.Items(), k + 1, m).mem, Slot(t.g, v, i)) == Slots(t.ops[v], vals[v], k)[i]
    {
      if k == 0 {
        SlotAfterFill(t, m, vals, v, i);
      } else {
        SlotAfterRound(t, m, vals, inputs, k, v, i);
      }
    }
  }

  /** A group run on its own leaves TreeSum.Result of its values in each partial-sum
      buffer, whatever the group size and the number of reduction variables. */
  lemma TreePublishesResult(t: Tree, m: Mem, vals: seq<seq<int>>, inputs: set<Addr>, v: nat)
    requires t.Ok() && FillOk(t, inputs) && Fills(t, m, vals) && v < |t.ops|
    ensures WfGroup(t.Items()) && PhaseRaceFree(t.Items())
    ensures Global(t.outs[v], t.g, 0) in Touch(t.Items())
    ensures Read(At(t.Items(), Phases(t.Items()), m).mem, Global(t.outs[v], t.g, 0)) == Result(t.ops[v], vals[v])
  {
    hide Writes, Foot, PhaseRaceFree, RunItems, FillOk, RunAll, Tree.Phase, Tree.Program, Tree.Items, Touch, Slots;
    var k := Rounds(t.Size());
    TreeHasNoRaces(t, inputs);
    ItemsAt(t, 0, k);
    SlotsAfterPhase(t, m, vals, inputs, k);
    var s := At(t.Items(), k, m);
    ResultPlaces(t, k, v, m, vals);
    CellOfItem(t.Items(), k, s, 0, Global(t.outs[v], t.g, 0));
    CellOfItem(t.Items(), k, s, 0, Slot(t.g, v, 0));
    PhaseRun(t, 0, k, v, View(s.regs[0], s.mem));
    ItemInGroup(t.Items(), 0, k);
  }

  lemma ResultPlaces(t: Tree, k: nat, v: nat, m: Mem, vals: seq<seq<int>>)
    requires t.Ok() && k == Rounds(t.Size()) && v < |t.ops| && Fills(t, m, vals)
    ensures Global(t.outs[v], t.g, 0) in Foot(t.Phase(0, k))
    ensures Slot(t.g, v, 0) in Foot(t.Phase(0, k))
  {
    var c := t.Core(0, k);
    FootConcat(c, Publish(t.g, t.outs, |t.outs|, |t.ops|));
    PublishTouches(t.g, t.outs, |t.outs|, |t.ops|, v);
    LastStride(t.Size());
    assert SlotFilled(t, m, v, 0, vals[v][0]);
    PhaseTouchesSlot(t, 0, k, v);
  }

  // ----- launches of tree groups -----

  /** Group g of a launch is trees[g]; all groups agree on everything but their fill code. */
  ghost predicate Uniform(trees: seq<Tree>, ops: seq<BinOp>, outs: seq<nat>, size: nat, inputs: set<Addr>) {
    forall g :: 0 <= g < |trees| ==>
      var t := trees[g];
      t.Ok() && t.g == g && t.ops == ops && t.outs == outs && t.Size() == size && FillOk(t, inputs)
  }

  function LaunchOf(trees: seq<Tree>): (L: Launch)
    requires forall g :: 0 <= g < |trees| ==> trees[g].Ok()
    ensures |L| == |trees|
  {
    seq(|trees|, g requires 0 <= g < |trees| => trees[g].Items())
  }

  /** The cells a launch needs: local slots for every item and variable, one partial
      result per group and variable, and the inputs. */
  ghost predicate LaunchCells(V: nat, outs: seq<nat>, size: nat, groups: nat, inputs: set<Addr>, m: Mem) {
    && (forall g, v, i :: 0 <= g < groups && 0 <= v < V && 0 <= i < size ==> Slot(g, v, i) in m)
    && (forall v, g :: 0 <= v < |outs| && 0 <= g < groups ==> Global(outs[v], g, 0) in m)
    && inputs <= m.Keys
  }

  ghost predicate MayWrite(g: nat, outs: seq<nat>, a: Addr) {
    (a.Local? && a.group == g) || PartialOf(g, outs, a)
  }

  lemma GroupIsSafe(trees: seq<Tree>, ops: seq<BinOp>, outs: seq<nat>, size: nat, inputs: set<Addr>, m: Mem, g: nat)
    requires g < |trees| && Uniform(trees, ops, outs, size, inputs) && LaunchCells(|ops|, outs, size, |trees|, inputs, m)
    ensures var G := LaunchOf(trees)[g];
      && WfGroup(G) && PhaseRaceFree(G)
      && (forall a :: a in Touch(G) ==> a in m && (MayWrite(g, outs, a) || a in inputs))
      && (forall a :: a in GroupWrites(G) ==> MayWrite(g, outs, a))
  {
    var t := trees[g];
    hide WfGroup, PhaseRaceFree, Touch, GroupWrites, FillOk, Tree.Items;
    TreeHasNoRaces(t, inputs);
    TreeTouch(t, inputs);
    forall a | a in Touch(t.Items()) ensures a in m {
      if a.Local? {
        assert a == Slot(g, a.buf, a.i);
      } else if a !in inputs {
        var v :| 0 <= v < |outs| && outs[v] == a.buf;
        assert a == Global(outs[v], g, 0);
      }
    }
  }

  lemma LaunchIsSafe(trees: seq<Tree>, ops: seq<BinOp>, outs: seq<nat>, size: nat, inputs: set<Addr>, m: Mem)
    requires Uniform(trees, ops, outs, size, inputs) && LaunchCells(|ops|, outs, size, |trees|, inputs, m)
    ensures var L := LaunchOf(trees); WfLaunch(L) && RaceFree(L) && InBounds(L, m)
  {
    hide WfGroup, PhaseRaceFree, Touch, GroupWrites, FillOk, LaunchOf;
    var L := LaunchOf(trees);
    forall g | 0 <= g < |trees|
      ensures WfGroup(L[g]) && PhaseRaceFree(L[g])
      ensures forall a :: a in Touch(L[g]) ==> a in m && (MayWrite(g, outs, a) || a in inputs)
      ensures forall a :: a in GroupWrites(L[g]) ==> MayWrite(g, outs, a) && a !in inputs
    {
      GroupIsSafe(trees, ops, outs, size, inputs, m, g);
      InputsAreNotOutputs(trees[g], inputs);
    }
  }

  lemma InputsAreNotOutputs(t: Tree, inputs: set<Addr>)
    requires FillOk(t, inputs)
    ensures forall a :: a in inputs ==> a.Global? && a.buf !in t.outs
  {
  }

  /** In every run of a tree launch, whatever the interleaving, a group's partial
      result is TreeSum.Result of its values. */
  lemma LaunchResult(trees: seq<Tree>, ops: seq<BinOp>, outs: seq<nat>, size: nat, inputs: set<Addr>, m: Mem, m': Mem,
                     g: nat, vals: seq<seq<int>>, v: nat)
    requires Uniform(trees, ops, outs, size, inputs)
    requires g < |trees| && v < |ops| && Fills(trees[g], m, vals)
    requires WfLaunch(LaunchOf(trees)) && Outcome(LaunchOf(trees), |trees|, m, m')
    ensures |vals| == |ops| && |vals[v]| == size > 0
    ensures Read(m', Global(outs[v], g, 0)) == Result(ops[v], vals[v])
  {
    hide WfGroup, PhaseRaceFree, Touch, GroupWrites, FillOk, Tree.Items, Result, At;
    var L := LaunchOf(trees);
    TreePublishesResult(trees[g], m, vals, inputs, v);
    assert Agree(Touch(L[g]), m', At(L[g], Phases(L[g]), m).mem);
  }

  /** Nor does any other global cell change. */
  lemma LaunchKeeps(trees: seq<Tree>, ops: seq<BinOp>, outs: seq<nat>, size: nat, inputs: set<Addr>, m: Mem, m': Mem)
    requires Uniform(trees, ops, outs, size, inputs) && LaunchCells(|ops|, outs, size, |trees|, inputs, m)
    requires WfLaunch(LaunchOf(trees)) && Outcome(LaunchOf(trees), |trees|, m, m')
    ensures forall a: Addr :: a.Global? && a.buf !in outs ==> Read(m', a) == Read(m, a)
    ensures m'.Keys == m.Keys
  {
    hide WfGroup, PhaseRaceFree, Touch, GroupWrites, FillOk, Tree.Items;
    forall a: Addr, g | a.Global? && a.buf !in outs && 0 <= g < |trees| ensures a !in GroupWrites(LaunchOf(trees)[g]) {
      GroupIsSafe(trees, ops, outs, size, inputs, m, g);
    }
  }

  /** Local accessors come with arbitrary contents. */
  function WithLocals(m: Mem, V: nat, groups: nat, size: nat, scratch: Addr -> int): Mem {
    m + map g, v, i | 0 <= g < groups && 0 <= v < V && 0 <= i < size :: Slot(g, v, i) := scratch(Slot(g, v, i))
  }

  lemma LocalsAreThere(m: Mem, V: nat, groups: nat, size: nat, scratch: Addr -> int)
    ensures var m' := WithLocals(m, V, groups, size, scratch);
      && (forall g, v, i :: 0 <= g < groups && 0 <= v < V && 0 <= i < size ==> Slot(g, v, i) in m')
      && (forall a: Addr :: a.Global? ==> (a in m' <==> a in m) && Read(m', a) == Read(m, a))
  {
  }
}
