/** Replacing the sentinel of a kernel stub by the body of a parallel loop.  The spliced
    control-flow graph runs exactly as the stub does when every arrival at the sentinel
    executes the body once. */
module Splice {
  import opened Options

  type Label = nat
  type Store = map<string, int>

  datatype Inst =
    | Assign(target: string, value: nat)
    | Jump(to: Label)
    | Branch(cond: string, yes: Label, no: Label)
    | Return(result: string)

  type Block = seq<Inst>
  type Cfg = map<Label, Block>

  /** What assignments and conditions mean is left open. */
  datatype Sem = Sem(effect: (string, nat, Store) -> Store, test: (string, Store) -> bool)

  // ----- the transformation -----

  datatype Place = Place(lbl: Label, index: nat)

  predicate Marks(inst: Inst, sentinel: string) { inst.Assign? && inst.target == sentinel }

  predicate NoMark(block: Block, sentinel: string) { forall i :: 0 <= i < |block| ==> !Marks(block[i], sentinel) }

  /** The first marked instruction, blocks taken in the given order. */
  ghost predicate IsFirst(order: seq<Label>, blocks: Cfg, sentinel: string, p: Place)
    requires forall k :: 0 <= k < |order| ==> order[k] in blocks
  {
    exists n :: 0 <= n < |order| && order[n] == p.lbl
      && p.index < |blocks[p.lbl]| && Marks(blocks[p.lbl][p.index], sentinel)
      && (forall i :: 0 <= i < p.index ==> !Marks(blocks[p.lbl][i], sentinel))
      && (forall k :: 0 <= k < n ==> NoMark(blocks[order[k]], sentinel))
  }

  ghost predicate IsMin(m: Label, keys: set<Label>) { m in keys && forall k :: k in keys ==> m <= k }
  ghost predicate IsMax(m: Label, keys: set<Label>) { m in keys && forall k :: k in keys ==> k <= m }

  /** The block of p cut at p, the body in between; first and last are the body's
      entry and exit labels. */
  function Spliced(stub: Cfg, p: Place, body: Cfg, first: Label, last: Label, newLabel: Label): Cfg
    requires p.lbl in stub && p.index < |stub[p.lbl]| && last in body
  {
    var b := stub[p.lbl];
    var joined := (stub + body)[newLabel := b[p.index + 1..]][p.lbl := b[..p.index] + [Jump(first)]];
    joined[last := joined[last] + [Jump(newLabel)]]
  }

  function ShiftInst(i: Inst, k: nat): Inst {
    match i
    case Jump(l) => Jump(l + k)
    case Branch(x, l, l') => Branch(x, l + k, l' + k)
    case _ => i
  }

  function ShiftBlock(b: Block, k: nat): (r: Block)
    ensures |r| == |b|
  {
    seq(|b|, i requires 0 <= i < |b| => ShiftInst(b[i], k))
  }

  function ShiftKeys(keys: set<Label>, k: nat): set<Label> { set l | l in keys :: l + k }

  function ShiftLabels(g: Cfg, k: nat): Cfg { map l | l in ShiftKeys(g.Keys, k) :: ShiftBlock(g[l - k], k) }

  /** Stub and body as update_sentinel gets them. */
  datatype Site = Site(stub: Cfg, p: Place, body: Cfg, first: Label, last: Label, newLabel: Label)

  function Result(t: Site): Cfg
    requires t.p.lbl in t.stub && t.p.index < |t.stub[t.p.lbl]| && t.last in t.body
  {
    Spliced(t.stub, t.p, t.body, t.first, t.last, t.newLabel)
  }

  /** What run_pass hands to update_sentinel: body labels behind the stub's, the new lbl
      behind both. */
  function PassSite(stub: Cfg, p: Place, body: Cfg, first: Label, last: Label, stubMax: Label): Site {
    Site(stub, p, ShiftLabels(body, stubMax + 1), first + stubMax + 1, last + stubMax + 1, last + stubMax + 2)
  }

  class KernelIR {
    var blocks: Cfg
    var order: seq<Label>

    ghost predicate Valid() reads this {
      && (forall k :: 0 <= k < |order| ==> order[k] in blocks)
      && (forall l :: l in blocks ==> l in order)
    }

    /** Splits the block holding the sentinel and splices the body in; a stub without
        sentinel is left alone. */
    method UpdateSentinel(sentinel: string, body: Cfg, bodyOrder: seq<Label>, newLabel: Label)
      requires Valid()
      requires bodyOrder != [] && forall l :: l in bodyOrder <==> l in body
      modifies this`blocks
      ensures (forall l :: l in old(blocks) ==> NoMark(old(blocks)[l], sentinel)) ==> blocks == old(blocks)
      ensures forall p, first, last ::
        IsFirst(order, old(blocks), sentinel, p) && IsMin(first, body.Keys) && IsMax(last, body.Keys) ==>
        blocks == Spliced(old(blocks), p, body, first, last, newLabel)
    {
      hide Spliced;
      for n := 0 to |order|
        invariant forall k :: 0 <= k < n ==> NoMark(blocks[order[k]], sentinel)
      {
        var block := blocks[order[n]];
        for i := 0 to |block|
          invariant forall j :: 0 <= j < i ==> !Marks(block[j], sentinel)
        {
          if Marks(block[i], sentinel) {
            FirstIsUnique(order, blocks, sentinel, n, i);
            SpliceAt(order[n], i, body, bodyOrder, newLabel);
            return;
          }
        }
      }
      forall l | l in blocks ensures NoMark(blocks[l], sentinel) {
        var k :| 0 <= k < |order| && order[k] == l;
      }
    }

    /** Splits the block at instruction i and splices the body in. */
    method SpliceAt(lbl: Label, i: nat, body: Cfg, bodyOrder: seq<Label>, newLabel: Label)
      requires lbl in blocks && i < |blocks[lbl]|
      requires bodyOrder != [] && forall l :: l in bodyOrder <==> l in body
      modifies this`blocks
      ensures forall first, last :: IsMin(first, body.Keys) && IsMax(last, body.Keys) ==>
                                      blocks == Spliced(old(blocks), Place(lbl, i), body, first, last, newLabel)
    {
      var block := blocks[lbl];
      var first, last := MinMax(bodyOrder);
      var prevBlock := block[..i] + [Jump(first)];
      AddBlocks(body, bodyOrder);
      blocks := blocks[newLabel := block[i + 1..]];
      blocks := blocks[lbl := prevBlock];
      blocks := blocks[last := blocks[last] + [Jump(newLabel)]];
    }

    /** The pass: body labels shifted behind the stub's last label, a new label behind
        those, then the splice. */
    method RunPass(sentinel: string, body: Cfg, bodyOrder: seq<Label>)
      requires Valid() && order != []
      requires bodyOrder != [] && forall l :: l in bodyOrder <==> l in body
      modifies this`blocks
      ensures forall p, first, last, stubMax ::
        IsFirst(order, old(blocks), sentinel, p) && IsMin(first, body.Keys) && IsMax(last, body.Keys) && IsMax(stubMax, old(blocks).Keys) ==>
        blocks == Result(PassSite(old(blocks), p, body, first, last, stubMax))
      ensures forall p, first, last, sem, entry, s, s' ::
        IsFirst(order, old(blocks), sentinel, p) && IsMin(first, body.Keys) && IsMax(last, body.Keys)
        && Closed(old(blocks)) && Closed(body) && NoReturns(body) && entry in old(blocks) ==>
        SameResults(Original(old(blocks), p, body, first, last), blocks, sem, entry, s, s')
    {
      hide ShiftLabels, Spliced;
      var _, kernelStubLastLabel := MinMax(order);
      kernelStubLastLabel := kernelStubLastLabel + 1;
      var k := kernelStubLastLabel;
      var shifted := ShiftLabels(body, k);
      var shiftedOrder := seq(|bodyOrder|, n requires 0 <= n < |bodyOrder| => bodyOrder[n] + k);
      ShiftedOrder(body, bodyOrder, k, shiftedOrder);
      var _, newLabel := MinMax(shiftedOrder);
      UpdateSentinel(sentinel, shifted, shiftedOrder, newLabel + 1);
      ghost var before := old(blocks);
      forall p: Place, first: Label, last: Label, stubMax: Label |
        IsFirst(order, before, sentinel, p) && IsMin(first, body.Keys) && IsMax(last, body.Keys) && IsMax(stubMax, before.Keys)
        ensures blocks == Result(PassSite(before, p, body, first, last, stubMax))
      {
        ShiftedBounds(body, k, first, last);
        assert stubMax in order && stubMax + 1 == k;
        assert last + k in shiftedOrder;
      }
      hide Result, PassSite, Original, SameResults, Closed, NoReturns;
      var stubMax := kernelStubLastLabel - 1;
      forall p: Place, first: Label, last: Label, sem: Sem, entry: Label, s: Store, s': Store |
        IsFirst(order, before, sentinel, p) && IsMin(first, body.Keys) && IsMax(last, body.Keys)
        && Closed(before) && Closed(body) && NoReturns(body) && entry in before
        ensures SameResults(Original(before, p, body, first, last), blocks, sem, entry, s, s')
      {
        assert IsMax(stubMax, before.Keys);
        PassPreservesResults(before, p, body, first, last, stubMax, sem, entry, s, s');
      }
    }

    method AddBlocks(body: Cfg, bodyOrder: seq<Label>)
      requires forall l :: l in bodyOrder <==> l in body
      modifies this`blocks
      ensures blocks == old(blocks) + body
    {
      for n := 0 to |bodyOrder|
        invariant forall l :: l in blocks <==> l in old(blocks) || l in bodyOrder[..n]
        invariant forall l :: l in blocks ==> blocks[l] == if l in bodyOrder[..n] then body[l] else old(blocks)[l]
      {
        blocks := blocks[bodyOrder[n] := body[bodyOrder[n]]];
        assert bodyOrder[..n + 1] == bodyOrder[..n] + [bodyOrder[n]];
      }
      assert bodyOrder[..|bodyOrder|] == bodyOrder;
    }
  }

  lemma FirstIsUnique(order: seq<Label>, blocks: Cfg, sentinel: string, n: nat, i: nat)
    requires (forall k :: 0 <= k < |order| ==> order[k] in blocks) && n < |order|
    requires i < |blocks[order[n]]| && Marks(blocks[order[n]][i], sentinel)
    requires forall j :: 0 <= j < i ==> !Marks(blocks[order[n]][j], sentinel)
    requires forall k :: 0 <= k < n ==> NoMark(blocks[order[k]], sentinel)
    ensures forall q :: IsFirst(order, blocks, sentinel, q) <==> q == Place(order[n], i)
  {
  }

  lemma ShiftedOrder(body: Cfg, bodyOrder: seq<Label>, k: nat, shiftedOrder: seq<Label>)
    requires forall l :: l in bodyOrder <==> l in body
    requires |shiftedOrder| == |bodyOrder| && forall n :: 0 <= n < |bodyOrder| ==> shiftedOrder[n] == bodyOrder[n] + k
    ensures forall l :: l in shiftedOrder <==> l in ShiftLabels(body, k)
  {
    forall l | l in ShiftLabels(body, k) ensures l in shiftedOrder {
      assert l - k in bodyOrder;
      var n :| 0 <= n < |bodyOrder| && bodyOrder[n] == l - k;
      assert shiftedOrder[n] == l;
    }
    forall l | l in shiftedOrder ensures l in ShiftLabels(body, k) {
      var n :| 0 <= n < |bodyOrder| && shiftedOrder[n] == l;
      assert bodyOrder[n] in body;
    }
  }

  lemma ShiftedBounds(body: Cfg, k: nat, first: Label, last: Label)
    requires IsMin(first, body.Keys) && IsMax(last, body.Keys)
    ensures IsMin(first + k, ShiftLabels(body, k).Keys) && IsMax(last + k, ShiftLabels(body, k).Keys)
  {
  }

  method MinMax(xs: seq<Label>) returns (lo: Label, hi: Label)
    requires xs != []
    ensures lo in xs && hi in xs && forall x :: x in xs ==> lo <= x <= hi
  {
    lo, hi := xs[0], xs[0];
    for n := 1 to |xs|
      invariant lo in xs && hi in xs
      invariant forall x :: x in xs[..n] ==> lo <= x <= hi
    {
      if xs[n] < lo { lo := xs[n]; }
      if xs[n] > hi { hi := xs[n]; }
      assert xs[..n + 1] == xs[..n] + [xs[n]];
    }
    assert xs[..|xs|] == xs;
  }

  // ----- execution -----

  /** Exited: control ran off the end of the block that is the graph's exit. */
  datatype Config = At(lbl: Label, pc: nat, store: Store) | Halted(store: Store) | Exited(store: Store) | Stuck

  function Step(g: Cfg, exit: Option<Label>, sem: Sem, c: Config): Config {
    if !c.At? then c
    else if c.lbl !in g then Stuck
    else if c.pc >= |g[c.lbl]| then
      if exit == Some(c.lbl) && c.pc == |g[c.lbl]| then Exited(c.store) else Stuck
    else
      match g[c.lbl][c.pc]
      case Assign(x, v) => At(c.lbl, c.pc + 1, sem.effect(x, v, c.store))
      case Jump(l) => At(l, 0, c.store)
      case Branch(x, yes, no) => At(if sem.test(x, c.store) then yes else no, 0, c.store)
      case Return(_) => Halted(c.store)
  }

  function Steps(g: Cfg, exit: Option<Label>, sem: Sem, c: Config, n: nat): Config {
    if n == 0 then c else Step(g, exit, sem, Steps(g, exit, sem, c, n - 1))
  }

  predicate Inside(i: Inst, labels: set<Label>) {
    match i
    case Jump(l) => l in labels
    case Branch(_, l, l') => l in labels && l' in labels
    case _ => true
  }

  ghost predicate Closed(g: Cfg) {
    forall l, i :: l in g && 0 <= i < |g[l]| ==> Inside(g[l][i], g.Keys)
  }

  /** A loop body leaves only over the end of its last block. */
  ghost predicate NoReturns(g: Cfg) {
    forall l, i :: l in g && 0 <= i < |g[l]| ==> !g[l][i].Return?
  }

  ghost predicate WellFormed(t: Site) {
    && t.p.lbl in t.stub && t.p.index < |t.stub[t.p.lbl]| && t.first in t.body && t.last in t.body
    && t.stub[t.p.lbl][t.p.index].Assign?
    && t.stub.Keys !! t.body.Keys && t.newLabel !in t.stub && t.newLabel !in t.body
    && Closed(t.stub) && Closed(t.body) && NoReturns(t.body)
  }

  predicate AtSentinel(t: Site, c: Config) { c.At? && c.lbl == t.p.lbl && c.pc == t.p.index }

  function BodySteps(t: Site, sem: Sem, s: Store, n: nat): Config {
    Steps(t.body, Some(t.last), sem, At(t.first, 0, s), n)
  }

  /** The body, started in s, finishes in s'. */
  ghost predicate BodyRuns(t: Site, sem: Sem, s: Store, s': Store) { exists n :: BodySteps(t, sem, s, n) == Exited(s') }

  /** One step of the stub, in which the sentinel stands for a whole run of the body. */
  ghost predicate StubStep(t: Site, sem: Sem, c: Config, c': Config) {
    if AtSentinel(t, c) then
      c'.At? && c' == At(c.lbl, c.pc + 1, c'.store) && BodyRuns(t, sem, c.store, c'.store)
    else c' == Step(t.stub, None, sem, c)
  }

  ghost predicate StubReaches(t: Site, sem: Sem, c: Config, c': Config, n: nat)
    decreases n
  {
    if n == 0 then c == c' else exists mid :: StubReaches(t, sem, c, mid, n - 1) && StubStep(t, sem, mid, c')
  }

  // ----- the simulation -----

  /** Where a stub configuration lives in the spliced graph. */
  function Image(t: Site, c: Config): Config {
    if c.At? && c.lbl == t.p.lbl && c.pc > t.p.index then At(t.newLabel, c.pc - t.p.index - 1, c.store) else c
  }

  /** Where a body configuration lives there: leaving the body is arriving behind the sentinel. */
  function Embed(t: Site, e: Config): Config { if e.Exited? then At(t.newLabel, 0, e.store) else e }

  ghost predicate InStub(t: Site, c: Config) { c.Halted? || c.Stuck? || (c.At? && c.lbl in t.stub) }
  ghost predicate InBody(t: Site, e: Config) { !e.Halted? && (e.At? ==> e.lbl in t.body && e.pc <= |t.body[e.lbl]|) }

  lemma StubStepMatches(t: Site, sem: Sem, c: Config)
    requires WellFormed(t) && InStub(t, c) && !AtSentinel(t, c)
    ensures InStub(t, Step(t.stub, None, sem, c))
    ensures Step(Result(t), None, sem, Image(t, c)) == Image(t, Step(t.stub, None, sem, c))
  {
    if c.At? && c.pc < |t.stub[c.lbl]| {
      assert Inside(t.stub[c.lbl][c.pc], t.stub.Keys);
    }
  }

  lemma BodyStepMatches(t: Site, sem: Sem, e: Config)
    requires WellFormed(t) && InBody(t, e) && !e.Exited?
    ensures InBody(t, Step(t.body, Some(t.last), sem, e))
    ensures Step(Result(t), None, sem, Embed(t, e)) == Embed(t, Step(t.body, Some(t.last), sem, e))
  {
    if e.At? && e.pc < |t.body[e.lbl]| {
      assert Inside(t.body[e.lbl][e.pc], t.body.Keys) && !t.body[e.lbl][e.pc].Return?;
    }
  }

  lemma {:induction false} BodyStaysInBody(t: Site, sem: Sem, s: Store, n: nat)
    requires WellFormed(t)
    ensures InBody(t, BodySteps(t, sem, s, n))
  {
    if n > 0 {
      BodyStaysInBody(t, sem, s, n - 1);
      var e := BodySteps(t, sem, s, n - 1);
      if !e.Exited? { BodyStepMatches(t, sem, e); }
    }
  }

  /** Until the body is left, the spliced graph does what the body does. */
  lemma {:induction false} BodyMatches(t: Site, sem: Sem, s: Store, n: nat)
    requires WellFormed(t)
    requires forall j :: 0 <= j < n ==> !BodySteps(t, sem, s, j).Exited?
    ensures Steps(Result(t), None, sem, At(t.first, 0, s), n) == Embed(t, BodySteps(t, sem, s, n))
  {
    if n > 0 {
      BodyMatches(t, sem, s, n - 1);
      BodyStaysInBody(t, sem, s, n - 1);
      assert !BodySteps(t, sem, s, n - 1).Exited?;
      BodyStepMatches(t, sem, BodySteps(t, sem, s, n - 1));
    }
  }

  lemma {:induction false} FirstExit(t: Site, sem: Sem, s: Store, n: nat) returns (k: nat)
    requires BodySteps(t, sem, s, n).Exited?
    ensures k <= n && BodySteps(t, sem, s, k) == BodySteps(t, sem, s, n)
    ensures forall j :: 0 <= j < k ==> !BodySteps(t, sem, s, j).Exited?
  {
    k := n;
    while k > 0 && BodySteps(t, sem, s, k - 1).Exited?
      invariant k <= n && BodySteps(t, sem, s, k) == BodySteps(t, sem, s, n)
    {
      k := k - 1;
    }
    forall j | 0 <= j < k ensures !BodySteps(t, sem, s, j).Exited? {
      if BodySteps(t, sem, s, j).Exited? { ExitLasts(t, sem, s, j, k - 1); }
    }
  }

  lemma {:induction false} ExitLasts(t: Site, sem: Sem, s: Store, j: nat, n: nat)
    requires j <= n && BodySteps(t, sem, s, j).Exited?
    ensures BodySteps(t, sem, s, n) == BodySteps(t, sem, s, j)
  {
    if j < n { ExitLasts(t, sem, s, j, n - 1); }
  }

  lemma {:induction false} StepsAdd(g: Cfg, exit: Option<Label>, sem: Sem, c: Config, m: nat, n: nat)
    ensures Steps(g, exit, sem, c, m + n) == Steps(g, exit, sem, Steps(g, exit, sem, c, m), n)
  {
    if n > 0 { StepsAdd(g, exit, sem, c, m, n - 1); }
  }

  lemma EnterBody(t: Site, sem: Sem, c: Config)
    requires WellFormed(t) && AtSentinel(t, c)
    ensures Step(Result(t), None, sem, Image(t, c)) == At(t.first, 0, c.store)
  {
  }

  /** One step of the stub is some number of steps of the spliced graph. */
  lemma StubStepIsRun(t: Site, sem: Sem, c: Config, c': Config) returns (n: nat)
    requires WellFormed(t) && InStub(t, c) && StubStep(t, sem, c, c')
    ensures InStub(t, c') && Steps(Result(t), None, sem, Image(t, c), n) == Image(t, c')
  {
    hide Step, Result, Closed, NoReturns;
    if AtSentinel(t, c) {
      var m :| BodySteps(t, sem, c.store, m) == Exited(c'.store);
      var k := FirstExit(t, sem, c.store, m);
      BodyMatches(t, sem, c.store, k);
      EnterBody(t, sem, c);
      n := 1 + k;
      StepsAdd(Result(t), None, sem, Image(t, c), 1, k);
      assert Steps(Result(t), None, sem, Image(t, c), 0) == Image(t, c);
    } else {
      StubStepMatches(t, sem, c);
      n := 1;
      assert Steps(Result(t), None, sem, Image(t, c), 0) == Image(t, c);
    }
  }

  /** Every run of the stub is a run of the spliced graph. */
  lemma {:induction false} StubRunsAreSplicedRuns(t: Site, sem: Sem, c: Config, c': Config, k: nat) returns (n: nat)
    requires WellFormed(t) && InStub(t, c) && StubReaches(t, sem, c, c', k)
    ensures InStub(t, c') && Steps(Result(t), None, sem, Image(t, c), n) == Image(t, c')
    decreases k
  {
    hide Step, Result, Closed, NoReturns, StubStep;
    if k == 0 {
      n := 0;
    } else {
      var mid :| StubReaches(t, sem, c, mid, k - 1) && StubStep(t, sem, mid, c');
      var a := StubRunsAreSplicedRuns(t, sem, c, mid, k - 1);
      var b := StubStepIsRun(t, sem, mid, c');
      StepsAdd(Result(t), None, sem, Image(t, c), a, b);
      n := a + b;
    }
  }

  /** d, in the spliced graph, is where the stub is at c: at its image, or somewhere in
      the run of the body that the sentinel at c stands for. */
  ghost predicate Follows(t: Site, sem: Sem, d: Config, c: Config) {
    d == Image(t, c) || (AtSentinel(t, c) && exists j: nat :: Underway(t, sem, c.store, j, d))
  }

  ghost predicate Underway(t: Site, sem: Sem, s: Store, j: nat, d: Config) {
    d == BodySteps(t, sem, s, j) && !d.Exited?
  }

  lemma FollowStep(t: Site, sem: Sem, d: Config, c: Config) returns (c': Config)
    requires WellFormed(t) && InStub(t, c) && Follows(t, sem, d, c)
    ensures InStub(t, c') && Follows(t, sem, Step(Result(t), None, sem, d), c')
    ensures c' == c || StubStep(t, sem, c, c')
  {
    if d == Image(t, c) && !AtSentinel(t, c) {
      StubStepMatches(t, sem, c);
      c' := Step(t.stub, None, sem, c);
    } else if d == Image(t, c) {
      EnterBody(t, sem, c);
      c' := c;
      assert Underway(t, sem, c.store, 0, At(t.first, 0, c.store));
    } else {
      var j: nat :| Underway(t, sem, c.store, j, d);
      BodyStaysInBody(t, sem, c.store, j);
      BodyStepMatches(t, sem, d);
      var e := BodySteps(t, sem, c.store, j + 1);
      if e.Exited? {
        c' := At(c.lbl, c.pc + 1, e.store);
        assert BodyRuns(t, sem, c.store, e.store);
      } else {
        c' := c;
        assert Underway(t, sem, c.store, j + 1, Step(Result(t), None, sem, d));
      }
    }
  }

  /** And every prefix of a run of the spliced graph is a run of the stub. */
  lemma {:induction false} SplicedRunsAreStubRuns(t: Site, sem: Sem, c: Config, n: nat) returns (c': Config, k: nat)
    requires WellFormed(t) && InStub(t, c)
    ensures InStub(t, c') && StubReaches(t, sem, c, c', k)
    ensures Follows(t, sem, Steps(Result(t), None, sem, Image(t, c), n), c')
  {
    if n == 0 {
      c', k := c, 0;
    } else {
      var mid, a := SplicedRunsAreStubRuns(t, sem, c, n - 1);
      c' := FollowStep(t, sem, Steps(Result(t), None, sem, Image(t, c), n - 1), mid);
      if c' == mid {
        k := a;
      } else {
        k := a + 1;
        assert StubReaches(t, sem, c, mid, k - 1) && StubStep(t, sem, mid, c');
      }
    }
  }

  /** The graph, entered at entry with s, returns s' within n steps. */
  predicate Returns(g: Cfg, sem: Sem, entry: Label, s: Store, s': Store, n: nat) {
    Steps(g, None, sem, At(entry, 0, s), n) == Halted(s')
  }

  /** So does the stub, its sentinel read as the loop body, in k steps. */
  ghost predicate StubReturns(t: Site, sem: Sem, entry: Label, s: Store, s': Store, k: nat) {
    StubReaches(t, sem, At(entry, 0, s), Halted(s'), k)
  }

  /** The blocks return a store exactly when the stub of the site does. */
  ghost predicate SameResults(t: Site, blocks: Cfg, sem: Sem, entry: Label, s: Store, s': Store) {
    (exists k :: StubReturns(t, sem, entry, s, s', k)) <==> (exists n :: Returns(blocks, sem, entry, s, s', n))
  }

  /** The stub, its sentinel read as the loop body, returns with a store exactly when
      the spliced graph does. */
  lemma SplicePreservesResults(t: Site, sem: Sem, entry: Label, s: Store, s': Store)
    requires WellFormed(t) && entry in t.stub
    ensures SameResults(t, Result(t), sem, entry, s, s')
  {
    var c := At(entry, 0, s);
    assert Image(t, c) == c;
    if k :| StubReturns(t, sem, entry, s, s', k) {
      var n := StubRunsAreSplicedRuns(t, sem, c, Halted(s'), k);
      assert Returns(Result(t), sem, entry, s, s', n);
    }
    if n :| Returns(Result(t), sem, entry, s, s', n) {
      var c', k := SplicedRunsAreStubRuns(t, sem, c, n);
      NotHaltedInBody(t, sem, c', s');
      assert StubReturns(t, sem, entry, s, s', k);
    }
  }

  lemma NotHaltedInBody(t: Site, sem: Sem, c: Config, s: Store)
    requires WellFormed(t) && InStub(t, c) && Follows(t, sem, Halted(s), c)
    ensures c == Halted(s)
  {
    if AtSentinel(t, c) {
      if j: nat :| Underway(t, sem, c.store, j, Halted(s)) { BodyStaysInBody(t, sem, c.store, j); }
    }
  }

  // ----- the pass: moving the body's labels out of the way -----

  function ShiftConfig(c: Config, k: nat): Config { if c.At? then c.(lbl := c.lbl + k) else c }

  lemma ShiftedBlock(g: Cfg, k: nat, l: Label)
    ensures l + k in ShiftLabels(g, k) <==> l in g
    ensures l in g ==> ShiftLabels(g, k)[l + k] == ShiftBlock(g[l], k)
  {
  }

  lemma ShiftedStep(g: Cfg, exit: Label, sem: Sem, c: Config, k: nat)
    ensures Step(ShiftLabels(g, k), Some(exit + k), sem, ShiftConfig(c, k)) == ShiftConfig(Step(g, Some(exit), sem, c), k)
  {
    hide ShiftLabels;
    if c.At? { ShiftedBlock(g, k, c.lbl); }
  }

  lemma {:induction false} ShiftedSteps(g: Cfg, exit: Label, sem: Sem, c: Config, k: nat, n: nat)
    ensures Steps(ShiftLabels(g, k), Some(exit + k), sem, ShiftConfig(c, k), n) == ShiftConfig(Steps(g, Some(exit), sem, c, n), k)
  {
    hide ShiftLabels, Step;
    if n > 0 {
      ShiftedSteps(g, exit, sem, c, k, n - 1);
      ShiftedStep(g, exit, sem, Steps(g, Some(exit), sem, c, n - 1), k);
    }
  }

  lemma PassSiteIsWellFormed(stub: Cfg, p: Place, body: Cfg, first: Label, last: Label, stubMax: Label)
    requires p.lbl in stub && p.index < |stub[p.lbl]| && stub[p.lbl][p.index].Assign?
    requires IsMax(stubMax, stub.Keys) && IsMin(first, body.Keys) && IsMax(last, body.Keys)
    requires Closed(stub) && Closed(body) && NoReturns(body)
    ensures WellFormed(PassSite(stub, p, body, first, last, stubMax))
    ensures var t := PassSite(stub, p, body, first, last, stubMax); IsMin(t.first, t.body.Keys) && IsMax(t.last, t.body.Keys)
    ensures Result(PassSite(stub, p, body, first, last, stubMax)).Keys ==
            stub.Keys + (set l | l in body :: l + stubMax + 1) + {last + stubMax + 2}
  {
    var t := PassSite(stub, p, body, first, last, stubMax);
    forall l, i | l in t.body && 0 <= i < |t.body[l]|
      ensures Inside(t.body[l][i], t.body.Keys) && !t.body[l][i].Return?
    {
      var l0 := l - stubMax - 1;
      assert l0 in body && Inside(body[l0][i], body.Keys) && !body[l0][i].Return?;
      assert t.body[l][i] == ShiftInst(body[l0][i], stubMax + 1);
    }
    assert last + stubMax + 1 in t.body && first + stubMax + 1 in t.body;
  }

  /** The stub with the body as it was before its labels were shifted. */
  function Original(stub: Cfg, p: Place, body: Cfg, first: Label, last: Label): Site {
    Site(stub, p, body, first, last, 0)
  }

  /** The pass keeps the meaning: a run of the original, unshifted body at each arrival at
      the sentinel. */
  lemma PassRunsOriginalBody(stub: Cfg, p: Place, body: Cfg, first: Label, last: Label, stubMax: Label,
                             sem: Sem, s: Store, s': Store)
    ensures BodyRuns(PassSite(stub, p, body, first, last, stubMax), sem, s, s')
       <==> BodyRuns(Original(stub, p, body, first, last), sem, s, s')
  {
    hide Steps, ShiftLabels;
    var t, o := PassSite(stub, p, body, first, last, stubMax), Original(stub, p, body, first, last);
    forall n: nat ensures BodySteps(t, sem, s, n) == Exited(s') <==> BodySteps(o, sem, s, n) == Exited(s') {
      ShiftedSteps(body, last, sem, At(first, 0, s), stubMax + 1, n);
    }
    if n: nat :| BodySteps(o, sem, s, n) == Exited(s') {
      assert BodySteps(t, sem, s, n) == Exited(s');
    }
    if n: nat :| BodySteps(t, sem, s, n) == Exited(s') {
      assert BodySteps(o, sem, s, n) == Exited(s');
    }
  }

  lemma {:induction false} SameReaches(stub: Cfg, p: Place, body: Cfg, first: Label, last: Label, stubMax: Label,
                                       sem: Sem, c: Config, c': Config, n: nat)
    ensures StubReaches(PassSite(stub, p, body, first, last, stubMax), sem, c, c', n)
       <==> StubReaches(Original(stub, p, body, first, last), sem, c, c', n)
    decreases n
  {
    hide StubStep, PassSite;
    var t, o := PassSite(stub, p, body, first, last, stubMax), Original(stub, p, body, first, last);
    if n > 0 {
      forall mid
        ensures StubReaches(t, sem, c, mid, n - 1) <==> StubReaches(o, sem, c, mid, n - 1)
        ensures StubStep(t, sem, mid, c') <==> StubStep(o, sem, mid, c')
      {
        SameReaches(stub, p, body, first, last, stubMax, sem, c, mid, n - 1);
        SameStubStep(stub, p, body, first, last, stubMax, sem, mid, c');
      }
    }
  }

  lemma SameStubStep(stub: Cfg, p: Place, body: Cfg, first: Label, last: Label, stubMax: Label,
                     sem: Sem, c: Config, c': Config)
    ensures StubStep(PassSite(stub, p, body, first, last, stubMax), sem, c, c')
       <==> StubStep(Original(stub, p, body, first, last), sem, c, c')
  {
    hide Steps, ShiftLabels, Step, BodyRuns;
    var t, o := PassSite(stub, p, body, first, last, stubMax), Original(stub, p, body, first, last);
    if c.At? && c'.At? {
      PassRunsOriginalBody(stub, p, body, first, last, stubMax, sem, c.store, c'.store);
    }
  }

  /** What the pass promises, for the stub and the body as they were given to it. */
  lemma PassPreservesResults(stub: Cfg, p: Place, body: Cfg, first: Label, last: Label, stubMax: Label,
                             sem: Sem, entry: Label, s: Store, s': Store)
    requires p.lbl in stub && p.index < |stub[p.lbl]| && stub[p.lbl][p.index].Assign? && entry in stub
    requires IsMin(first, body.Keys) && IsMax(last, body.Keys) && IsMax(stubMax, stub.Keys)
    requires Closed(stub) && Closed(body) && NoReturns(body)
    ensures WellFormed(PassSite(stub, p, body, first, last, stubMax))
    ensures SameResults(Original(stub, p, body, first, last), Result(PassSite(stub, p, body, first, last, stubMax)),
                        sem, entry, s, s')
  {
    PassSiteIsWellFormed(stub, p, body, first, last, stubMax);
    var t, o := PassSite(stub, p, body, first, last, stubMax), Original(stub, p, body, first, last);
    hide PassSite, Closed, NoReturns, Result, Original, StubStep, Step;
    assert t.stub == stub by { PassSiteStub(stub, p, body, first, last, stubMax); }
    SplicePreservesResults(t, sem, entry, s, s');
    forall k: nat ensures StubReturns(t, sem, entry, s, s', k) <==> StubReturns(o, sem, entry, s, s', k) {
      SameReaches(stub, p, body, first, last, stubMax, sem, At(entry, 0, s), Halted(s'), k);
    }
    if k: nat :| StubReturns(t, sem, entry, s, s', k) { assert StubReturns(o, sem, entry, s, s', k); }
    if k: nat :| StubReturns(o, sem, entry, s, s', k) { assert StubReturns(t, sem, entry, s, s', k); }
  }

  lemma PassSiteStub(stub: Cfg, p: Place, body: Cfg, first: Label, last: Label, stubMax: Label)
    ensures PassSite(stub, p, body, first, last, stubMax).stub == stub
  {}
}
