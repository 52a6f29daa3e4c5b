/** An nd-range launch as a machine.  Work-items run straight-line code between
    group barriers, one memory access at a time, in any interleaving.  The main
    result is that a launch without data races has one outcome: the one obtained by
    running groups, and the items of each phase, one after the other. */
module WorkGroup {
  import opened Options

  datatype BinOp = Add | Mul

  function Apply(op: BinOp, x: int, y: int): int {
    match op
    case Add => x + y
    case Mul => x * y
  }

  /** Local memory belongs to one group; global memory is shared by the launch. */
  datatype Addr = Local(group: nat, buf: nat, i: nat, j: nat) | Global(buf: nat, i: nat, j: nat)

  type Mem = map<Addr, int>
  type Regs = map<nat, int>

  datatype Instr =
    | Const(dst: nat, val: int)
    | Load(dst: nat, addr: Addr)
    | Store(addr: Addr, src: nat)
    | Arith(dst: nat, op: BinOp, x: nat, y: nat)

  type Code = seq<Instr>

  /** group[l][k] is what item l executes between its k-th and (k+1)-th barrier. */
  type Group = seq<seq<Code>>
  type Launch = seq<Group>

  function Reg(r: Regs, x: nat): int { if x in r then r[x] else 0 }

  function Read(m: Mem, a: Addr): int { if a in m then m[a] else 0 }

  /** Two memories hold the same values on the cells in S. */
  ghost predicate Agree(S: set<Addr>, m: Mem, m': Mem) {
    forall a :: a in S ==> Read(m, a) == Read(m', a)
  }

  // ----- one item on its own -----

  datatype View = View(regs: Regs, mem: Mem)

  function Exec(c: Instr, w: View): View {
    match c
    case Const(d, v) => w.(regs := w.regs[d := v])
    case Load(d, a) => w.(regs := w.regs[d := Read(w.mem, a)])
    case Store(a, s) => w.(mem := w.mem[a := Reg(w.regs, s)])
    case Arith(d, op, x, y) => w.(regs := w.regs[d := Apply(op, Reg(w.regs, x), Reg(w.regs, y))])
  }

  /** The first n instructions of c. */
  function Run(c: Code, n: nat, w: View): View
    requires n <= |c|
  {
    if n == 0 then w else Exec(c[n - 1], Run(c, n - 1, w))
  }

  function RunAll(c: Code, w: View): View { Run(c, |c|, w) }

  /** The addresses c reads or writes, and those it writes. */
  ghost function Foot(c: Code): set<Addr> {
    set i | 0 <= i < |c| && (c[i].Load? || c[i].Store?) :: c[i].addr
  }

  ghost function Writes(c: Code): set<Addr> {
    set i | 0 <= i < |c| && c[i].Store? :: c[i].addr
  }

  lemma WritesInFoot(c: Code)
    ensures Writes(c) <= Foot(c)
  {
  }

  /** Code sees and changes only its footprint: two memories that agree there are
      indistinguishable to it, and cells it does not write are kept. */
  lemma {:induction false} RunFrame(c: Code, n: nat, r: Regs, m: Mem, m': Mem)
    requires n <= |c|
    requires Agree(Foot(c), m, m')
    ensures Run(c, n, View(r, m)).regs == Run(c, n, View(r, m')).regs
    ensures Agree(Foot(c), Run(c, n, View(r, m)).mem, Run(c, n, View(r, m')).mem)
    ensures forall a :: a !in Writes(c) ==> Read(Run(c, n, View(r, m)).mem, a) == Read(m, a)
  {
    if n > 0 {
      RunFrame(c, n - 1, r, m, m');
      assert c[n - 1].Load? || c[n - 1].Store? ==> c[n - 1].addr in Foot(c);
      assert c[n - 1].Store? ==> c[n - 1].addr in Writes(c);
    }
  }

  lemma {:induction false} RunKeys(c: Code, n: nat, w: View)
    requires n <= |c|
    requires Foot(c) <= w.mem.Keys
    ensures Run(c, n, w).mem.Keys == w.mem.Keys
  {
    if n > 0 {
      RunKeys(c, n - 1, w);
      assert c[n - 1].Store? ==> c[n - 1].addr in Foot(c);
    }
  }

  lemma {:induction false} RunConcat(c: Code, d: Code, n: nat, w: View)
    requires n <= |d|
    ensures Run(c + d, |c| + n, w) == Run(d, n, RunAll(c, w))
  {
    if n == 0 {
      RunPrefix(c, d, |c|, w);
    } else {
      RunConcat(c, d, n - 1, w);
    }
  }

  lemma {:induction false} RunPrefix(c: Code, d: Code, n: nat, w: View)
    requires n <= |c|
    ensures Run(c + d, n, w) == Run(c, n, w)
  {
    if n > 0 { RunPrefix(c, d, n - 1, w); }
  }

  lemma RunAllConcat(c: Code, d: Code, w: View)
    ensures RunAll(c + d, w) == RunAll(d, RunAll(c, w))
  {
    RunConcat(c, d, |d|, w);
  }

  lemma FootConcat(c: Code, d: Code)
    ensures Foot(c + d) == Foot(c) + Foot(d)
    ensures Writes(c + d) == Writes(c) + Writes(d)
  {
    forall a | a in Foot(c) + Foot(d) ensures a in Foot(c + d) {
      if a in Foot(c) {
        var i :| 0 <= i < |c| && (c[i].Load? || c[i].Store?) && c[i].addr == a;
        assert (c + d)[i] == c[i];
      } else {
        var i :| 0 <= i < |d| && (d[i].Load? || d[i].Store?) && d[i].addr == a;
        assert (c + d)[|c| + i] == d[i];
      }
    }
    forall a | a in Writes(c) + Writes(d) ensures a in Writes(c + d) {
      if a in Writes(c) {
        var i :| 0 <= i < |c| && c[i].Store? && c[i].addr == a;
        assert (c + d)[i] == c[i];
      } else {
        var i :| 0 <= i < |d| && d[i].Store? && d[i].addr == a;
        assert (c + d)[|c| + i] == d[i];
      }
    }
  }

  // ----- the sequential reference -----

  function Phases(G: Group): nat { if |G| == 0 then 0 else |G[0]| }

  /** Every item of a group meets the same barriers. */
  predicate WfGroup(G: Group) { forall l :: 0 <= l < |G| ==> |G[l]| == Phases(G) }

  datatype GroupView = GroupView(mem: Mem, regs: seq<Regs>)

  /** Phase k by the first n items, one item after the other. */
  ghost function RunItems(G: Group, k: nat, n: nat, s: GroupView): (t: GroupView)
    requires WfGroup(G) && k < Phases(G) && n <= |G| && |s.regs| == |G|
    ensures |t.regs| == |G|
  {
    if n == 0 then s
    else
      var p := RunItems(G, k, n - 1, s);
      var w := RunAll(G[n - 1][k], View(p.regs[n - 1], p.mem));
      GroupView(w.mem, p.regs[n - 1 := w.regs])
  }

  ghost function RunPhases(G: Group, k: nat, s: GroupView): (t: GroupView)
    requires WfGroup(G) && k <= Phases(G) && |s.regs| == |G|
    ensures |t.regs| == |G|
  {
    if k == 0 then s else RunItems(G, k - 1, |G|, RunPhases(G, k - 1, s))
  }

  function Fresh(G: Group): seq<Regs> { seq(|G|, _ => map[]) }

  /** The group's state when phase k begins, had it run alone from m. */
  ghost function At(G: Group, k: nat, m: Mem): (t: GroupView)
    requires WfGroup(G) && k <= Phases(G)
    ensures |t.regs| == |G|
  {
    RunPhases(G, k, GroupView(m, Fresh(G)))
  }

  /** The first n groups, one after the other. */
  ghost function RunGroups(L: Launch, n: nat, m: Mem): Mem
    requires WfLaunch(L) && n <= |L|
  {
    if n == 0 then m else At(L[n - 1], Phases(L[n - 1]), RunGroups(L, n - 1, m)).mem
  }

  ghost function RunLaunchInOrder(L: Launch, m: Mem): Mem
    requires WfLaunch(L)
  {
    RunGroups(L, |L|, m)
  }

  predicate WfLaunch(L: Launch) { forall g :: 0 <= g < |L| ==> WfGroup(L[g]) }

  // ----- race freedom -----

  ghost predicate InGroup(G: Group, l: nat, k: nat) { l < |G| && k < |G[l]| }

  /** Within one barrier-delimited phase no item writes what another item accesses. */
  ghost predicate PhaseRaceFree(G: Group) {
    forall l: nat, l': nat, k: nat :: InGroup(G, l, k) && InGroup(G, l', k) && l != l' ==> Writes(G[l][k]) !! Foot(G[l'][k])
  }

  /** What the items of a group access over the whole launch, and what they write. */
  ghost function Touch(G: Group): set<Addr> {
    set l, k, a | 0 <= l < |G| && 0 <= k < |G[l]| && a in Foot(G[l][k]) :: a
  }

  ghost function GroupWrites(G: Group): set<Addr> {
    set l, k, a | 0 <= l < |G| && 0 <= k < |G[l]| && a in Writes(G[l][k]) :: a
  }

  ghost function PhaseWrites(G: Group, k: nat): set<Addr>
    requires WfGroup(G) && k < Phases(G)
  {
    set l, a | 0 <= l < |G| && a in Writes(G[l][k]) :: a
  }

  ghost predicate RaceFree(L: Launch) {
    && (forall g :: 0 <= g < |L| ==> PhaseRaceFree(L[g]))
    && (forall g, g' :: 0 <= g < |L| && 0 <= g' < |L| && g != g' ==> GroupWrites(L[g]) !! Touch(L[g']))
  }

  ghost predicate InBounds(L: Launch, m: Mem) {
    forall g :: 0 <= g < |L| ==> Touch(L[g]) <= m.Keys
  }

  lemma ItemInGroup(G: Group, l: nat, k: nat)
    requires WfGroup(G) && l < |G| && k < Phases(G)
    ensures Foot(G[l][k]) <= Touch(G)
    ensures Writes(G[l][k]) <= PhaseWrites(G, k) <= GroupWrites(G)
    ensures InGroup(G, l, k)
  {
    assert k < |G[l]|;
    forall a | a in PhaseWrites(G, k) ensures a in GroupWrites(G) {
      var l' :| 0 <= l' < |G| && a in Writes(G[l'][k]);
      assert k < |G[l']|;
    }
  }

  lemma NoRace(G: Group, l: nat, l': nat, k: nat)
    requires WfGroup(G) && PhaseRaceFree(G) && l < |G| && l' < |G| && l != l' && k < Phases(G)
    ensures Writes(G[l][k]) !! Foot(G[l'][k])
  {
    assert InGroup(G, l, k) && InGroup(G, l', k);
  }

  // ----- the interleaving machine -----

  datatype GroupState = GroupState(phase: nat, pos: seq<nat>, regs: seq<Regs>)
  datatype State = State(mem: Mem, groups: seq<GroupState>)

  /** An item executes its next instruction, or the barrier of a group lets it go on. */
  datatype Event = Step(g: nat, l: nat) | Release(g: nat)

  predicate GroupShape(G: Group, s: GroupState) {
    && WfGroup(G)
    && s.phase <= Phases(G)
    && |s.pos| == |G| && |s.regs| == |G|
    && (s.phase < Phases(G) ==> forall l :: 0 <= l < |G| ==> s.pos[l] <= |G[l][s.phase]|)
  }

  predicate Shape(L: Launch, s: State) {
    |s.groups| == |L| && forall g :: 0 <= g < |L| ==> GroupShape(L[g], s.groups[g])
  }

  function Init(L: Launch, m: Mem): State {
    State(m, seq(|L|, g requires 0 <= g < |L| => GroupState(0, seq(|L[g]|, _ => 0), Fresh(L[g]))))
  }

  predicate AllArrived(G: Group, s: GroupState)
    requires GroupShape(G, s)
  {
    s.phase < Phases(G) && forall l :: 0 <= l < |G| ==> s.pos[l] == |G[l][s.phase]|
  }

  predicate Enabled(L: Launch, s: State, e: Event)
    requires Shape(L, s)
  {
    && e.g < |L|
    && var G, t := L[e.g], s.groups[e.g];
       match e
       case Step(_, l) => t.phase < Phases(G) && l < |G| && t.pos[l] < |G[l][t.phase]|
       case Release(_) => AllArrived(G, t)
  }

  function Next(L: Launch, s: State, e: Event): State
    requires Shape(L, s) && Enabled(L, s, e)
  {
    var G, t := L[e.g], s.groups[e.g];
    match e
    case Step(g, l) =>
      var w := Exec(G[l][t.phase][t.pos[l]], View(t.regs[l], s.mem));
      State(w.mem, s.groups[g := t.(pos := t.pos[l := t.pos[l] + 1], regs := t.regs[l := w.regs])])
    case Release(g) =>
      State(s.mem, s.groups[g := t.(phase := t.phase + 1, pos := seq(|G|, _ => 0))])
  }

  ghost predicate Done(L: Launch, s: State)
    requires Shape(L, s)
  {
    forall g :: 0 <= g < |L| ==> s.groups[g].phase == Phases(L[g])
  }

  lemma NextShape(L: Launch, s: State, e: Event)
    requires Shape(L, s) && Enabled(L, s, e)
    ensures Shape(L, Next(L, s, e))
  {
  }

  /** A schedule is any sequence of events, each enabled when its turn comes. */
  ghost predicate Valid(L: Launch, s: State, sched: seq<Event>)
    requires Shape(L, s)
    decreases |sched|
  {
    sched == [] || (Enabled(L, s, sched[0]) && (NextShape(L, s, sched[0]); Valid(L, Next(L, s, sched[0]), sched[1..])))
  }

  ghost function Follow(L: Launch, s: State, sched: seq<Event>): (t: State)
    requires Shape(L, s) && Valid(L, s, sched)
    ensures Shape(L, t)
    decreases |sched|
  {
    if sched == [] then s
    else
      NextShape(L, s, sched[0]);
      Follow(L, Next(L, s, sched[0]), sched[1..])
  }

  /** A complete run of the launch from memory m under some interleaving. */
  ghost predicate Complete(L: Launch, m: Mem, sched: seq<Event>) {
    WfLaunch(L) && Shape(L, Init(L, m)) && Valid(L, Init(L, m), sched) && Done(L, Follow(L, Init(L, m), sched))
  }

  // ----- race freedom makes every interleaving agree with the reference -----

  /** What phase k leaves behind: each item's cells are as if it had run alone. */
  ghost predicate Alone(G: Group, k: nat, n: nat, s: GroupView, t: GroupView)
    requires WfGroup(G) && k < Phases(G) && n <= |G| && |s.regs| == |t.regs| == |G|
  {
    && (forall l :: 0 <= l < n ==> t.regs[l] == RunAll(G[l][k], View(s.regs[l], s.mem)).regs)
    && (forall l :: n <= l < |G| ==> t.regs[l] == s.regs[l])
    && (forall l :: 0 <= l < n ==> Agree(Foot(G[l][k]), t.mem, RunAll(G[l][k], View(s.regs[l], s.mem)).mem))
    && (forall a :: (forall l :: 0 <= l < n ==> a !in Writes(G[l][k])) ==> Read(t.mem, a) == Read(s.mem, a))
  }

  lemma {:induction false} ItemsAlone(G: Group, k: nat, n: nat, s: GroupView)
    requires WfGroup(G) && k < Phases(G) && n <= |G| && |s.regs| == |G|
    requires PhaseRaceFree(G)
    ensures Alone(G, k, n, s, RunItems(G, k, n, s))
  {
    hide PhaseRaceFree, Foot, Writes;
    if n > 0 {
      ItemsAlone(G, k, n - 1, s);
      var p := RunItems(G, k, n - 1, s);
      var c := G[n - 1][k];
      forall l | 0 <= l < n - 1
        ensures Writes(G[l][k]) !! Foot(c) && Writes(c) !! Foot(G[l][k])
      {
        NoRace(G, l, n - 1, k);
        NoRace(G, n - 1, l, k);
      }
      RunFrame(c, |c|, s.regs[n - 1], p.mem, s.mem);
    }
  }

  // The facts kernels use about a phase.

  lemma AtStart(G: Group, m: Mem)
    requires WfGroup(G)
    ensures At(G, 0, m) == GroupView(m, Fresh(G))
  {
  }

  lemma AtNext(G: Group, k: nat, m: Mem)
    requires WfGroup(G) && k < Phases(G)
    ensures At(G, k + 1, m) == RunItems(G, k, |G|, At(G, k, m))
  {
  }

  lemma CellOfItem(G: Group, k: nat, s: GroupView, l: nat, a: Addr)
    requires WfGroup(G) && k < Phases(G) && PhaseRaceFree(G) && |s.regs| == |G|
    requires l < |G| && a in Foot(G[l][k])
    ensures Read(RunItems(G, k, |G|, s).mem, a) == Read(RunAll(G[l][k], View(s.regs[l], s.mem)).mem, a)
  {
    hide PhaseRaceFree, RunItems, RunAll, Foot;
    ItemsAlone(G, k, |G|, s);
  }

  lemma CellOfNone(G: Group, k: nat, s: GroupView, a: Addr)
    requires WfGroup(G) && k < Phases(G) && PhaseRaceFree(G) && |s.regs| == |G|
    requires forall l :: 0 <= l < |G| ==> a !in Writes(G[l][k])
    ensures Read(RunItems(G, k, |G|, s).mem, a) == Read(s.mem, a)
  {
    hide PhaseRaceFree, RunItems, RunAll, Foot, Writes;
    ItemsAlone(G, k, |G|, s);
  }

  lemma RegsOfItem(G: Group, k: nat, s: GroupView, l: nat)
    requires WfGroup(G) && k < Phases(G) && PhaseRaceFree(G) && |s.regs| == |G| && l < |G|
    ensures RunItems(G, k, |G|, s).regs[l] == RunAll(G[l][k], View(s.regs[l], s.mem)).regs
  {
    hide PhaseRaceFree, RunItems, RunAll, Foot, Writes;
    ItemsAlone(G, k, |G|, s);
  }

  ghost predicate ItemInv(c: Code, n: nat, r: Regs, m: Mem, ref: View)
    requires n <= |c|
  {
    r == Run(c, n, ref).regs && Agree(Foot(c), m, Run(c, n, ref).mem)
  }

  /** A reachable state of a group, against its run alone from the launch memory m0. */
  ghost predicate GroupInv(G: Group, s: GroupState, m: Mem, m0: Mem)
    requires GroupShape(G, s)
  {
    var ref := At(G, s.phase, m0);
    if s.phase == Phases(G) then
      Agree(Touch(G), m, ref.mem)
    else
      && (forall l :: 0 <= l < |G| ==> ItemInv(G[l][s.phase], s.pos[l], s.regs[l], m, View(ref.regs[l], ref.mem)))
      && Agree(Touch(G) - PhaseWrites(G, s.phase), m, ref.mem)
  }

  ghost predicate Inv(L: Launch, s: State, m0: Mem) {
    && Shape(L, s)
    && s.mem.Keys == m0.Keys
    && (forall g :: 0 <= g < |L| ==> GroupInv(L[g], s.groups[g], s.mem, m0))
    && KeepsUnwritten(L, |L|, m0, s.mem)
  }

  /** Cells that none of the first n groups writes hold what they held. */
  ghost predicate KeepsUnwritten(L: Launch, n: nat, m0: Mem, m: Mem)
    requires n <= |L|
  {
    forall a :: (forall g :: 0 <= g < n ==> a !in GroupWrites(L[g])) ==> Read(m, a) == Read(m0, a)
  }

  lemma InitInv(L: Launch, m: Mem)
    requires WfLaunch(L) && InBounds(L, m)
    ensures Inv(L, Init(L, m), m)
  {
  }

  /** Another group's step is invisible: it writes nothing this group touches. */
  lemma GroupInvFrame(G: Group, s: GroupState, m: Mem, m': Mem, m0: Mem)
    requires GroupShape(G, s) && GroupInv(G, s, m, m0)
    requires Agree(Touch(G), m, m')
    ensures GroupInv(G, s, m', m0)
  {
    if s.phase < Phases(G) {
      forall l | 0 <= l < |G| ensures Foot(G[l][s.phase]) <= Touch(G) {
        ItemInGroup(G, l, s.phase);
      }
    }
  }

  lemma StepItemInv(c: Code, n: nat, r: Regs, m: Mem, ref: View)
    requires n < |c| && ItemInv(c, n, r, m, ref)
    ensures var w := Exec(c[n], View(r, m)); ItemInv(c, n + 1, w.regs, w.mem, ref)
  {
    if c[n].Load? || c[n].Store? { assert c[n].addr in Foot(c); }
  }

  /** A single instruction changes at most one cell, and code that stores there owns it. */
  lemma StepChanges(c: Code, n: nat, r: Regs, m: Mem)
    requires n < |c|
    ensures forall a :: a !in Writes(c) ==> Read(Exec(c[n], View(r, m)).mem, a) == Read(m, a)
    ensures Foot(c) <= m.Keys ==> Exec(c[n], View(r, m)).mem.Keys == m.Keys
  {
    if c[n].Store? { assert c[n].addr in Writes(c) && c[n].addr in Foot(c); }
  }

  lemma StepGroupInv(G: Group, s: GroupState, l: nat, m: Mem, m0: Mem)
    requires GroupShape(G, s) && GroupInv(G, s, m, m0) && PhaseRaceFree(G)
    requires s.phase < Phases(G) && l < |G| && s.pos[l] < |G[l][s.phase]|
    ensures var w := Exec(G[l][s.phase][s.pos[l]], View(s.regs[l], m));
            var t := s.(pos := s.pos[l := s.pos[l] + 1], regs := s.regs[l := w.regs]);
            GroupShape(G, t) && GroupInv(G, t, w.mem, m0)
  {
    var k, n := s.phase, s.pos[l];
    var c := G[l][k];
    var w := Exec(c[n], View(s.regs[l], m));
    var ref := At(G, k, m0);
    StepItemInv(c, n, s.regs[l], m, View(ref.regs[l], ref.mem));
    StepChanges(c, n, s.regs[l], m);
    ItemInGroup(G, l, k);
    forall l' | 0 <= l' < |G| && l' != l
      ensures ItemInv(G[l'][k], s.pos[l'], s.regs[l'], w.mem, View(ref.regs[l'], ref.mem))
    {
      NoRace(G, l, l', k);
    }
  }

  /** Once a phase is over, the memory is what the reference starts the next phase with. */
  lemma PhaseOver(G: Group, s: GroupState, m: Mem, m0: Mem)
    requires GroupShape(G, s) && GroupInv(G, s, m, m0) && PhaseRaceFree(G)
    requires AllArrived(G, s)
    ensures Agree(Touch(G), m, At(G, s.phase + 1, m0).mem)
    ensures s.regs == At(G, s.phase + 1, m0).regs
  {
    var k := s.phase;
    var ref, ref' := At(G, k, m0), At(G, k + 1, m0);
    ItemsAlone(G, k, |G|, ref);
    forall a | a in Touch(G) ensures Read(m, a) == Read(ref'.mem, a) {
      if a in PhaseWrites(G, k) {
        var l :| 0 <= l < |G| && a in Writes(G[l][k]);
        WritesInFoot(G[l][k]);
      }
    }
  }

  lemma ReleaseGroupInv(G: Group, s: GroupState, m: Mem, m0: Mem)
    requires GroupShape(G, s) && GroupInv(G, s, m, m0) && PhaseRaceFree(G)
    requires AllArrived(G, s)
    ensures var t := s.(phase := s.phase + 1, pos := seq(|G|, _ => 0));
            GroupShape(G, t) && GroupInv(G, t, m, m0)
  {
    PhaseOver(G, s, m, m0);
    if s.phase + 1 < Phases(G) {
      forall l | 0 <= l < |G| ensures Foot(G[l][s.phase + 1]) <= Touch(G) {
        ItemInGroup(G, l, s.phase + 1);
      }
    }
  }

  lemma StepInv(L: Launch, s: State, g: nat, l: nat, m0: Mem)
    requires Inv(L, s, m0) && RaceFree(L) && InBounds(L, m0) && Enabled(L, s, Step(g, l))
    ensures Inv(L, Next(L, s, Step(g, l)), m0)
  {
    hide GroupInv, PhaseRaceFree, GroupWrites, Touch, Writes, Foot, PhaseWrites;
    var s' := Next(L, s, Step(g, l));
    var G: Group, t: GroupState := L[g], s.groups[g];
    var c := G[l][t.phase];
    StepGroupInv(G, t, l, s.mem, m0);
    StepChanges(c, t.pos[l], t.regs[l], s.mem);
    ItemInGroup(G, l, t.phase);
    WritesInFoot(c);
    forall g' | 0 <= g' < |L| && g' != g ensures GroupInv(L[g'], s'.groups[g'], s'.mem, m0) {
      assert GroupWrites(G) !! Touch(L[g']);
      GroupInvFrame(L[g'], s.groups[g'], s.mem, s'.mem, m0);
    }
  }

  lemma ReleaseInv(L: Launch, s: State, g: nat, m0: Mem)
    requires Inv(L, s, m0) && RaceFree(L) && Enabled(L, s, Release(g))
    ensures Inv(L, Next(L, s, Release(g)), m0)
  {
    hide GroupInv, PhaseRaceFree, GroupWrites, Touch;
    ReleaseGroupInv(L[g], s.groups[g], s.mem, m0);
  }

  lemma NextInv(L: Launch, s: State, e: Event, m0: Mem)
    requires Inv(L, s, m0) && RaceFree(L) && InBounds(L, m0) && Enabled(L, s, e)
    ensures Inv(L, Next(L, s, e), m0)
  {
    match e
    case Step(g, l) => StepInv(L, s, g, l, m0);
    case Release(g) => ReleaseInv(L, s, g, m0);
  }

  /** The invariant holds in every state reachable under every interleaving. */
  lemma {:induction false} FollowInv(L: Launch, s: State, sched: seq<Event>, m0: Mem)
    requires Inv(L, s, m0) && RaceFree(L) && InBounds(L, m0) && Valid(L, s, sched)
    ensures Inv(L, Follow(L, s, sched), m0)
    decreases |sched|
  {
    if sched != [] {
      NextInv(L, s, sched[0], m0);
      FollowInv(L, Next(L, s, sched[0]), sched[1..], m0);
    }
  }

  /** A memory the first n groups may leave: on what a group touches, its run alone. */
  ghost predicate Outcome(L: Launch, n: nat, m0: Mem, m: Mem)
    requires WfLaunch(L) && n <= |L|
  {
    && m.Keys == m0.Keys
    && (forall g :: 0 <= g < n ==> Agree(Touch(L[g]), m, At(L[g], Phases(L[g]), m0).mem))
    && KeepsUnwritten(L, n, m0, m)
  }

  lemma RunOutcome(L: Launch, m0: Mem, sched: seq<Event>)
    requires RaceFree(L) && InBounds(L, m0) && Complete(L, m0, sched)
    ensures Outcome(L, |L|, m0, Follow(L, Init(L, m0), sched).mem)
  {
    InitInv(L, m0);
    FollowInv(L, Init(L, m0), sched, m0);
  }

  /** A cell after phase k holds what its writer left, or what it held before. */
  lemma CellAfter(G: Group, k: nat, s: GroupView, a: Addr) returns (l: nat)
    requires WfGroup(G) && k < Phases(G) && PhaseRaceFree(G) && |s.regs| == |G|
    ensures l <= |G|
    ensures l < |G| ==> a in Foot(G[l][k])
    ensures l < |G| ==> Read(RunItems(G, k, |G|, s).mem, a) == Read(RunAll(G[l][k], View(s.regs[l], s.mem)).mem, a)
    ensures l == |G| ==> Read(RunItems(G, k, |G|, s).mem, a) == Read(s.mem, a)
    ensures a in GroupWrites(G) || l == |G|
  {
    hide RunItems, PhaseRaceFree, Foot, Writes, Touch, GroupWrites;
    ItemsAlone(G, k, |G|, s);
    if a in PhaseWrites(G, k) {
      l :| 0 <= l < |G| && a in Writes(G[l][k]);
      WritesInFoot(G[l][k]);
      ItemInGroup(G, l, k);
    } else {
      l := |G|;
    }
  }

  lemma PhaseFrame(G: Group, k: nat, s: GroupView, s': GroupView)
    requires WfGroup(G) && k < Phases(G) && PhaseRaceFree(G) && |s.regs| == |G|
    requires s.regs == s'.regs && Agree(Touch(G), s.mem, s'.mem)
    ensures RunItems(G, k, |G|, s).regs == RunItems(G, k, |G|, s').regs
    ensures Agree(Touch(G), RunItems(G, k, |G|, s).mem, RunItems(G, k, |G|, s').mem)
    ensures forall a :: a !in GroupWrites(G) ==> Read(RunItems(G, k, |G|, s).mem, a) == Read(s.mem, a)
  {
    hide RunItems, PhaseRaceFree, GroupWrites, Touch, Writes, Foot, PhaseWrites;
    var t, t' := RunItems(G, k, |G|, s), RunItems(G, k, |G|, s');
    assert t.regs == t'.regs by {
      ItemsAlone(G, k, |G|, s);
      ItemsAlone(G, k, |G|, s');
      forall l | 0 <= l < |G| ensures t.regs[l] == t'.regs[l] {
        ItemInGroup(G, l, k);
        RunFrame(G[l][k], |G[l][k]|, s.regs[l], s.mem, s'.mem);
      }
    }
    forall a | a in Touch(G) ensures Read(t.mem, a) == Read(t'.mem, a) {
      var l := CellAfter(G, k, s, a);
      if l < |G| {
        ItemsAlone(G, k, |G|, s');
        ItemInGroup(G, l, k);
        RunFrame(G[l][k], |G[l][k]|, s.regs[l], s.mem, s'.mem);
      } else {
        var l' := CellAfter(G, k, s', a);
        if l' < |G| {
          ItemsAlone(G, k, |G|, s);
          ItemInGroup(G, l', k);
          RunFrame(G[l'][k], |G[l'][k]|, s.regs[l'], s.mem, s'.mem);
        }
      }
    }
    forall a | a !in GroupWrites(G) ensures Read(t.mem, a) == Read(s.mem, a) {
      var l := CellAfter(G, k, s, a);
    }
  }

  lemma {:induction false} PhasesFrame(G: Group, k: nat, m: Mem, m': Mem)
    requires WfGroup(G) && k <= Phases(G) && PhaseRaceFree(G)
    requires Agree(Touch(G), m, m')
    ensures At(G, k, m).regs == At(G, k, m').regs
    ensures Agree(Touch(G), At(G, k, m).mem, At(G, k, m').mem)
    ensures forall a :: a !in GroupWrites(G) ==> Read(At(G, k, m).mem, a) == Read(m, a)
  {
    if k > 0 {
      PhasesFrame(G, k - 1, m, m');
      PhaseFrame(G, k - 1, At(G, k - 1, m), At(G, k - 1, m'));
    }
  }

  lemma {:induction false} PhasesKeys(G: Group, k: nat, n: nat, m: Mem)
    requires WfGroup(G) && Touch(G) <= m.Keys
    requires if n == 0 then k <= Phases(G) else k < Phases(G) && n <= |G|
    ensures n == 0 ==> At(G, k, m).mem.Keys == m.Keys
    ensures n > 0 ==> RunItems(G, k, n, At(G, k, m)).mem.Keys == m.Keys
    decreases k, n
  {
    if n > 0 {
      PhasesKeys(G, k, n - 1, m);
      var p := RunItems(G, k, n - 1, At(G, k, m));
      ItemInGroup(G, n - 1, k);
      RunKeys(G[n - 1][k], |G[n - 1][k]|, View(p.regs[n - 1], p.mem));
    } else if k > 0 {
      PhasesKeys(G, k - 1, |G|, m);
    }
  }

  lemma {:induction false} OrderOutcome(L: Launch, n: nat, m0: Mem)
    requires WfLaunch(L) && RaceFree(L) && InBounds(L, m0) && n <= |L|
    ensures Outcome(L, n, m0, RunGroups(L, n, m0))
  {
    hide GroupWrites, Touch, PhaseRaceFree;
    if n > 0 {
      OrderOutcome(L, n - 1, m0);
      var p, m := RunGroups(L, n - 1, m0), RunGroups(L, n, m0);
      var G := L[n - 1];
      forall a | a in Touch(G) ensures Read(m0, a) == Read(p, a) {
        forall g | 0 <= g < n - 1 ensures a !in GroupWrites(L[g]) { }
      }
      PhasesFrame(G, Phases(G), m0, p);
      PhasesFrame(G, Phases(G), p, p);
      PhasesKeys(G, Phases(G), 0, p);
      forall g | 0 <= g < n - 1 ensures Agree(Touch(L[g]), m, At(L[g], Phases(L[g]), m0).mem) {
        assert GroupWrites(G) !! Touch(L[g]);
      }
    }
  }

  lemma GroupWritesInTouch(G: Group)
    ensures GroupWrites(G) <= Touch(G)
  {
    forall a | a in GroupWrites(G) ensures a in Touch(G) {
      var l, k :| 0 <= l < |G| && 0 <= k < |G[l]| && a in Writes(G[l][k]);
      WritesInFoot(G[l][k]);
    }
  }

  lemma OutcomeUnique(L: Launch, m0: Mem, m: Mem, m': Mem)
    requires WfLaunch(L) && Outcome(L, |L|, m0, m) && Outcome(L, |L|, m0, m')
    ensures m == m'
  {
    hide GroupWrites, Touch;
    forall a | a in m.Keys ensures Read(m, a) == Read(m', a) {
      if g :| 0 <= g < |L| && a in GroupWrites(L[g]) {
        GroupWritesInTouch(L[g]);
      }
    }
    assert forall a :: a in m.Keys ==> m[a] == Read(m, a) && m'[a] == Read(m', a);
  }

  /** Whatever the interleaving, a race-free launch ends in the memory that the
      one-after-the-other order produces. */
  lemma EveryInterleavingIsInOrder(L: Launch, m0: Mem, sched: seq<Event>)
    requires RaceFree(L) && InBounds(L, m0) && Complete(L, m0, sched)
    ensures Follow(L, Init(L, m0), sched).mem == RunLaunchInOrder(L, m0)
  {
    RunOutcome(L, m0, sched);
    OrderOutcome(L, |L|, m0);
    OutcomeUnique(L, m0, Follow(L, Init(L, m0), sched).mem, RunLaunchInOrder(L, m0));
  }

  // ----- no deadlock, and every run is finite -----

  ghost function Left(G: Group, s: GroupState, n: nat): nat
    requires GroupShape(G, s) && s.phase < Phases(G) && n <= |G|
  {
    if n == 0 then 0 else |G[n - 1][s.phase]| - s.pos[n - 1] + Left(G, s, n - 1)
  }

  ghost function CodeSize(G: Group, k: nat, n: nat): nat
    requires WfGroup(G) && k < Phases(G) && n <= |G|
  {
    if n == 0 then 0 else |G[n - 1][k]| + CodeSize(G, k, n - 1)
  }

  /** The events that phases k, k + 1, ... of a group take: instructions and barriers. */
  ghost function Ahead(G: Group, k: nat): nat
    requires WfGroup(G) && k <= Phases(G)
    decreases Phases(G) - k
  {
    if k == Phases(G) then 0 else CodeSize(G, k, |G|) + 1 + Ahead(G, k + 1)
  }

  ghost function Work(G: Group, s: GroupState): nat
    requires GroupShape(G, s)
  {
    if s.phase == Phases(G) then 0 else Left(G, s, |G|) + 1 + Ahead(G, s.phase + 1)
  }

  ghost function TotalWork(L: Launch, s: State, n: nat): nat
    requires Shape(L, s) && n <= |L|
  {
    if n == 0 then 0 else Work(L[n - 1], s.groups[n - 1]) + TotalWork(L, s, n - 1)
  }

  lemma {:induction false} LeftAfterStep(G: Group, s: GroupState, t: GroupState, l: nat, n: nat)
    requires GroupShape(G, s) && GroupShape(G, t) && s.phase == t.phase < Phases(G)
    requires l < |G| && n <= |G| && t.pos == s.pos[l := s.pos[l] + 1]
    ensures Left(G, s, n) == Left(G, t, n) + if l < n then 1 else 0
  {
    if n > 0 { LeftAfterStep(G, s, t, l, n - 1); }
  }

  lemma {:induction false} LeftAtEnds(G: Group, s: GroupState, n: nat)
    requires GroupShape(G, s) && s.phase < Phases(G) && n <= |G|
    ensures (forall l :: 0 <= l < n ==> s.pos[l] == |G[l][s.phase]|) ==> Left(G, s, n) == 0
    ensures (forall l :: 0 <= l < n ==> s.pos[l] == 0) ==> Left(G, s, n) == CodeSize(G, s.phase, n)
  {
    if n > 0 { LeftAtEnds(G, s, n - 1); }
  }

  lemma {:induction false} TotalAfter(L: Launch, s: State, t: State, g: nat, n: nat)
    requires Shape(L, s) && Shape(L, t) && g < |L| && n <= |L|
    requires forall g' :: 0 <= g' < |L| && g' != g ==> s.groups[g'] == t.groups[g']
    requires Work(L[g], s.groups[g]) == Work(L[g], t.groups[g]) + 1
    ensures TotalWork(L, s, n) == TotalWork(L, t, n) + if g < n then 1 else 0
  {
    if n > 0 { TotalAfter(L, s, t, g, n - 1); }
  }

  /** Every event uses up one unit of work, so schedules have a fixed length ... */
  lemma EventUsesWork(L: Launch, s: State, e: Event)
    requires Shape(L, s) && Enabled(L, s, e)
    ensures Shape(L, Next(L, s, e))
    ensures TotalWork(L, s, |L|) == TotalWork(L, Next(L, s, e), |L|) + 1
  {
    NextShape(L, s, e);
    var s' := Next(L, s, e);
    var G: Group, t: GroupState, t': GroupState := L[e.g], s.groups[e.g], s'.groups[e.g];
    if e.Step? {
      LeftAfterStep(G, t, t', e.l, |G|);
    } else {
      LeftAtEnds(G, t, |G|);
      if t'.phase < Phases(G) { LeftAtEnds(G, t', |G|); }
    }
    TotalAfter(L, s, s', e.g, |L|);
  }

  /** ... and while any item has something to do, some event can happen: barriers
      never deadlock. */
  lemma Progress(L: Launch, s: State) returns (e: Event)
    requires Shape(L, s) && !Done(L, s)
    ensures Enabled(L, s, e)
  {
    var g :| 0 <= g < |L| && s.groups[g].phase != Phases(L[g]);
    var G: Group, t: GroupState := L[g], s.groups[g];
    if l :| 0 <= l < |G| && t.pos[l] < |G[l][t.phase]| {
      e := Step(g, l);
    } else {
      e := Release(g);
    }
  }

  /** So every partial run can be carried on to completion. */
  lemma {:induction false} CanComplete(L: Launch, s: State) returns (sched: seq<Event>)
    requires Shape(L, s)
    ensures Valid(L, s, sched) && Done(L, Follow(L, s, sched))
    ensures |sched| == TotalWork(L, s, |L|)
    decreases TotalWork(L, s, |L|)
  {
    if Done(L, s) {
      NoWorkLeft(L, s, |L|);
      sched := [];
    } else {
      var e := Progress(L, s);
      EventUsesWork(L, s, e);
      var rest := CanComplete(L, Next(L, s, e));
      sched := [e] + rest;
      assert sched[1..] == rest;
    }
  }

  lemma {:induction false} NoWorkLeft(L: Launch, s: State, n: nat)
    requires Shape(L, s) && Done(L, s) && n <= |L|
    ensures TotalWork(L, s, n) == 0
  {
    if n > 0 { NoWorkLeft(L, s, n - 1); }
  }

  // ----- building schedules -----

  lemma {:induction false} ValidConcat(L: Launch, s: State, a: seq<Event>, b: seq<Event>)
    requires Shape(L, s) && Valid(L, s, a) && Valid(L, Follow(L, s, a), b)
    ensures Valid(L, s, a + b) && Follow(L, s, a + b) == Follow(L, Follow(L, s, a), b)
    decreases |a|
  {
    hide Next, Enabled, Shape;
    if a == [] {
      assert a + b == b;
    } else {
      NextShape(L, s, a[0]);
      ValidConcat(L, Next(L, s, a[0]), a[1..], b);
      assert (a + b)[1..] == a[1..] + b;
    }
  }

  lemma OneEvent(L: Launch, s: State, e: Event)
    requires Shape(L, s) && Enabled(L, s, e)
    ensures Valid(L, s, [e]) && Follow(L, s, [e]) == Next(L, s, e)
  {
    hide Next, Enabled, Shape;
    NextShape(L, s, e);
    assert [e][1..] == [];
  }

  /** Item l of group g after the first n instructions of its phase, all others at rest. */
  function Advanced(L: Launch, s: State, g: nat, l: nat, n: nat): (t: State)
    requires Shape(L, s) && g < |L| && l < |L[g]| && s.groups[g].phase < Phases(L[g])
    requires n <= |L[g][l][s.groups[g].phase]|
    ensures Shape(L, t)
  {
    var x := s.groups[g];
    var w := Run(L[g][l][x.phase], n, View(x.regs[l], s.mem));
    State(w.mem, s.groups[g := x.(pos := x.pos[l := n], regs := x.regs[l := w.regs])])
  }

  lemma AdvancedNext(L: Launch, s: State, g: nat, l: nat, n: nat)
    requires Shape(L, s) && g < |L| && l < |L[g]| && s.groups[g].phase < Phases(L[g])
    requires n < |L[g][l][s.groups[g].phase]|
    ensures Enabled(L, Advanced(L, s, g, l, n), Step(g, l))
    ensures Next(L, Advanced(L, s, g, l, n), Step(g, l)) == Advanced(L, s, g, l, n + 1)
  {
    var x := s.groups[g];
    var p := x.pos[l := n];
    assert p[l := n + 1] == x.pos[l := n + 1];
    var w := Run(L[g][l][x.phase], n, View(x.regs[l], s.mem));
    var w' := Run(L[g][l][x.phase], n + 1, View(x.regs[l], s.mem));
    assert x.regs[l := w.regs][l := w'.regs] == x.regs[l := w'.regs];
  }

  lemma {:induction false} RunOneItem(L: Launch, s: State, g: nat, l: nat, n: nat) returns (sched: seq<Event>)
    requires Shape(L, s) && g < |L| && l < |L[g]| && s.groups[g].phase < Phases(L[g]) && s.groups[g].pos[l] == 0
    requires n <= |L[g][l][s.groups[g].phase]|
    ensures Valid(L, s, sched) && Follow(L, s, sched) == Advanced(L, s, g, l, n)
  {
    hide Next, Enabled, Run;
    if n == 0 {
      sched := [];
      NotAdvanced(L, s, g, l);
    } else {
      hide Advanced;
      var before := RunOneItem(L, s, g, l, n - 1);
      AdvancedNext(L, s, g, l, n - 1);
      AppendEvent(L, s, before, Step(g, l));
      sched := before + [Step(g, l)];
    }
  }

  lemma AppendEvent(L: Launch, s: State, sched: seq<Event>, e: Event)
    requires Shape(L, s) && Valid(L, s, sched) && Enabled(L, Follow(L, s, sched), e)
    ensures Valid(L, s, sched + [e]) && Follow(L, s, sched + [e]) == Next(L, Follow(L, s, sched), e)
  {
    hide Next, Enabled, Shape, Valid, Follow;
    OneEvent(L, Follow(L, s, sched), e);
    ValidConcat(L, s, sched, [e]);
  }

  lemma NotAdvanced(L: Launch, s: State, g: nat, l: nat)
    requires Shape(L, s) && g < |L| && l < |L[g]| && s.groups[g].phase < Phases(L[g]) && s.groups[g].pos[l] == 0
    ensures Advanced(L, s, g, l, 0) == s
  {
    var x := s.groups[g];
    assert x.pos[l := 0] == x.pos && x.regs[l := x.regs[l]] == x.regs;
    assert s.groups[g := x] == s.groups;
  }

  /** A scheduler picks some complete run for every launch. */
  ghost predicate Scheduler(f: (Launch, Mem) -> seq<Event>) {
    forall L, m :: WfLaunch(L) ==> Complete(L, m, f(L, m))
  }

  /** A kernel submission that is waited for: the scheduler's events happen, one by one. */
  method Submit(L: Launch, m: Mem, sched: seq<Event>) returns (m': Mem)
    requires RaceFree(L) && InBounds(L, m) && Complete(L, m, sched)
    ensures Outcome(L, |L|, m, m')
  {
    RunOutcome(L, m, sched);
    var s := Init(L, m);
    var i := 0;
    while i < |sched|
      invariant 0 <= i <= |sched|
      invariant Shape(L, s) && Valid(L, s, sched[i..])
      invariant Follow(L, s, sched[i..]) == Follow(L, Init(L, m), sched)
    {
      assert sched[i..][1..] == sched[i + 1..];
      NextShape(L, s, sched[i]);
      s := Next(L, s, sched[i]);
      i := i + 1;
    }
    m' := s.mem;
  }
}
