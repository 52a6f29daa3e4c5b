/** The scan under every interleaving: its result is determined exactly for groups
    of at most four items.  Up to four, every run is also a run of a launch without
    races, since the one cell read in a race is written with the value it has.
    From five on, a run in which item 4 swaps and enters its second round before
    item 2 has swapped loses the second element. */
module ScanRuns {
  import opened WorkGroup
  import opened Scan

  /** The launch's memory: the input, and local memory with any contents. */
  ghost predicate Input(m: Mem, s: seq<int>) {
    forall l :: 0 <= l < |s| ==> In(l) in m && B(l) in m && C(l) in m && Read(m, In(l)) == s[l]
  }

  ghost predicate Inputs(m: Mem, s: seq<int>) {
    forall l :: 0 <= l < |s| ==> Read(m, In(l)) == s[l]
  }

  ghost predicate Slots(m: Mem, b: seq<int>, c: seq<int>)
    requires |b| == |c|
  {
    forall l :: 0 <= l < |b| ==> Read(m, B(l)) == b[l] && Read(m, C(l)) == c[l]
  }

  function Windows(s: seq<int>, d: nat): (w: seq<int>)
    ensures |w| == |s|
  {
    seq(|s|, l requires 0 <= l < |s| => Window(s, d, l))
  }

  // ----- what one phase does, where there is no race -----

  /** What the items do in one phase.  In a tame round item 3 takes item 1's value
      from where no item writes. */
  datatype Kind = Filling | Adding | TameRound | Swapping | Storing

  function CodeOf(kind: Kind, l: nat): Code {
    match kind
    case Filling => Fill(l)
    case Adding => AddNeighbour(l, 1)
    case TameRound => Swap(l) + (if l == 3 then AddFrom(l, In(1)) else AddNeighbour(l, 2))
    case Swapping => Swap(l)
    case Storing => Out(l)
  }

  ghost predicate PhaseIs(G: Group, k: nat, kind: Kind) {
    WfGroup(G) && k < Phases(G) && forall l :: 0 <= l < |G| ==> G[l][k] == CodeOf(kind, l)
  }

  lemma AfterFill(G: Group, m: Mem, s: seq<int>)
    requires PhaseIs(G, 0, Filling) && PhaseRaceFree(G) && |G| == |s| && Inputs(m, s)
    ensures Slots(At(G, 1, m).mem, s, s) && Inputs(At(G, 1, m).mem, s)
  {
    hide PhaseRaceFree, RunItems, RunAll;
    AtStart(G, m);
    AtNext(G, 0, m);
    forall l | 0 <= l < |G|
      ensures var m' := At(G, 1, m).mem; Read(m', In(l)) == Read(m', B(l)) == Read(m', C(l)) == s[l]
    {
      var c := Fill(l);
      assert G[l][0] == c;
      assert c[0].addr == In(l) && c[1].addr == C(l) && c[2].addr == B(l);
      var v := At(G, 0, m);
      CellOfItem(G, 0, v, l, In(l));
      CellOfItem(G, 0, v, l, B(l));
      CellOfItem(G, 0, v, l, C(l));
      FillRun(l, View(v.regs[l], v.mem));
    }
  }

  lemma AddWrites(l: nat, d: nat)
    ensures Writes(AddNeighbour(l, d)) == {C(l)} && B(l) in Foot(AddNeighbour(l, d)) && C(l) in Foot(AddNeighbour(l, d))
  {
    var c := AddNeighbour(l, d);
    assert c[0].addr == B(l) && c[|c| - 1].Store? && c[|c| - 1].addr == C(l);
  }

  lemma AfterAdd(G: Group, m: Mem, s: seq<int>)
    requires PhaseIs(G, 1, Adding) && PhaseRaceFree(G) && |G| == |s|
    requires Slots(At(G, 1, m).mem, s, s) && Inputs(At(G, 1, m).mem, s)
    ensures Slots(At(G, 2, m).mem, s, Windows(s, 2)) && Inputs(At(G, 2, m).mem, s)
  {
    hide PhaseRaceFree, RunItems, RunAll, Foot, Writes, Window, At;
    AtNext(G, 1, m);
    var v := At(G, 1, m);
    forall l | 0 <= l < |G|
      ensures var m' := At(G, 2, m).mem;
              Read(m', In(l)) == s[l] && Read(m', B(l)) == s[l] && Read(m', C(l)) == Window(s, 2, l)
    {
      assert G[l][1] == AddNeighbour(l, 1);
      AddWrites(l, 1);
      CellOfItem(G, 1, v, l, B(l));
      CellOfItem(G, 1, v, l, C(l));
      forall i | 0 <= i < |G| ensures In(l) !in Writes(G[i][1]) { AddWrites(i, 1); }
      CellOfNone(G, 1, v, In(l));
      AddRun(l, 1, View(v.regs[l], v.mem));
      WindowDoubles(s, 1, l);
      WindowOfOne(s, l);
      if l > 1 { WindowOfOne(s, l - 1); }
    }
  }

  lemma SwapWrites(l: nat)
    ensures Writes(Swap(l)) == {B(l), C(l)} == Foot(Swap(l))
  {
    var c := Swap(l);
    assert c[0].addr == C(l) && c[1].addr == B(l) && c[2].addr == C(l) && c[3].addr == B(l);
  }

  lemma AfterSwap(G: Group, k: nat, m: Mem, b: seq<int>, c: seq<int>)
    requires PhaseIs(G, k, Swapping) && PhaseRaceFree(G) && |G| == |b| == |c| && Slots(At(G, k, m).mem, b, c)
    ensures Slots(At(G, k + 1, m).mem, c, b)
  {
    hide PhaseRaceFree, RunItems, RunAll, Foot, Writes, At;
    AtNext(G, k, m);
    var v := At(G, k, m);
    forall l | 0 <= l < |G|
      ensures var m' := At(G, k + 1, m).mem; Read(m', B(l)) == c[l] && Read(m', C(l)) == b[l]
    {
      assert G[l][k] == Swap(l);
      SwapWrites(l);
      CellOfItem(G, k, v, l, B(l));
      CellOfItem(G, k, v, l, C(l));
      SwapRun(l, View(v.regs[l], v.mem));
    }
  }

  lemma AfterStore(G: Group, k: nat, m: Mem, b: seq<int>, c: seq<int>)
    requires PhaseIs(G, k, Storing) && PhaseRaceFree(G) && |G| == |b| == |c| && Slots(At(G, k, m).mem, b, c)
    ensures Inputs(At(G, k + 1, m).mem, b)
  {
    hide PhaseRaceFree, RunItems, RunAll, At;
    AtNext(G, k, m);
    var v := At(G, k, m);
    forall l | 0 <= l < |G| ensures Read(At(G, k + 1, m).mem, In(l)) == b[l] {
      var code := Out(l);
      assert G[l][k] == code && code[1].addr == In(l);
      CellOfItem(G, k, v, l, In(l));
      OutRun(l, View(v.regs[l], v.mem));
    }
  }

  lemma TameRoundFoot(l: nat)
    requires l <= 3
    ensures var c := CodeOf(TameRound, l); B(l) in Foot(c) && C(l) in Foot(c) && Writes(c) == {B(l), C(l)}
    ensures forall a :: a in Foot(CodeOf(TameRound, l)) ==> Own(l, a) || (l == 3 && a == In(1))
  {
    var d := if l == 3 then AddFrom(l, In(1)) else AddNeighbour(l, 2);
    FootConcat(Swap(l), d);
    SwapWrites(l);
    assert d[|d| - 1].Store? && d[|d| - 1].addr == C(l);
  }

  lemma TameRoundRun(l: nat, w: View)
    requires l <= 3
    ensures RunAll(CodeOf(TameRound, l), w).mem ==
            w.mem[B(l) := Read(w.mem, C(l))][C(l) := Read(w.mem, C(l)) + if l == 3 then Read(w.mem, In(1)) else 0]
  {
    hide RunAll, Swap, AddFrom, AddNeighbour;
    var d := if l == 3 then AddFrom(l, In(1)) else AddNeighbour(l, 2);
    RunAllConcat(Swap(l), d, w);
    SwapRun(l, w);
    var v := RunAll(Swap(l), w);
    if l == 3 { AddFromRun(l, In(1), v); } else { AddRun(l, 2, v); }
    assert v.mem[C(l) := 0] == w.mem[B(l) := Read(w.mem, C(l))][C(l) := 0];
  }

  lemma AfterTameRound(G: Group, m: Mem, s: seq<int>)
    requires PhaseIs(G, 2, TameRound) && PhaseRaceFree(G) && |G| == |s| <= 4
    requires Slots(At(G, 2, m).mem, s, Windows(s, 2)) && Inputs(At(G, 2, m).mem, s)
    ensures Slots(At(G, 3, m).mem, Windows(s, 2), Windows(s, 4))
  {
    hide PhaseRaceFree, RunItems, RunAll, Foot, Writes, At, Window;
    AtNext(G, 2, m);
    var v := At(G, 2, m);
    forall l | 0 <= l < |G|
      ensures var m' := At(G, 3, m).mem; Read(m', B(l)) == Window(s, 2, l) && Read(m', C(l)) == Window(s, 4, l)
    {
      assert G[l][2] == CodeOf(TameRound, l);
      TameRoundFoot(l);
      CellOfItem(G, 2, v, l, B(l));
      CellOfItem(G, 2, v, l, C(l));
      TameRoundRun(l, View(v.regs[l], v.mem));
      WindowDoubles(s, 2, l);
      if l == 3 { SecondWindow(s); }
    }
  }

  /** The second slot never adds anything. */
  lemma SecondWindow(s: seq<int>)
    requires |s| > 1
    ensures Window(s, 2, 1) == s[1]
  {
    assert Sum(s, 1, 2) == Sum(s, 1, 1) + s[1];
  }

  lemma LastWindows(s: seq<int>, d: nat)
    requires d >= |s|
    ensures Windows(s, d) == Scanned(s)
  {}

  // ----- up to four items -----

  /** The items with the tame round in place of the second round. */
  function TameProgram(ls: nat, l: nat): seq<Code>
    requires l < ls <= 4
  {
    if ls == 1 then [Fill(l), [], Out(l)]
    else if ls == 2 then [Fill(l), AddNeighbour(l, 1), Swap(l), Out(l)]
    else [Fill(l), AddNeighbour(l, 1), CodeOf(TameRound, l), Swap(l), Out(l)]
  }

  function Tame(ls: nat): Group
    requires ls <= 4
  {
    seq(ls, l requires 0 <= l < ls => TameProgram(ls, l))
  }

  /** It differs from the kernel only in the address of one load. */
  lemma TameIsClose(ls: nat, l: nat)
    requires l < ls <= 4
    ensures |Items(ls)[l]| == |Tame(ls)[l]|
    ensures forall k :: 0 <= k < |Items(ls)[l]| && !(k == 2 && l == 3) ==> Items(ls)[l][k] == Tame(ls)[l][k]
    ensures l == 3 ==> Items(ls)[l][2] == Swap(3) + AddFrom(3, B(1)) && Tame(ls)[l][2] == Swap(3) + AddFrom(3, In(1))
  {
    var empty: Code := [];
    assert empty + AddNeighbour(l, 1) == AddNeighbour(l, 1);
    if ls == 1 {
      assert Rest(l, ls, 1, []) == [[], Out(l)];
    } else if ls == 2 {
      assert Rest(l, ls, 2, Swap(l)) == [Swap(l), Out(l)];
      assert Rest(l, ls, 1, []) == [AddNeighbour(l, 1)] + Rest(l, ls, 2, Swap(l));
    } else {
      assert Rest(l, ls, 4, Swap(l)) == [Swap(l), Out(l)];
      assert Rest(l, ls, 2, Swap(l)) == [Swap(l) + AddNeighbour(l, 2)] + Rest(l, ls, 4, Swap(l));
      assert Rest(l, ls, 1, []) == [AddNeighbour(l, 1)] + Rest(l, ls, 2, Swap(l));
    }
  }

  lemma TameTouches(ls: nat, l: nat, k: nat)
    requires l < ls <= 4 && k < |Tame(ls)[l]|
    ensures var c := Tame(ls)[l][k];
            (forall a :: a in Writes(c) ==> Own(l, a))
            && (k == |Tame(ls)[l]| - 1 || forall a :: a in Writes(c) ==> a != In(l))
            && (forall a :: a in Foot(c) ==>
                  Own(l, a) || (k == 1 && ls > 1 && l > 1 && a == B(l - 1)) || (k == 2 && ls == 4 && l == 3 && a == In(1)))
            && (k == 1 && ls > 1 ==> Writes(c) == {C(l)})
    ensures ls == 4 ==> |Tame(ls)[l]| == 5
  {
    WritesInFoot(Tame(ls)[l][k]);
    AddWrites(l, 1);
    SwapWrites(l);
    TameRoundFoot(l);
  }

  lemma TameShape(ls: nat)
    requires ls <= 4
    ensures WfGroup(Tame(ls)) && |Tame(ls)| == ls
  {}

  lemma TameHasNoRaces(ls: nat)
    requires ls <= 4
    ensures PhaseRaceFree(Tame(ls))
  {
    hide Foot, Writes, TameProgram, Tame;
    var G := Tame(ls);
    TameShape(ls);
    forall l: nat, l': nat, k: nat | InGroup(G, l, k) && InGroup(G, l', k) && l != l'
      ensures Writes(G[l][k]) !! Foot(G[l'][k])
    {
      TameTouches(ls, l, k);
      TameTouches(ls, l', k);
      assert |G[l]| == |G[l']|;
    }
  }

  lemma TameIsSafe(ls: nat, m: Mem, s: seq<int>)
    requires ls == |s| <= 4 && Input(m, s)
    ensures WfLaunch([Tame(ls)]) && RaceFree([Tame(ls)]) && InBounds([Tame(ls)], m)
  {
    hide Foot, Writes, TameProgram, Tame;
    var G := Tame(ls);
    TameShape(ls);
    TameHasNoRaces(ls);
    forall a | a in Touch(G) ensures a in m.Keys {
      var l, k :| 0 <= l < |G| && 0 <= k < |G[l]| && a in Foot(G[l][k]);
      TameTouches(ls, l, k);
    }
  }

  lemma TameSingle(m: Mem, s: seq<int>)
    requires |s| == 1 && Input(m, s) && PhaseRaceFree(Tame(1)) && Slots(At(Tame(1), 1, m).mem, s, s)
    ensures Phases(Tame(1)) == 3 && Inputs(At(Tame(1), 3, m).mem, Scanned(s))
  {
    var G := Tame(1);
    AtNext(G, 1, m);
    var v := At(G, 1, m);
    assert G[0][1] == [];
    forall a ensures Read(RunItems(G, 1, 1, v).mem, a) == Read(v.mem, a) {
      CellOfNone(G, 1, v, a);
    }
    AfterStore(G, 2, m, s, s);
    assert Scanned(s) == s;
  }

  lemma TamePair(m: Mem, s: seq<int>)
    requires |s| == 2 && Input(m, s) && PhaseRaceFree(Tame(2)) && WfGroup(Tame(2)) && Phases(Tame(2)) == 4
    requires Slots(At(Tame(2), 2, m).mem, s, Windows(s, 2))
    ensures Inputs(At(Tame(2), 4, m).mem, Scanned(s))
  {
    hide PhaseRaceFree, RunPhases, Window, Scanned, At;
    var G := Tame(2);
    LastWindows(s, 2);
    AfterSwap(G, 2, m, s, Windows(s, 2));
    AfterStore(G, 3, m, Windows(s, 2), s);
  }

  lemma TameMore(ls: nat, m: Mem, s: seq<int>)
    requires 3 <= ls == |s| <= 4 && Input(m, s) && PhaseRaceFree(Tame(ls)) && WfGroup(Tame(ls)) && Phases(Tame(ls)) == 5
    requires Slots(At(Tame(ls), 2, m).mem, s, Windows(s, 2)) && Inputs(At(Tame(ls), 2, m).mem, s)
    ensures Inputs(At(Tame(ls), 5, m).mem, Scanned(s))
  {
    hide PhaseRaceFree, RunPhases, Window, Scanned, At;
    var G := Tame(ls);
    LastWindows(s, 4);
    AfterTameRound(G, m, s);
    AfterSwap(G, 3, m, Windows(s, 2), Windows(s, 4));
    AfterStore(G, 4, m, Windows(s, 4), Windows(s, 2));
  }

  /** After two phases the windows are of length two. */
  lemma TameStart(ls: nat, m: Mem, s: seq<int>)
    requires 1 <= ls == |s| <= 4 && Input(m, s) && PhaseRaceFree(Tame(ls)) && WfGroup(Tame(ls))
    ensures Phases(Tame(ls)) == if ls == 1 then 3 else if ls == 2 then 4 else 5
    ensures Slots(At(Tame(ls), 1, m).mem, s, s)
    ensures ls > 1 ==> Slots(At(Tame(ls), 2, m).mem, s, Windows(s, 2)) && Inputs(At(Tame(ls), 2, m).mem, s)
  {
    hide PhaseRaceFree, RunPhases, Window, At;
    AfterFill(Tame(ls), m, s);
    if ls > 1 { AfterAdd(Tame(ls), m, s); }
  }

  /** Whatever the interleaving, the tame launch leaves the scan. */
  lemma TameResult(ls: nat, m: Mem, s: seq<int>)
    requires ls == |s| <= 4 && Input(m, s)
    ensures WfLaunch([Tame(ls)]) && Inputs(RunLaunchInOrder([Tame(ls)], m), Scanned(s))
  {
    hide PhaseRaceFree, Tame, Window, Slots, Input;
    TameIsSafe(ls, m, s);
    var G := Tame(ls);
    assert G == [G][0];
    assert RunGroups([G], 0, m) == m;
    assert RunLaunchInOrder([G], m) == At(G, Phases(G), m).mem;
    hide At, Inputs, Scanned;
    if ls > 0 {
      TameStart(ls, m, s);
      if ls == 1 {
        TameSingle(m, s);
      } else if ls == 2 {
        TamePair(m, s);
      } else {
        TameMore(ls, m, s);
      }
    } else {
      NoInputs(RunLaunchInOrder([G], m), Scanned(s));
    }
  }

  lemma NoInputs(m: Mem, s: seq<int>)
    requires s == []
    ensures Inputs(m, s)
  {}

  // ----- the kernel runs as the tame one does -----

  function Kernel(ls: nat): Launch { [Items(ls)] }

  lemma SameShape(ls: nat, st: State)
    requires ls <= 4
    ensures WfLaunch(Kernel(ls)) && Phases(Items(ls)) == Phases(Tame(ls))
    ensures |Items(ls)| == |Tame(ls)| == ls && WfGroup(Items(ls)) && WfGroup(Tame(ls))
    ensures Shape(Kernel(ls), st) <==> Shape([Tame(ls)], st)
    ensures forall l, k :: 0 <= l < ls && 0 <= k < Phases(Items(ls)) ==> |Items(ls)[l][k]| == |Tame(ls)[l][k]|
  {
    TameShape(ls);
    assert |Items(ls)| == ls;
    hide TameProgram, Tame, Items;
    forall l | 0 <= l < ls
      ensures |Items(ls)[l]| == |Tame(ls)[l]|
      ensures forall k :: 0 <= k < |Items(ls)[l]| ==> |Items(ls)[l][k]| == |Tame(ls)[l][k]|
    {
      TameIsClose(ls, l);
    }
  }

  /** Item 1's slot holds one value all through the second round. */
  lemma ItemOneKeeps(n: nat, w: View, x: int)
    requires n <= 6 && Read(w.mem, B(1)) == Read(w.mem, C(1)) == x
    ensures Read(Run(Swap(1) + AddNeighbour(1, 2), n, w).mem, B(1)) == x
  {
    var c := Swap(1) + AddNeighbour(1, 2);
    assert Run(c, 0, w) == w;
    var w1 := Exec(c[0], w);
    var w2 := Exec(c[1], w1);
    var w3 := Exec(c[2], w2);
    var w4 := Exec(c[3], w3);
    assert n >= 1 ==> Run(c, 1, w) == w1;
    assert n >= 2 ==> Run(c, 2, w) == w2;
    assert n >= 3 ==> Run(c, 3, w) == w3;
    assert n >= 4 ==> Run(c, 4, w) == w4;
    assert Read(w4.mem, B(1)) == x;
    var w5 := Exec(c[4], w4);
    assert n >= 5 ==> Run(c, 5, w) == w5;
    assert n >= 6 ==> Run(c, 6, w) == Exec(c[5], w5);
  }

  lemma SharedValue(m0: Mem, s: seq<int>, st: State)
    requires |s| == 4 && Input(m0, s) && Inv([Tame(4)], st, m0) && st.groups[0].phase == 2
    ensures Read(st.mem, B(1)) == Read(st.mem, In(1))
  {
    var G := Tame(4);
    TameShape(4);
    TameHasNoRaces(4);
    TameStart(4, m0, s);
    var t, ref := st.groups[0], At(G, 2, m0);
    assert GroupInv([G][0], t, st.mem, m0);
    hide At, PhaseRaceFree, Input;
    assert GroupInv(G, t, st.mem, m0);
    SecondWindow(s);
    var c := G[1][2];
    assert c == Swap(1) + AddNeighbour(1, 2);
    assert t.pos[1] <= |c|;
    assert ItemInv(c, t.pos[1], t.regs[1], st.mem, View(ref.regs[1], ref.mem));
    ItemOneKeeps(t.pos[1], View(ref.regs[1], ref.mem), s[1]);
    TameRoundFoot(1);
    assert CodeOf(TameRound, 1) == c;
    InputIsKept(m0, st, G, ref);
  }

  lemma InputIsKept(m0: Mem, st: State, G: Group, ref: GroupView)
    requires G == Tame(4) && Shape([G], st) && st.groups[0].phase == 2 && WfGroup(G) && Phases(G) == 5
    requires Agree(Touch(G) - PhaseWrites(G, 2), st.mem, ref.mem)
    ensures Read(st.mem, In(1)) == Read(ref.mem, In(1))
  {
    hide Foot, Writes;
    assert In(1) in Foot(Fill(1)) by { FillTouches(1); }
    assert G[1][0] == Fill(1);
    assert In(1) in Touch(G);
    forall l | 0 <= l < |G| ensures In(1) !in Writes(G[l][2]) {
      TameRoundFoot(l);
      assert G[l][2] == CodeOf(TameRound, l);
    }
  }

  lemma FillTouches(l: nat)
    ensures In(l) in Foot(Fill(l))
  {
    assert Fill(l)[0].addr == In(l);
  }

  lemma SameRelease(ls: nat, st: State, e: Event)
    requires ls <= 4 && Shape([Tame(ls)], st) && Shape(Kernel(ls), st) && e.Release? && Enabled(Kernel(ls), st, e)
    ensures Enabled([Tame(ls)], st, e) && Next([Tame(ls)], st, e) == Next(Kernel(ls), st, e)
  {
    hide Items, Tame;
    SameShape(ls, st);
  }

  lemma SameStep(ls: nat, m0: Mem, s: seq<int>, st: State, e: Event)
    requires ls == |s| <= 4 && Input(m0, s) && Inv([Tame(ls)], st, m0)
    requires Shape(Kernel(ls), st) && e.Step? && Enabled(Kernel(ls), st, e)
    ensures Enabled([Tame(ls)], st, e) && Next([Tame(ls)], st, e) == Next(Kernel(ls), st, e)
  {
    hide Inv, Input, Items, Tame;
    SameShape(ls, st);
    var t, l := st.groups[0], e.l;
    TameIsClose(ls, l);
    if l == 3 && t.phase == 2 {
      SharedValue(m0, s, st);
      SwapLength(AddFrom(3, B(1)), t.pos[l]);
      SwapLength(AddFrom(3, In(1)), t.pos[l]);
    }
  }

  lemma SwapLength(d: Code, n: nat)
    requires n < |Swap(3) + d|
    ensures (Swap(3) + d)[n] == if n < 4 then Swap(3)[n] else d[n - 4]
  {}

  lemma {:induction false} SameRuns(ls: nat, m0: Mem, s: seq<int>, st: State, sched: seq<Event>)
    requires ls == |s| <= 4 && Input(m0, s) && Inv([Tame(ls)], st, m0)
    requires Shape(Kernel(ls), st) && Valid(Kernel(ls), st, sched)
    ensures Valid([Tame(ls)], st, sched)
    ensures Follow([Tame(ls)], st, sched) == Follow(Kernel(ls), st, sched)
    decreases |sched|
  {
    hide Inv, Input, Items, Tame, Enabled, Next, Kernel;
    SameShape(ls, st);
    if sched != [] {
      var e := sched[0];
      if e.Step? { SameStep(ls, m0, s, st, e); } else { SameRelease(ls, st, e); }
      TameIsSafe(ls, m0, s);
      NextInv([Tame(ls)], st, e, m0);
      NextShape(Kernel(ls), st, e);
      NextShape([Tame(ls)], st, e);
      SameRuns(ls, m0, s, Next(Kernel(ls), st, e), sched[1..]);
    }
  }

  /** Up to four items every run of the kernel leaves the scan. */
  lemma SmallScanIsDetermined(ls: nat, m: Mem, s: seq<int>, sched: seq<Event>)
    requires ls == |s| <= 4 && Input(m, s) && Complete(Kernel(ls), m, sched)
    ensures Inputs(Follow(Kernel(ls), Init(Kernel(ls), m), sched).mem, Scanned(s))
  {
    hide Input, Items, Tame, Enabled, Next, Scanned;
    TameIsSafe(ls, m, s);
    SameShape(ls, Init([Tame(ls)], m));
    assert |Tame(ls)| == |Items(ls)| by { TameShape(ls); ItemsLength(ls); }
    assert Init([Tame(ls)], m) == Init(Kernel(ls), m);
    InitInv([Tame(ls)], m);
    SameRuns(ls, m, s, Init(Kernel(ls), m), sched);
    EveryInterleavingIsInOrder([Tame(ls)], m, sched);
    TameResult(ls, m, s);
  }

  lemma ItemsLength(ls: nat)
    ensures |Items(ls)| == ls
  {}

  // ----- five items and more: a run that goes wrong -----

  /** The kernel up to its second barrier. */
  function Prefix(ls: nat): Group {
    seq(ls, l requires 0 <= l < ls => [Fill(l), AddNeighbour(l, 1)])
  }

  lemma PrefixTouches(l: nat)
    ensures forall a :: a in Foot(Fill(l)) ==> Own(l, a)
    ensures forall a :: a in Foot(AddNeighbour(l, 1)) ==> Own(l, a) || (l > 1 && a == B(l - 1))
    ensures forall a :: a in Writes(Fill(l)) ==> Own(l, a)
    ensures Writes(AddNeighbour(l, 1)) == {C(l)}
  {
    AddWrites(l, 1);
  }

  lemma PrefixIsSafe(m: Mem, s: seq<int>)
    requires Input(m, s)
    ensures WfLaunch([Prefix(|s|)]) && RaceFree([Prefix(|s|)]) && InBounds([Prefix(|s|)], m)
  {
    hide Foot, Writes, Fill, AddNeighbour;
    var G := Prefix(|s|);
    forall l: nat, l': nat, k: nat | InGroup(G, l, k) && InGroup(G, l', k) && l != l'
      ensures Writes(G[l][k]) !! Foot(G[l'][k])
    {
      PrefixTouches(l);
      PrefixTouches(l');
    }
    forall a | a in Touch(G) ensures a in m.Keys {
      var l, k :| 0 <= l < |G| && 0 <= k < |G[l]| && a in Foot(G[l][k]);
      PrefixTouches(l);
    }
  }

  lemma PrefixResult(m: Mem, s: seq<int>)
    requires |s| > 0 && Input(m, s)
    ensures WfLaunch([Prefix(|s|)]) && Slots(RunLaunchInOrder([Prefix(|s|)], m), s, Windows(s, 2))
  {
    hide PhaseRaceFree, Window, RunPhases;
    PrefixIsSafe(m, s);
    var G := Prefix(|s|);
    assert G == [G][0];
    assert RunGroups([G], 0, m) == m;
    assert RunLaunchInOrder([G], m) == At(G, Phases(G), m).mem;
    hide At;
    AfterFill(G, m, s);
    AfterAdd(G, m, s);
  }

  lemma PrefixIsPrefix(ls: nat, l: nat)
    requires l < ls && ls > 2
    ensures |Items(ls)[l]| > 2 && Items(ls)[l][0] == Prefix(ls)[l][0] && Items(ls)[l][1] == Prefix(ls)[l][1]
  {
    SecondRound(l, ls);
    assert Rest(l, ls, 1, []) == [[] + AddNeighbour(l, 1)] + Rest(l, ls, 2, Swap(l));
    var empty: Code := [];
    assert empty + AddNeighbour(l, 1) == AddNeighbour(l, 1);
  }

  lemma {:induction false} RestLength(l: nat, l': nat, ls: nat, d: nat, p: Code, p': Code)
    requires d >= 1
    ensures |Rest(l, ls, d, p)| == |Rest(l', ls, d, p')|
    decreases ls - d
  {
    if d < ls { RestLength(l, l', ls, 2 * d, Swap(l), Swap(l')); }
  }

  lemma KernelShape(ls: nat)
    ensures |Items(ls)| == ls && WfGroup(Items(ls)) && WfLaunch(Kernel(ls))
  {
    forall l | 0 <= l < ls ensures |Items(ls)[l]| == Phases(Items(ls)) {
      RestLength(l, 0, ls, 1, [], []);
    }
  }

  /** At most two barriers passed, and nothing begun behind the second. */
  ghost predicate Early(ls: nat, st: State) {
    Shape([Prefix(ls)], st)
    && (st.groups[0].phase == 2 ==> forall l :: 0 <= l < ls ==> st.groups[0].pos[l] == 0)
  }

  lemma EarlyShape(ls: nat, st: State)
    requires ls > 2 && Early(ls, st)
    ensures Shape(Kernel(ls), st)
  {
    KernelShape(ls);
    hide Items;
    forall l | 0 <= l < ls ensures |Items(ls)[l]| > 2 && Items(ls)[l][..2] == Prefix(ls)[l] {
      PrefixIsPrefix(ls, l);
    }
  }

  lemma EarlyStep(ls: nat, st: State, e: Event)
    requires ls > 2 && Early(ls, st) && Shape(Kernel(ls), st) && Enabled([Prefix(ls)], st, e)
    ensures Enabled(Kernel(ls), st, e) && Next(Kernel(ls), st, e) == Next([Prefix(ls)], st, e)
    ensures Early(ls, Next([Prefix(ls)], st, e))
  {
    KernelShape(ls);
    hide Items;
    forall l | 0 <= l < ls ensures |Items(ls)[l]| > 2 && Items(ls)[l][..2] == Prefix(ls)[l] {
      PrefixIsPrefix(ls, l);
    }
    NextShape([Prefix(ls)], st, e);
  }

  lemma {:induction false} EarlyRuns(ls: nat, st: State, sched: seq<Event>)
    requires ls > 2 && Early(ls, st) && Shape(Kernel(ls), st) && Valid([Prefix(ls)], st, sched)
    ensures Valid(Kernel(ls), st, sched) && Follow(Kernel(ls), st, sched) == Follow([Prefix(ls)], st, sched)
    ensures Early(ls, Follow([Prefix(ls)], st, sched))
    decreases |sched|
  {
    hide Items, Prefix, Enabled, Next, Kernel;
    if sched != [] {
      var e := sched[0];
      EarlyStep(ls, st, e);
      NextShape(Kernel(ls), st, e);
      EarlyRuns(ls, Next([Prefix(ls)], st, e), sched[1..]);
    }
  }

  // Item 4 adds a neighbour in the second round for the last time; what it has
  // then is what it ends with.

  function CopyOwn(): Code { [Load(0, B(4)), Store(C(4), 0)] }

  predicate LateRound(c: Code) { c == Swap(4) + CopyOwn() || c == Swap(4) }

  lemma {:induction false} RestIsLate(ls: nat, d: nat, j: nat)
    requires d >= 4
    ensures var r := Rest(4, ls, d, Swap(4));
            |r| >= 2 && r[|r| - 1] == Out(4) && (j < |r| - 1 ==> LateRound(r[j]))
            && (d < ls ==> |r| >= 3 && r[0] == Swap(4) + CopyOwn())
    decreases ls - d
  {
    if d < ls { RestIsLate(ls, 2 * d, if j > 0 then j - 1 else 0); }
  }

  lemma LatePhases(ls: nat)
    requires ls >= 5
    ensures |Items(ls)[4]| == |Rest(4, ls, 4, Swap(4))| + 3 >= 6
  {
    RestIsLate(ls, 4, 0);
    assert Rest(4, ls, 2, Swap(4)) == [Swap(4) + AddNeighbour(4, 2)] + Rest(4, ls, 4, Swap(4));
    assert Rest(4, ls, 1, []) == [[] + AddNeighbour(4, 1)] + Rest(4, ls, 2, Swap(4));
  }

  lemma LateCode(ls: nat, k: nat)
    requires ls >= 5 && 3 <= k < |Items(ls)[4]|
    ensures var c := Items(ls)[4][k];
            |Items(ls)[4]| >= 6 && (k == 3 ==> c == Swap(4) + CopyOwn())
            && (if k < |Items(ls)[4]| - 1 then LateRound(c) else c == Out(4))
  {
    RestIsLate(ls, 4, k - 3);
    assert Rest(4, ls, 2, Swap(4)) == [Swap(4) + AddNeighbour(4, 2)] + Rest(4, ls, 4, Swap(4));
    assert Rest(4, ls, 1, []) == [[] + AddNeighbour(4, 1)] + Rest(4, ls, 2, Swap(4));
  }

  /** Two memories hold the same in item 4's cells. */
  ghost predicate OwnSame(m: Mem, m': Mem) {
    Read(m, In(4)) == Read(m', In(4)) && Read(m, B(4)) == Read(m', B(4)) && Read(m, C(4)) == Read(m', C(4))
  }

  lemma LateFoot(c: Code)
    requires LateRound(c) || c == Out(4)
    ensures forall a :: a in Foot(c) ==> Own(4, a)
  {
    FootConcat(Swap(4), CopyOwn());
    SwapWrites(4);
  }

  lemma SwapCopyRun(w: View)
    ensures var m := RunAll(Swap(4) + CopyOwn(), w).mem; Read(m, B(4)) == Read(m, C(4)) == Read(w.mem, C(4))
  {
    RunAllConcat(Swap(4), CopyOwn(), w);
    SwapRun(4, w);
    assert AddNeighbour(4, 4) == CopyOwn();
    AddRun(4, 4, RunAll(Swap(4), w));
  }

  /** What item 4 finds when phase k of P begins. */
  ghost predicate Entry(k: nat, P: nat, m: Mem, v: int) {
    if k == 3 then Read(m, C(4)) == v
    else if k < P then Read(m, B(4)) == v && Read(m, C(4)) == v
    else Read(m, In(4)) == v
  }

  lemma LateRun(ls: nat, k: nat, w: View, v: int)
    requires ls >= 5 && 3 <= k < |Items(ls)[4]| && Entry(k, |Items(ls)[4]|, w.mem, v)
    ensures Entry(k + 1, |Items(ls)[4]|, RunAll(Items(ls)[4][k], w).mem, v)
  {
    hide RunAll, Items, Swap, CopyOwn;
    LateCode(ls, k);
    SwapCopyRun(w);
    SwapRun(4, w);
    OutRun(4, w);
  }

  /** Item 4, after n instructions of c, is where running c alone from w leads it. */
  ghost predicate OnItsOwn(c: Code, n: nat, r: Regs, m: Mem, w: View) {
    n <= |c| && r == Run(c, n, w).regs && OwnSame(m, Run(c, n, w).mem)
  }

  lemma OwnStep(c: Code, n: nat, r: Regs, m: Mem, w: View)
    requires n < |c| && OnItsOwn(c, n, r, m, w) && forall a :: a in Foot(c) ==> Own(4, a)
    ensures var v := Exec(c[n], View(r, m)); OnItsOwn(c, n + 1, v.regs, v.mem, w)
  {
    if c[n].Load? || c[n].Store? { assert c[n].addr in Foot(c); }
  }

  ghost predicate Late(ls: nat, st: State, v: int)
    requires ls >= 5
  {
    KernelShape(ls);
    Shape(Kernel(ls), st) &&
    var G, t := Items(ls), st.groups[0];
    if t.phase <= 2 then t.phase == 2 && Phases(G) > 2 && t.pos[4] == |G[4][2]| && Read(st.mem, C(4)) == v
    else if t.phase == Phases(G) then Entry(t.phase, Phases(G), st.mem, v)
    else exists w: View :: Entry(t.phase, Phases(G), w.mem, v) && OnItsOwn(G[4][t.phase], t.pos[4], t.regs[4], st.mem, w)
  }

  lemma {:induction false} RestWrites(l: nat, ls: nat, d: nat, pending: Code, j: nat)
    requires d >= 1 && j < |Rest(l, ls, d, pending)| && forall a :: a in Writes(pending) ==> Own(l, a)
    ensures forall a :: a in Writes(Rest(l, ls, d, pending)[j]) ==> Own(l, a)
    decreases ls - d
  {
    SwapWrites(l);
    if d < ls {
      FootConcat(pending, AddNeighbour(l, d));
      AddWrites(l, d);
      if j > 0 { RestWrites(l, ls, 2 * d, Swap(l), j - 1); }
    }
  }

  lemma ItemWrites(ls: nat, l: nat, k: nat)
    requires l < ls && k < |Items(ls)[l]|
    ensures forall a :: a in Writes(Items(ls)[l][k]) ==> Own(l, a)
  {
    if k > 0 { RestWrites(l, ls, 1, [], k - 1); }
  }

  lemma OthersKeepOut(ls: nat, l: nat, k: nat, n: nat, r: Regs, m: Mem)
    requires l < ls && l != 4 && k < |Items(ls)[l]| && n < |Items(ls)[l][k]|
    ensures OwnSame(Exec(Items(ls)[l][k][n], View(r, m)).mem, m)
  {
    ItemsLength(ls);
    hide Items;
    ItemWrites(ls, l, k);
    StepChanges(Items(ls)[l][k], n, r, m);
  }

  lemma LateOther(ls: nat, st: State, l: nat, v: int)
    requires ls >= 5 && Late(ls, st, v) && l != 4 && Enabled(Kernel(ls), st, Step(0, l))
    ensures Late(ls, Next(Kernel(ls), st, Step(0, l)), v)
  {
    KernelShape(ls);
    NextShape(Kernel(ls), st, Step(0, l));
    hide Items, Exec;
    var G, t := Items(ls), st.groups[0];
    OthersKeepOut(ls, l, t.phase, t.pos[l], t.regs[l], st.mem);
    if 2 < t.phase < Phases(G) {
      var w: View :| Entry(t.phase, Phases(G), w.mem, v) && OnItsOwn(G[4][t.phase], t.pos[4], t.regs[4], st.mem, w);
      assert OnItsOwn(G[4][t.phase], t.pos[4], t.regs[4], Next(Kernel(ls), st, Step(0, l)).mem, w);
    }
  }

  lemma LateOwn(ls: nat, st: State, v: int)
    requires ls >= 5 && Late(ls, st, v) && Enabled(Kernel(ls), st, Step(0, 4))
    ensures Late(ls, Next(Kernel(ls), st, Step(0, 4)), v)
  {
    KernelShape(ls);
    NextShape(Kernel(ls), st, Step(0, 4));
    hide Items, Exec, OnItsOwn;
    var G, t := Items(ls), st.groups[0];
    var w: View :| Entry(t.phase, Phases(G), w.mem, v) && OnItsOwn(G[4][t.phase], t.pos[4], t.regs[4], st.mem, w);
    LateCode(ls, t.phase);
    LateFoot(G[4][t.phase]);
    OwnStep(G[4][t.phase], t.pos[4], t.regs[4], st.mem, w);
  }

  lemma LateRelease(ls: nat, st: State, v: int)
    requires ls >= 5 && Late(ls, st, v) && Enabled(Kernel(ls), st, Release(0))
    ensures Late(ls, Next(Kernel(ls), st, Release(0)), v)
  {
    KernelShape(ls);
    NextShape(Kernel(ls), st, Release(0));
    hide Items;
    var G, t := Items(ls), st.groups[0];
    var k := t.phase;
    if k > 2 {
      var w: View :| Entry(k, Phases(G), w.mem, v) && OnItsOwn(G[4][k], t.pos[4], t.regs[4], st.mem, w);
      LateRun(ls, k, w, v);
    }
    assert Entry(k + 1, Phases(G), st.mem, v);
    if k + 1 < Phases(G) {
      assert OnItsOwn(G[4][k + 1], 0, t.regs[4], st.mem, View(t.regs[4], st.mem));
    }
  }

  lemma {:induction false} LateRuns(ls: nat, st: State, sched: seq<Event>, v: int)
    requires ls >= 5 && Shape(Kernel(ls), st) && Late(ls, st, v) && Valid(Kernel(ls), st, sched)
    ensures Late(ls, Follow(Kernel(ls), st, sched), v)
    decreases |sched|
  {
    hide Next, Items, Late;
    if sched != [] {
      var e := sched[0];
      LateNext(ls, st, e, v);
      LateRuns(ls, Next(Kernel(ls), st, e), sched[1..], v);
    }
  }

  lemma LateNext(ls: nat, st: State, e: Event, v: int)
    requires ls >= 5 && Shape(Kernel(ls), st) && Late(ls, st, v) && Enabled(Kernel(ls), st, e)
    ensures Shape(Kernel(ls), Next(Kernel(ls), st, e)) && Late(ls, Next(Kernel(ls), st, e), v)
  {
    hide Next, Items, Late;
    NextShape(Kernel(ls), st, e);
    match e
    case Release(g) => LateRelease(ls, st, v);
    case Step(g, l) => if l == 4 { LateOwn(ls, st, v); } else { LateOther(ls, st, l, v); }
  }

  /** In its second round item 4 adds what it finds in item 2's slot. */
  lemma SecondRoundRun(w: View)
    ensures Read(RunAll(Swap(4) + AddNeighbour(4, 2), w).mem, C(4)) == Read(w.mem, C(4)) + Read(w.mem, B(2))
  {
    RunAllConcat(Swap(4), AddNeighbour(4, 2), w);
    SwapRun(4, w);
    AddRun(4, 2, RunAll(Swap(4), w));
  }

  /** All items pass the first two phases, in whatever order. */
  lemma FirstPart(m: Mem, s: seq<int>) returns (sched: seq<Event>, st: State)
    requires |s| >= 5 && Input(m, s)
    ensures var L := Kernel(|s|);
            WfLaunch(L) && Shape(L, Init(L, m)) && Valid(L, Init(L, m), sched)
            && Follow(L, Init(L, m), sched) == st && st.groups[0].phase == 2
            && (forall l :: 0 <= l < |s| ==> st.groups[0].pos[l] == 0)
            && Slots(st.mem, s, Windows(s, 2))
  {
    var ls := |s|;
    var L, P := Kernel(ls), [Prefix(ls)];
    KernelShape(ls);
    PrefixIsSafe(m, s);
    assert |Prefix(ls)| == |Items(ls)|;
    assert Init(P, m) == Init(L, m);
    assert Early(ls, Init(P, m));
    EarlyShape(ls, Init(P, m));
    hide Items, Prefix, Next, Enabled, Input, Slots, Windows;
    sched := CanComplete(P, Init(P, m));
    st := Follow(P, Init(P, m), sched);
    EarlyRuns(ls, Init(P, m), sched);
    EveryInterleavingIsInOrder(P, m, sched);
    PrefixResult(m, s);
    PrefixPhases(ls);
  }

  lemma PrefixPhases(ls: nat)
    requires ls > 0
    ensures Phases(Prefix(ls)) == 2
  {}

  /** Whenever the second element is not zero the kernel has a complete run that
      leaves the fifth sum without it: item 4 goes through its second round first. */
  lemma FailingRun(m: Mem, s: seq<int>) returns (sched: seq<Event>)
    requires |s| >= 5 && s[1] != 0 && Input(m, s)
    ensures Complete(Kernel(|s|), m, sched)
    ensures Read(Follow(Kernel(|s|), Init(Kernel(|s|), m), sched).mem, In(4)) == Scanned(s)[4] - s[1]
  {
    var ls := |s|;
    var L := Kernel(ls);
    var first, st := FirstPart(m, s);
    SecondRound(4, ls);
    KernelShape(ls);
    hide Items, Scanned, Windows;
    var n := |L[0][4][2]|;
    var middle := RunOneItem(L, st, 0, 4, n);
    var st' := Advanced(L, st, 0, 4, n);
    var t := st.groups[0];
    SecondRoundRun(View(t.regs[4], st.mem));
    var v := Read(st'.mem, C(4));
    assert v == Read(st.mem, C(4)) + Read(st.mem, B(2));
    FifthSum(st.mem, s);
    assert Late(ls, st', v);
    hide Advanced, Late, Next, Enabled;
    var last := CanComplete(L, st');
    LateRuns(ls, st', last, v);
    ValidConcat(L, st, middle, last);
    ValidConcat(L, Init(L, m), first, middle + last);
    sched := first + (middle + last);
    LateEnds(ls, Follow(L, st', last), v);
  }

  lemma LateEnds(ls: nat, st: State, v: int)
    requires ls >= 5 && Shape(Kernel(ls), st) && Late(ls, st, v) && Done(Kernel(ls), st)
    ensures Read(st.mem, In(4)) == v
  {
    KernelShape(ls);
    LatePhases(ls);
  }

  lemma FifthSum(m: Mem, s: seq<int>)
    requires |s| >= 5 && Slots(m, s, Windows(s, 2))
    ensures Read(m, C(4)) + Read(m, B(2)) == Scanned(s)[4] - s[1]
  {
    assert Windows(s, 2)[4] == Sum(s, 3, 5);
    SumSplit(s, 1, 3, 5);
    assert Sum(s, 1, 3) == Sum(s, 1, 2) + s[2];
    assert Sum(s, 1, 2) == Sum(s, 1, 1) + s[1];
  }

  function Cells(ls: nat): set<Addr> {
    (set l | 0 <= l < ls :: In(l)) + (set l | 0 <= l < ls :: B(l)) + (set l | 0 <= l < ls :: C(l))
  }

  /** An input for which the order matters. */
  lemma SecondElement(ls: nat) returns (m: Mem, s: seq<int>)
    requires ls >= 5
    ensures |s| == ls && s[1] == 1 && Input(m, s)
  {
    s := seq(ls, l => if l == 1 then 1 else 0);
    m := map a | a in Cells(ls) :: if a == In(1) then 1 else 0;
  }

  /** The kernel computes the scan of every input, whatever local memory held and
      however its items interleave, exactly in groups of at most four items. */
  lemma ScanIsDeterminedUpToFour(ls: nat)
    ensures (forall m: Mem, s: seq<int>, sched: seq<Event> ::
               |s| == ls && Input(m, s) && Complete(Kernel(ls), m, sched) ==>
                 Inputs(Follow(Kernel(ls), Init(Kernel(ls), m), sched).mem, Scanned(s)))
            <==> ls <= 4
  {
    hide Input, Kernel, Scanned;
    if ls <= 4 {
      forall m: Mem, s: seq<int>, sched: seq<Event> | |s| == ls && Input(m, s) && Complete(Kernel(ls), m, sched)
        ensures Inputs(Follow(Kernel(ls), Init(Kernel(ls), m), sched).mem, Scanned(s))
      {
        SmallScanIsDetermined(ls, m, s, sched);
      }
    } else {
      var m, s := SecondElement(ls);
      var sched := FailingRun(m, s);
      var end := Follow(Kernel(ls), Init(Kernel(ls), m), sched).mem;
      assert Read(end, In(4)) != Scanned(s)[4];
    }
  }
}
