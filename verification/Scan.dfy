/** The Hillis-Steele scan of one work-group, in lockstep; and when its barriers
    are enough to make the interleaving of the items irrelevant. */
module Scan {
  import opened WorkGroup

  function Sum(s: seq<int>, from: nat, to: nat): int
    requires to <= |s|
  {
    if from >= to then 0 else Sum(s, from, to - 1) + s[to - 1]
  }

  lemma {:induction false} SumSplit(s: seq<int>, from: nat, mid: nat, to: nat)
    requires from <= mid <= to <= |s|
    ensures Sum(s, from, to) == Sum(s, from, mid) + Sum(s, mid, to)
  {
    if mid < to { SumSplit(s, from, mid, to - 1); }
  }

  /** The last `d` elements up to and including `lid`, but never the first one,
      which only its own slot holds. */
  function Window(s: seq<int>, d: nat, lid: nat): int
    requires lid < |s|
  {
    if lid == 0 then s[0] else Sum(s, if lid > d then lid - d + 1 else 1, lid + 1)
  }

  lemma WindowOfOne(s: seq<int>, lid: nat)
    requires lid < |s|
    ensures Window(s, 1, lid) == s[lid]
  {
    assert lid > 0 ==> Sum(s, lid, lid + 1) == Sum(s, lid, lid) + s[lid];
  }

  /** Adding the neighbour at distance `d` doubles the window. */
  lemma WindowDoubles(s: seq<int>, d: nat, lid: nat)
    requires lid < |s| && d >= 1
    ensures Window(s, 2 * d, lid) == if lid > d then Window(s, d, lid) + Window(s, d, lid - d) else Window(s, d, lid)
  {
    if lid > d {
      SumSplit(s, if lid > 2 * d then lid - 2 * d + 1 else 1, lid - d + 1, lid + 1);
    }
  }

  /** What the kernel leaves in the array. */
  function Scanned(s: seq<int>): (t: seq<int>)
    ensures |t| == |s|
  {
    seq(|s|, lid requires 0 <= lid < |s| => if lid == 0 then s[0] else Sum(s, 1, lid + 1))
  }

  function PrefixSums(s: seq<int>): seq<int> {
    seq(|s|, lid requires 0 <= lid < |s| => Sum(s, 0, lid + 1))
  }

  /** It is the scan that was asked for exactly if the first element is zero or
      the only one. */
  lemma ScannedIsPrefixSums(s: seq<int>)
    ensures Scanned(s) == PrefixSums(s) <==> |s| <= 1 || s[0] == 0
  {
    forall lid | 0 <= lid < |s|
      ensures PrefixSums(s)[lid] == Scanned(s)[lid] + if lid > 0 then s[0] else 0
    {
      SumSplit(s, 0, 1, lid + 1);
      assert Sum(s, 0, 1) == Sum(s, 0, 0) + s[0];
    }
    if |s| > 1 { assert PrefixSums(s)[1] == Scanned(s)[1] + s[0]; }
  }

  /** All items take each step together. */
  method HillisSteeleScan(a: array<int>)
    modifies a
    ensures a[..] == Scanned(old(a[..]))
  {
    var ls := a.Length;
    ghost var s := a[..];
    var slmB, slmC := new int[ls], new int[ls];
    for lid := 0 to ls
      invariant forall i :: 0 <= i < lid ==> slmB[i] == s[i]
      invariant a[..] == s
    {
      slmC[lid] := a[lid];
      slmB[lid] := a[lid];
    }
    var d := 1;
    forall lid | 0 <= lid < ls ensures slmB[lid] == Window(s, d, lid) { WindowOfOne(s, lid); }
    while d < ls
      invariant d >= 1 && a[..] == s
      invariant forall lid :: 0 <= lid < ls ==> slmB[lid] == Window(s, d, lid)
    {
      for lid := 0 to ls
        invariant a[..] == s
        invariant forall i :: 0 <= i < ls ==> slmB[i] == Window(s, d, i)
        invariant forall i :: 0 <= i < lid ==> slmC[i] == Window(s, 2 * d, i)
      {
        WindowDoubles(s, d, lid);
        slmC[lid] := if lid > d then slmB[lid] + slmB[lid - d] else slmB[lid];
      }
      for lid := 0 to ls
        invariant a[..] == s
        invariant forall i :: 0 <= i < lid ==> slmB[i] == Window(s, 2 * d, i)
        invariant forall i :: lid <= i < ls ==> slmC[i] == Window(s, 2 * d, i)
      {
        var e := slmC[lid];
        slmC[lid] := slmB[lid];
        slmB[lid] := e;
      }
      d := d * 2;
    }
    for lid := 0 to ls
      invariant forall i :: 0 <= i < lid ==> a[i] == Scanned(s)[i]
      invariant forall i :: 0 <= i < ls ==> slmB[i] == Window(s, d, i)
    {
      a[lid] := slmB[lid];
    }
  }

  // ----- the kernel's items between its barriers -----

  function In(lid: nat): Addr { Global(0, lid, 0) }
  function B(lid: nat): Addr { Local(0, 0, lid, 0) }
  function C(lid: nat): Addr { Local(0, 1, lid, 0) }

  function Fill(lid: nat): Code {
    [Load(0, In(lid)), Store(C(lid), 0), Store(B(lid), 0)]
  }

  /** slm_c[lid] = slm_b[lid] plus the value at another address. */
  function AddFrom(lid: nat, a: Addr): Code {
    [Load(0, B(lid)), Load(1, a), Arith(0, Add, 0, 1), Store(C(lid), 0)]
  }

  function AddNeighbour(lid: nat, d: nat): Code {
    if lid > d then AddFrom(lid, B(lid - d)) else [Load(0, B(lid)), Store(C(lid), 0)]
  }

  function Swap(lid: nat): Code {
    [Load(0, C(lid)), Load(1, B(lid)), Store(C(lid), 1), Store(B(lid), 0)]
  }

  /** The code of an item from stride `d` on; the swap of a round and the sum of the
      next one are not separated by a barrier. */
  function Rest(lid: nat, ls: nat, d: nat, pending: Code): seq<Code>
    requires d >= 1
    decreases ls - d
  {
    if d < ls then [pending + AddNeighbour(lid, d)] + Rest(lid, ls, 2 * d, Swap(lid))
    else [pending, Out(lid)]
  }

  function Out(lid: nat): Code { [Load(0, B(lid)), Store(In(lid), 0)] }

  function Items(ls: nat): Group {
    seq(ls, lid requires 0 <= lid < ls => [Fill(lid)] + Rest(lid, ls, 1, []))
  }

  /** What an item may touch besides its own cells. */
  predicate Own(lid: nat, a: Addr) {
    a == In(lid) || a == B(lid) || a == C(lid)
  }

  lemma {:induction false} RestTouches(lid: nat, ls: nat, d: nat, pending: Code, k: nat)
    requires d >= 2 && lid < ls <= 3 && k < |Rest(lid, ls, d, pending)|
    requires forall a :: a in Foot(pending) ==> Own(lid, a)
    ensures forall a :: a in Foot(Rest(lid, ls, d, pending)[k]) ==> Own(lid, a)
    decreases ls - d
  {
    if d < ls {
      FootConcat(pending, AddNeighbour(lid, d));
      if k > 0 { RestTouches(lid, ls, 2 * d, Swap(lid), k - 1); }
    }
  }

  lemma ItemTouches(lid: nat, ls: nat, k: nat)
    requires lid < ls <= 3 && k < |Items(ls)[lid]|
    ensures k != 1 ==> forall a :: a in Foot(Items(ls)[lid][k]) ==> Own(lid, a)
    ensures k == 1 ==> (forall a :: a in Foot(Items(ls)[lid][k]) ==> Own(lid, a) || exists i :: a == B(i))
                       && (forall a :: a in Writes(Items(ls)[lid][k]) ==> a == C(lid) || (a == In(lid) && ls <= 1))
  {
    if 1 < ls {
      assert Rest(lid, ls, 1, [])[0] == [] + AddNeighbour(lid, 1);
      if k > 1 { RestTouches(lid, ls, 2, Swap(lid), k - 2); }
    }
  }

  /** No item writes between two barriers what another accesses, exactly in groups
      of at most three items. */
  lemma RaceFreeUpToThree(ls: nat)
    ensures PhaseRaceFree(Items(ls)) <==> ls <= 3
  {
    if ls <= 3 {
      forall l: nat, l': nat, k: nat | InGroup(Items(ls), l, k) && InGroup(Items(ls), l', k) && l != l'
        ensures Writes(Items(ls)[l][k]) !! Foot(Items(ls)[l'][k])
      {
        ItemTouches(l, ls, k);
        ItemTouches(l', ls, k);
        WritesInFoot(Items(ls)[l][k]);
      }
    } else {
      SecondRound(1, ls);
      SecondRound(3, ls);
      var one, three := Items(ls)[1][2], Items(ls)[3][2];
      assert one[3].Store? && one[3].addr == B(1);
      assert three[5].Load? && three[5].addr == B(1);
      assert InGroup(Items(ls), 1, 2) && InGroup(Items(ls), 3, 2);
      assert B(1) in Writes(one) && B(1) in Foot(three);
    }
  }

  lemma SecondRound(lid: nat, ls: nat)
    requires lid < ls && ls > 2
    ensures |Items(ls)[lid]| > 2 && Items(ls)[lid][2] == Swap(lid) + AddNeighbour(lid, 2)
  {
    assert Rest(lid, ls, 1, []) == [[] + AddNeighbour(lid, 1)] + Rest(lid, ls, 2, Swap(lid));
  }

  // ----- what the race does -----

  lemma SwapRun(lid: nat, w: View)
    ensures RunAll(Swap(lid), w).mem == w.mem[C(lid) := Read(w.mem, B(lid))][B(lid) := Read(w.mem, C(lid))]
  {
    var c := Swap(lid);
    assert Run(c, 0, w) == w;
    assert Run(c, 1, w) == Exec(c[0], w);
    assert Run(c, 2, w) == Exec(c[1], Run(c, 1, w));
    assert Run(c, 3, w) == Exec(c[2], Run(c, 2, w));
  }

  lemma AddFromRun(lid: nat, a: Addr, w: View)
    ensures RunAll(AddFrom(lid, a), w).mem == w.mem[C(lid) := Read(w.mem, B(lid)) + Read(w.mem, a)]
  {
    var c := AddFrom(lid, a);
    assert Run(c, 0, w) == w;
    assert Run(c, 1, w) == Exec(c[0], w);
    assert Run(c, 2, w) == Exec(c[1], Run(c, 1, w));
    assert Run(c, 3, w) == Exec(c[2], Run(c, 2, w));
  }

  lemma AddRun(lid: nat, d: nat, w: View)
    ensures RunAll(AddNeighbour(lid, d), w).mem ==
            w.mem[C(lid) := Read(w.mem, B(lid)) + if lid > d then Read(w.mem, B(lid - d)) else 0]
  {
    if lid > d {
      AddFromRun(lid, B(lid - d), w);
    } else {
      var c := AddNeighbour(lid, d);
      assert Run(c, 0, w) == w;
      assert Run(c, 1, w) == Exec(c[0], w);
    }
  }

  lemma FillRun(lid: nat, w: View)
    ensures RunAll(Fill(lid), w).mem == w.mem[C(lid) := Read(w.mem, In(lid))][B(lid) := Read(w.mem, In(lid))]
  {
    var c := Fill(lid);
    assert Run(c, 0, w) == w;
    assert Run(c, 1, w) == Exec(c[0], w);
    assert Run(c, 2, w) == Exec(c[1], Run(c, 1, w));
  }

  lemma OutRun(lid: nat, w: View)
    ensures RunAll(Out(lid), w).mem == w.mem[In(lid) := Read(w.mem, B(lid))]
  {
    var c := Out(lid);
    assert Run(c, 0, w) == w;
    assert Run(c, 1, w) == Exec(c[0], w);
  }

  /** The memory after an item's swap and its next sum, from fresh registers. */
  function RoundOf(lid: nat, d: nat, m: Mem): Mem {
    RunAll(Swap(lid) + AddNeighbour(lid, d), View(map[], m)).mem
  }

  lemma RoundRun(lid: nat, d: nat, m: Mem)
    ensures RoundOf(lid, d, m) ==
            var s := m[C(lid) := Read(m, B(lid))][B(lid) := Read(m, C(lid))];
            s[C(lid) := Read(s, B(lid)) + if lid > d then Read(s, B(lid - d)) else 0]
  {
    hide RunAll, Swap, AddNeighbour;
    RunAllConcat(Swap(lid), AddNeighbour(lid, d), View(map[], m));
    SwapRun(lid, View(map[], m));
    AddRun(lid, d, RunAll(Swap(lid), View(map[], m)));
  }

  /** Of two items in one phase, the later one in the group adds its neighbour's new
      value if the neighbour went first, and its old value otherwise. */
  lemma OrderMatters(lid: nat, d: nat, m: Mem)
    requires lid > d >= 1
    ensures Read(RoundOf(lid, d, RoundOf(lid - d, d, m)), C(lid)) == Read(m, C(lid)) + Read(m, C(lid - d))
    ensures Read(RoundOf(lid - d, d, RoundOf(lid, d, m)), C(lid)) == Read(m, C(lid)) + Read(m, B(lid - d))
  {
    hide RoundOf;
    RoundRun(lid - d, d, m);
    RoundRun(lid, d, RoundOf(lid - d, d, m));
    RoundRun(lid, d, m);
    RoundRun(lid - d, d, RoundOf(lid, d, m));
  }
}
