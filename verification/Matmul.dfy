/** The sliding-window matrix product: 2 x 2 work-groups, two barriers per block of
    columns, zero padding where a block hangs over an edge. */
module Matmul {
  import opened Radix
  import opened Options
  import opened WorkGroup

  const SIDE: nat := 2

  // Global buffers X, y, result; local accessors X_slm, Y_slm.
  function X(i: nat, j: nat): Addr { Global(0, i, j) }
  function Y(i: nat, j: nat): Addr { Global(1, i, j) }
  function Res(i: nat, j: nat): Addr { Global(2, i, j) }
  function XSlm(g: nat, i: nat, j: nat): Addr { Local(g, 0, i, j) }
  function YSlm(g: nat, i: nat, j: nat): Addr { Local(g, 1, i, j) }

  function Copy(from: Addr, to: Addr): Code { [Load(1, from), Store(to, 1)] }

  /** Work-group g at grid position (gi, gj) of a product (rows x n) * (n x cols). */
  datatype Tile = Tile(g: nat, gi: nat, gj: nat, rows: nat, n: nat, cols: nat) {
    function Row(l: nat): nat { SIDE * gi + l / SIDE }
    function Col(l: nat): nat { SIDE * gj + l % SIDE }

    function Blocks(): nat { if n % SIDE > 0 then n / SIDE + 1 else n / SIDE }

    function LoadBlock(l: nat, b: nat): Code {
      var (lr, lc) := (l / SIDE, l % SIDE);
      [Const(1, 0), Store(XSlm(g, lr, lc), 1), Store(YSlm(g, lr, lc), 1)]
      + (if Row(l) < rows && lc + SIDE * b < n then Copy(X(Row(l), lc + SIDE * b), XSlm(g, lr, lc)) else [])
      + (if Col(l) < cols && lr + SIDE * b < n then Copy(Y(lr + SIDE * b, Col(l)), YSlm(g, lr, lc)) else [])
    }

    /** output += X_slm[lr, idx] * Y_slm[idx, lc] */
    function AddProduct(l: nat, idx: nat): Code {
      [Load(1, XSlm(g, l / SIDE, idx)), Load(2, YSlm(g, idx, l % SIDE)), Arith(1, Mul, 1, 2), Arith(0, Add, 0, 1)]
    }

    function Products(l: nat, k: nat): Code {
      if k == 0 then [] else Products(l, k - 1) + AddProduct(l, k - 1)
    }

    function WriteResult(l: nat): Code {
      if Row(l) < rows && Col(l) < cols then [Store(Res(Row(l), Col(l)), 0)] else []
    }

    function Body(l: nat, k: nat): Code {
      if k == 2 * Blocks() then WriteResult(l) else if k % 2 == 0 then LoadBlock(l, k / 2) else Products(l, SIDE)
    }

    /** Between barriers k and k + 1; output starts at zero. */
    function Phase(l: nat, k: nat): Code {
      (if k == 0 then [Const(0, 0)] else []) + Body(l, k)
    }

    function Program(l: nat): seq<Code> { seq(2 * Blocks() + 1, k requires 0 <= k <= 2 * Blocks() => Phase(l, k)) }

    function Items(): (G: Group) { seq(SIDE * SIDE, l requires 0 <= l < SIDE * SIDE => Program(l)) }
  }

  // ----- what the code touches -----

  predicate OwnSlm(t: Tile, l: nat, a: Addr) {
    a.Local? && a.group == t.g && a.buf < 2 && a.i == l / SIDE && a.j == l % SIDE
  }

  predicate GroupSlm(t: Tile, a: Addr) { a.Local? && a.group == t.g && a.buf < 2 && a.i < SIDE && a.j < SIDE }

  predicate Operand(t: Tile, a: Addr) {
    a.Global? && ((a.buf == 0 && a.i < t.rows && a.j < t.n) || (a.buf == 1 && a.i < t.n && a.j < t.cols))
  }

  predicate OwnResult(t: Tile, l: nat, a: Addr) {
    a == Res(t.Row(l), t.Col(l)) && t.Row(l) < t.rows && t.Col(l) < t.cols
  }

  lemma LoadBlockFoot(t: Tile, l: nat, b: nat)
    requires l < SIDE * SIDE
    ensures forall a :: a in Foot(t.LoadBlock(l, b)) ==> OwnSlm(t, l, a) || Operand(t, a)
    ensures forall a :: a in Writes(t.LoadBlock(l, b)) ==> OwnSlm(t, l, a)
    ensures XSlm(t.g, l / SIDE, l % SIDE) in Foot(t.LoadBlock(l, b))
    ensures YSlm(t.g, l / SIDE, l % SIDE) in Foot(t.LoadBlock(l, b))
  {
    var c := t.LoadBlock(l, b);
    assert c[1].Store? && c[1].addr == XSlm(t.g, l / SIDE, l % SIDE);
    assert c[2].Store? && c[2].addr == YSlm(t.g, l / SIDE, l % SIDE);
  }

  lemma {:induction false} ProductsFoot(t: Tile, l: nat, k: nat)
    requires l < SIDE * SIDE && k <= SIDE
    ensures forall a :: a in Foot(t.Products(l, k)) ==> GroupSlm(t, a)
    ensures Writes(t.Products(l, k)) == {}
  {
    if k > 0 {
      ProductsFoot(t, l, k - 1);
      FootConcat(t.Products(l, k - 1), t.AddProduct(l, k - 1));
    }
  }

  lemma PhaseFoot(t: Tile, l: nat, k: nat)
    requires l < SIDE * SIDE && k <= 2 * t.Blocks()
    ensures Foot(t.Phase(l, k)) == Foot(t.Body(l, k)) && Writes(t.Phase(l, k)) == Writes(t.Body(l, k))
    ensures k == 2 * t.Blocks() ==> forall a :: a in Foot(t.Phase(l, k)) ==> OwnResult(t, l, a)
    ensures k < 2 * t.Blocks() && k % 2 == 0 ==> forall a :: a in Foot(t.Phase(l, k)) ==> OwnSlm(t, l, a) || Operand(t, a)
    ensures k < 2 * t.Blocks() && k % 2 == 0 ==> forall a :: a in Writes(t.Phase(l, k)) ==> OwnSlm(t, l, a)
    ensures k < 2 * t.Blocks() && k % 2 == 1 ==> forall a :: a in Foot(t.Phase(l, k)) ==> GroupSlm(t, a)
    ensures k < 2 * t.Blocks() && k % 2 == 1 ==> Writes(t.Phase(l, k)) == {}
  {
    FootConcat(if k == 0 then [Const(0, 0)] else [], t.Body(l, k));
    LoadBlockFoot(t, l, k / 2);
    ProductsFoot(t, l, SIDE);
  }

  lemma OwnCellsDiffer(t: Tile, l: nat, l': nat)
    requires l < SIDE * SIDE && l' < SIDE * SIDE && l != l'
    ensures forall a :: !(OwnSlm(t, l, a) && OwnSlm(t, l', a)) && !(OwnResult(t, l, a) && OwnResult(t, l', a))
  {
  }

  lemma TileShape(t: Tile)
    ensures WfGroup(t.Items()) && |t.Items()| == SIDE * SIDE && Phases(t.Items()) == 2 * t.Blocks() + 1
    ensures forall l, k :: 0 <= l < SIDE * SIDE && 0 <= k <= 2 * t.Blocks() ==> t.Items()[l][k] == t.Phase(l, k)
  {
  }

  /** Between barriers no item writes a window cell or result another item accesses. */
  lemma TileHasNoRaces(t: Tile)
    ensures WfGroup(t.Items()) && PhaseRaceFree(t.Items())
  {
    hide Foot, Writes, Tile.Items, Tile.Phase;
    TileShape(t);
    forall l: nat, l': nat, k: nat | InGroup(t.Items(), l, k) && InGroup(t.Items(), l', k) && l != l'
      ensures Writes(t.Items()[l][k]) !! Foot(t.Items()[l'][k])
    {
      PhaseFoot(t, l, k);
      PhaseFoot(t, l', k);
      OwnCellsDiffer(t, l, l');
      WritesInFoot(t.Phase(l, k));
    }
  }

  predicate TileResult(t: Tile, a: Addr) {
    a == Res(a.i, a.j) && a.i < t.rows && a.j < t.cols && a.i / SIDE == t.gi && a.j / SIDE == t.gj
  }

  lemma TileTouch(t: Tile)
    ensures forall a :: a in Touch(t.Items()) ==> GroupSlm(t, a) || Operand(t, a) || TileResult(t, a)
    ensures forall a :: a in GroupWrites(t.Items()) ==> GroupSlm(t, a) || TileResult(t, a)
  {
    hide Foot, Writes, Tile.Items, Tile.Phase;
    TileShape(t);
    var G := t.Items();
    forall l, k | 0 <= l < |G| && 0 <= k < |G[l]|
      ensures forall a :: a in Foot(G[l][k]) ==> GroupSlm(t, a) || Operand(t, a) || TileResult(t, a)
      ensures forall a :: a in Writes(G[l][k]) ==> GroupSlm(t, a) || TileResult(t, a)
    {
      PhaseFoot(t, l, k);
      WritesInFoot(t.Phase(l, k));
    }
  }

  // ----- what the code computes -----

  /** The operands, zero outside. */
  function XAt(t: Tile, m: Mem, r: nat, k: nat): int { if r < t.rows && k < t.n then Read(m, X(r, k)) else 0 }
  function YAt(t: Tile, m: Mem, k: nat, c: nat): int { if k < t.n && c < t.cols then Read(m, Y(k, c)) else 0 }

  function Dot(t: Tile, m: Mem, r: nat, c: nat, k: nat): int {
    if k == 0 then 0 else Dot(t, m, r, c, k - 1) + XAt(t, m, r, k - 1) * YAt(t, m, k - 1, c)
  }

  /** Padding contributes nothing: beyond column n the sum stays put. */
  lemma {:induction false} DotPadded(t: Tile, m: Mem, r: nat, c: nat, k: nat)
    requires t.n <= k
    ensures Dot(t, m, r, c, k) == Dot(t, m, r, c, t.n)
  {
    if t.n < k {
      DotPadded(t, m, r, c, k - 1);
      assert XAt(t, m, r, k - 1) == 0;
    }
  }

  lemma RunNone(w: View)
    ensures RunAll([], w) == w
  {
  }

  lemma CopyRun(from: Addr, to: Addr, w: View)
    ensures RunAll(Copy(from, to), w) == View(w.regs[1 := Read(w.mem, from)], w.mem[to := Read(w.mem, from)])
  {
    var c := Copy(from, to);
    assert Run(c, 0, w) == w;
    assert Run(c, 1, w) == Exec(c[0], w);
  }

  lemma ZeroRun(a: Addr, b: Addr, w: View)
    ensures RunAll([Const(1, 0), Store(a, 1), Store(b, 1)], w) == View(w.regs[1 := 0], w.mem[a := 0][b := 0])
  {
    var c := [Const(1, 0), Store(a, 1), Store(b, 1)];
    assert Run(c, 0, w) == w;
    assert Run(c, 1, w) == Exec(c[0], w);
    assert Run(c, 2, w) == Exec(c[1], Run(c, 1, w));
    assert Run(c, 3, w) == Exec(c[2], Run(c, 2, w));
  }

  lemma LoadBlockRun(t: Tile, l: nat, b: nat, w: View)
    requires l < SIDE * SIDE
    ensures var r := RunAll(t.LoadBlock(l, b), w);
      && Read(r.mem, XSlm(t.g, l / SIDE, l % SIDE)) == XAt(t, w.mem, t.Row(l), l % SIDE + SIDE * b)
      && Read(r.mem, YSlm(t.g, l / SIDE, l % SIDE)) == YAt(t, w.mem, l / SIDE + SIDE * b, t.Col(l))
      && Reg(r.regs, 0) == Reg(w.regs, 0)
  {
    hide RunAll, Copy;
    var (lr, lc) := (l / SIDE, l % SIDE);
    var (x, y) := (XSlm(t.g, lr, lc), YSlm(t.g, lr, lc));
    var zero := [Const(1, 0), Store(x, 1), Store(y, 1)];
    var loadX := if t.Row(l) < t.rows && lc + SIDE * b < t.n then Copy(X(t.Row(l), lc + SIDE * b), x) else [];
    var loadY := if t.Col(l) < t.cols && lr + SIDE * b < t.n then Copy(Y(lr + SIDE * b, t.Col(l)), y) else [];
    RunAllConcat(zero, loadX, w);
    RunAllConcat(zero + loadX, loadY, w);
    ZeroRun(x, y, w);
    var w1 := RunAll(zero, w);
    CopyRun(X(t.Row(l), lc + SIDE * b), x, w1);
    RunNone(w1);
    var w2 := RunAll(loadX, w1);
    CopyRun(Y(lr + SIDE * b, t.Col(l)), y, w2);
    RunNone(w2);
  }

  lemma AddProductRun(t: Tile, l: nat, idx: nat, w: View)
    ensures RunAll(t.AddProduct(l, idx), w).mem == w.mem
    ensures Reg(RunAll(t.AddProduct(l, idx), w).regs, 0)
         == Reg(w.regs, 0) + Read(w.mem, XSlm(t.g, l / SIDE, idx)) * Read(w.mem, YSlm(t.g, idx, l % SIDE))
  {
    var c := t.AddProduct(l, idx);
    assert Run(c, 0, w) == w;
    assert Run(c, 1, w) == Exec(c[0], w);
    assert Run(c, 2, w) == Exec(c[1], Run(c, 1, w));
    assert Run(c, 3, w) == Exec(c[2], Run(c, 2, w));
    assert Run(c, 4, w) == Exec(c[3], Run(c, 3, w));
  }

  /** The window holds columns SIDE * b ... of the operands. */
  ghost predicate Window(t: Tile, m: Mem, slm: Mem, b: nat) {
    forall l :: 0 <= l < SIDE * SIDE ==> WindowCell(t, m, slm, b, l)
  }

  ghost predicate WindowCell(t: Tile, m: Mem, slm: Mem, b: nat, l: nat) {
    && Read(slm, XSlm(t.g, l / SIDE, l % SIDE)) == XAt(t, m, t.Row(l), l % SIDE + SIDE * b)
    && Read(slm, YSlm(t.g, l / SIDE, l % SIDE)) == YAt(t, m, l / SIDE + SIDE * b, t.Col(l))
  }

  lemma WindowAt(t: Tile, m: Mem, slm: Mem, b: nat, l: nat, idx: nat)
    requires l < SIDE * SIDE && idx < SIDE && Window(t, m, slm, b)
    ensures Read(slm, XSlm(t.g, l / SIDE, idx)) == XAt(t, m, t.Row(l), idx + SIDE * b)
    ensures Read(slm, YSlm(t.g, idx, l % SIDE)) == YAt(t, m, idx + SIDE * b, t.Col(l))
  {
    assert WindowCell(t, m, slm, b, SIDE * (l / SIDE) + idx);
    assert WindowCell(t, m, slm, b, SIDE * idx + l % SIDE);
  }

  lemma {:induction false} ProductsRun(t: Tile, l: nat, k: nat, b: nat, m: Mem, w: View)
    requires l < SIDE * SIDE && k <= SIDE && Window(t, m, w.mem, b)
    requires Reg(w.regs, 0) == Dot(t, m, t.Row(l), t.Col(l), SIDE * b)
    ensures RunAll(t.Products(l, k), w).mem == w.mem
    ensures Reg(RunAll(t.Products(l, k), w).regs, 0) == Dot(t, m, t.Row(l), t.Col(l), SIDE * b + k)
  {
    if k > 0 {
      hide Window;
      ProductsRun(t, l, k - 1, b, m, w);
      var c := t.Products(l, k - 1);
      RunAllConcat(c, t.AddProduct(l, k - 1), w);
      AddProductRun(t, l, k - 1, RunAll(c, w));
      WindowAt(t, m, w.mem, b, l, k - 1);
    }
  }

  // ----- phase by phase -----

  /** Every item's output so far covers the first k columns. */
  ghost predicate Outputs(t: Tile, m: Mem, s: GroupView, k: nat) {
    |s.regs| == SIDE * SIDE && forall l :: 0 <= l < SIDE * SIDE ==> Reg(s.regs[l], 0) == Dot(t, m, t.Row(l), t.Col(l), k)
  }

  ghost predicate OperandsKept(t: Tile, m: Mem, s: GroupView) { forall a :: Operand(t, a) ==> Read(s.mem, a) == Read(m, a) }

  lemma PhaseRun(t: Tile, l: nat, k: nat, w: View)
    requires k == 0 ==> Reg(w.regs, 0) == 0
    ensures exists r :: (forall x :: Reg(r, x) == Reg(w.regs, x)) && RunAll(t.Phase(l, k), w) == RunAll(t.Body(l, k), View(r, w.mem))
  {
    if k == 0 {
      var zero := [Const(0, 0)];
      RunAllConcat(zero, t.Body(l, k), w);
      assert Run(zero, 0, w) == w;
      assert RunAll(zero, w) == View(w.regs[0 := 0], w.mem);
    } else {
      assert t.Phase(l, k) == t.Body(l, k);
      assert RunAll(t.Phase(l, k), w) == RunAll(t.Body(l, k), View(w.regs, w.mem));
    }
  }

  lemma OperandsStay(t: Tile, m: Mem, s: GroupView, k: nat)
    requires WfGroup(t.Items()) && PhaseRaceFree(t.Items()) && k <= 2 * t.Blocks() && |s.regs| == |t.Items()|
    requires k < Phases(t.Items()) && OperandsKept(t, m, s)
    ensures OperandsKept(t, m, RunItems(t.Items(), k, |t.Items()|, s))
  {
    hide Foot, Writes, Tile.Items, Tile.Phase, RunItems, PhaseRaceFree;
    forall a | Operand(t, a) ensures Read(RunItems(t.Items(), k, |t.Items()|, s).mem, a) == Read(m, a) {
      TileShape(t);
      forall l | 0 <= l < |t.Items()| ensures a !in Writes(t.Items()[l][k]) {
        PhaseFoot(t, l, k);
        WritesInFoot(t.Phase(l, k));
      }
      CellOfNone(t.Items(), k, s, a);
    }
  }

  lemma LoadItem(t: Tile, m: Mem, s: GroupView, b: nat, l: nat)
    requires WfGroup(t.Items()) && PhaseRaceFree(t.Items()) && b < t.Blocks() && |s.regs| == |t.Items()| && 2 * b < Phases(t.Items())
    requires OperandsKept(t, m, s) && l < SIDE * SIDE && (b == 0 ==> Reg(s.regs[l], 0) == 0)
    ensures var s' := RunItems(t.Items(), 2 * b, |t.Items()|, s);
      WindowCell(t, m, s'.mem, b, l) && Reg(s'.regs[l], 0) == Reg(s.regs[l], 0)
  {
    hide Foot, Writes, Tile.Items, Tile.Phase, RunItems, PhaseRaceFree, RunAll, Tile.LoadBlock;
    TileShape(t);
    var w := View(s.regs[l], s.mem);
    PhaseRun(t, l, 2 * b, w);
    var r :| (forall x :: Reg(r, x) == Reg(w.regs, x)) && RunAll(t.Phase(l, 2 * b), w) == RunAll(t.Body(l, 2 * b), View(r, w.mem));
    LoadBlockRun(t, l, b, View(r, s.mem));
    LoadBlockFoot(t, l, b);
    PhaseFoot(t, l, 2 * b);
    CellOfItem(t.Items(), 2 * b, s, l, XSlm(t.g, l / SIDE, l % SIDE));
    CellOfItem(t.Items(), 2 * b, s, l, YSlm(t.g, l / SIDE, l % SIDE));
    RegsOfItem(t.Items(), 2 * b, s, l);
    OperandRead(t, m, s);
  }

  lemma OperandRead(t: Tile, m: Mem, s: GroupView)
    requires OperandsKept(t, m, s)
    ensures forall r, k :: XAt(t, s.mem, r, k) == XAt(t, m, r, k)
    ensures forall k, c :: YAt(t, s.mem, k, c) == YAt(t, m, k, c)
  {
    forall r: nat, k: nat ensures XAt(t, s.mem, r, k) == XAt(t, m, r, k) {
      if r < t.rows && k < t.n { assert Operand(t, X(r, k)); }
    }
    forall k: nat, c: nat ensures YAt(t, s.mem, k, c) == YAt(t, m, k, c) {
      if k < t.n && c < t.cols { assert Operand(t, Y(k, c)); }
    }
  }

  lemma ProductItem(t: Tile, m: Mem, s: GroupView, b: nat, l: nat)
    requires WfGroup(t.Items()) && PhaseRaceFree(t.Items()) && b < t.Blocks() && |s.regs| == |t.Items()| && 2 * b + 1 < Phases(t.Items())
    requires Window(t, m, s.mem, b) && l < SIDE * SIDE && Reg(s.regs[l], 0) == Dot(t, m, t.Row(l), t.Col(l), SIDE * b)
    ensures var s' := RunItems(t.Items(), 2 * b + 1, |t.Items()|, s);
      Reg(s'.regs[l], 0) == Dot(t, m, t.Row(l), t.Col(l), SIDE * (b + 1))
  {
    hide Foot, Writes, Tile.Items, RunItems, PhaseRaceFree, RunAll, Tile.Products, Dot, Window;
    TileShape(t);
    assert t.Phase(l, 2 * b + 1) == t.Products(l, SIDE);
    ProductsRun(t, l, SIDE, b, m, View(s.regs[l], s.mem));
    RegsOfItem(t.Items(), 2 * b + 1, s, l);
  }

  /** Before block b every output is the dot product over the first SIDE * b columns. */
  lemma {:induction false} BeforeBlock(t: Tile, m: Mem, b: nat)
    requires b <= t.Blocks()
    ensures WfGroup(t.Items()) && 2 * b < Phases(t.Items())
    ensures Outputs(t, m, At(t.Items(), 2 * b, m), SIDE * b)
    ensures OperandsKept(t, m, At(t.Items(), 2 * b, m))
  {
    hide Tile.Items, At, RunItems, PhaseRaceFree, Tile.Phase;
    TileShape(t);
    TileHasNoRaces(t);
    if b == 0 {
      AtStart(t.Items(), m);
    } else {
      BeforeBlock(t, m, b - 1);
      var k := 2 * (b - 1);
      var s := At(t.Items(), k, m);
      var s1 := At(t.Items(), k + 1, m);
      var s2 := At(t.Items(), k + 2, m);
      AtNext(t.Items(), k, m);
      AtNext(t.Items(), k + 1, m);
      OperandsStay(t, m, s, k);
      OperandsStay(t, m, s1, k + 1);
      hide OperandsKept, Dot;
      forall l | 0 <= l < SIDE * SIDE
        ensures WindowCell(t, m, s1.mem, b - 1, l) && Reg(s1.regs[l], 0) == Dot(t, m, t.Row(l), t.Col(l), SIDE * (b - 1))
      {
        DotZero(t, m, t.Row(l), t.Col(l));
        LoadItem(t, m, s, b - 1, l);
      }
      forall l | 0 <= l < SIDE * SIDE ensures Reg(s2.regs[l], 0) == Dot(t, m, t.Row(l), t.Col(l), SIDE * b) {
        ProductItem(t, m, s1, b - 1, l);
      }
    }
  }

  lemma DotZero(t: Tile, m: Mem, r: nat, c: nat)
    ensures Dot(t, m, r, c, 0) == 0
  {
  }

  /** A tile run on its own writes the full dot product to each of its in-range cells. */
  lemma TileComputes(t: Tile, m: Mem, l: nat)
    requires l < SIDE * SIDE && t.Row(l) < t.rows && t.Col(l) < t.cols
    ensures WfGroup(t.Items()) && Res(t.Row(l), t.Col(l)) in Touch(t.Items())
    ensures Read(At(t.Items(), Phases(t.Items()), m).mem, Res(t.Row(l), t.Col(l))) == Dot(t, m, t.Row(l), t.Col(l), t.n)
  {
    hide Tile.Items, At, RunItems, PhaseRaceFree, Foot, Writes, Touch, RunAll, Dot, OperandsKept, Tile.Body, Tile.Phase;
    var k := 2 * t.Blocks();
    var a := Res(t.Row(l), t.Col(l));
    TileShape(t);
    TileHasNoRaces(t);
    BeforeBlock(t, m, t.Blocks());
    var s := At(t.Items(), k, m);
    AtNext(t.Items(), k, m);
    WriteResultTouches(t, l);
    PhaseFoot(t, l, k);
    CellOfItem(t.Items(), k, s, l, a);
    ItemInGroup(t.Items(), l, k);
    DotZero(t, m, t.Row(l), t.Col(l));
    WriteItem(t, l, View(s.regs[l], s.mem));
    DotPadded(t, m, t.Row(l), t.Col(l), SIDE * t.Blocks());
  }

  lemma WriteResultTouches(t: Tile, l: nat)
    requires l < SIDE * SIDE && t.Row(l) < t.rows && t.Col(l) < t.cols
    ensures Res(t.Row(l), t.Col(l)) in Foot(t.Body(l, 2 * t.Blocks()))
  {
    var c := t.WriteResult(l);
    assert c[0].Store? && c[0].addr == Res(t.Row(l), t.Col(l));
  }

  lemma WriteItem(t: Tile, l: nat, w: View)
    requires t.Row(l) < t.rows && t.Col(l) < t.cols && (t.Blocks() == 0 ==> Reg(w.regs, 0) == 0)
    ensures Read(RunAll(t.Phase(l, 2 * t.Blocks()), w).mem, Res(t.Row(l), t.Col(l))) == Reg(w.regs, 0)
  {
    var k := 2 * t.Blocks();
    PhaseRun(t, l, k, w);
    var r :| (forall x :: Reg(r, x) == Reg(w.regs, x)) && RunAll(t.Phase(l, k), w) == RunAll(t.Body(l, k), View(r, w.mem));
    assert t.Body(l, k) == [Store(Res(t.Row(l), t.Col(l)), 0)];
    assert Run(t.Body(l, k), 0, View(r, w.mem)) == View(r, w.mem);
  }

  // ----- the launch -----

  /** Group g of a grid with gridCols groups per row. */
  function TileOf(g: nat, gridCols: nat, rows: nat, n: nat, cols: nat): Tile
    requires gridCols > 0
  {
    Tile(g, g / gridCols, g % gridCols, rows, n, cols)
  }

  function MatmulLaunch(gridRows: nat, gridCols: nat, rows: nat, n: nat, cols: nat): (L: Launch)
    ensures |L| == gridRows * gridCols
  {
    seq(gridRows * gridCols, g requires 0 <= g < gridRows * gridCols =>
      if gridCols == 0 then [] else TileOf(g, gridCols, rows, n, cols).Items())
  }

  ghost predicate Allocated(m: Mem, groups: nat, rows: nat, n: nat, cols: nat) {
    && (forall i, j :: 0 <= i < rows && 0 <= j < n ==> X(i, j) in m)
    && (forall i, j :: 0 <= i < n && 0 <= j < cols ==> Y(i, j) in m)
    && (forall i, j :: 0 <= i < rows && 0 <= j < cols ==> Res(i, j) in m)
    && (forall g, v, i, j :: 0 <= g < groups && 0 <= v < 2 && 0 <= i < SIDE && 0 <= j < SIDE ==> Local(g, v, i, j) in m)
  }

  lemma TileIsSafe(g: nat, gridRows: nat, gridCols: nat, rows: nat, n: nat, cols: nat, m: Mem)
    requires g < gridRows * gridCols && gridCols > 0 && Allocated(m, gridRows * gridCols, rows, n, cols)
    ensures var t := TileOf(g, gridCols, rows, n, cols);
      && WfGroup(t.Items()) && PhaseRaceFree(t.Items())
      && (forall a :: a in Touch(t.Items()) ==> a in m && (GroupSlm(t, a) || Operand(t, a) || TileResult(t, a)))
      && (forall a :: a in GroupWrites(t.Items()) ==> GroupSlm(t, a) || TileResult(t, a))
  {
    hide Tile.Items, PhaseRaceFree, WfGroup, Touch, GroupWrites;
    var t := TileOf(g, gridCols, rows, n, cols);
    TileHasNoRaces(t);
    TileTouch(t);
    forall a | a in Touch(t.Items()) ensures a in m {
      if GroupSlm(t, a) {
        assert a == Local(g, a.buf, a.i, a.j);
      } else {
        assert a == X(a.i, a.j) || a == Y(a.i, a.j) || a == Res(a.i, a.j);
      }
    }
  }

  lemma MatmulIsSafe(gridRows: nat, gridCols: nat, rows: nat, n: nat, cols: nat, m: Mem)
    requires Allocated(m, gridRows * gridCols, rows, n, cols)
    ensures var L := MatmulLaunch(gridRows, gridCols, rows, n, cols); WfLaunch(L) && RaceFree(L) && InBounds(L, m)
  {
    hide Tile.Items, PhaseRaceFree, WfGroup, Touch, GroupWrites;
    var L := MatmulLaunch(gridRows, gridCols, rows, n, cols);
    if gridCols == 0 {
      assert gridRows * gridCols == 0;
    } else {
      forall g | 0 <= g < |L| ensures WfGroup(L[g]) && PhaseRaceFree(L[g]) && Touch(L[g]) <= m.Keys {
        TileIsSafe(g, gridRows, gridCols, rows, n, cols, m);
      }
      forall g, g' | 0 <= g < |L| && 0 <= g' < |L| && g != g' ensures GroupWrites(L[g]) !! Touch(L[g']) {
        TileIsSafe(g, gridRows, gridCols, rows, n, cols, m);
        TileIsSafe(g', gridRows, gridCols, rows, n, cols, m);
        if g / gridCols == g' / gridCols && g % gridCols == g' % gridCols {
          SamePlace(g, g', gridCols);
        }
      }
    }
  }

  /** The specification: a row times a column. */
  function DotProduct(m: Mem, r: nat, c: nat, n: nat): int {
    if n == 0 then 0 else DotProduct(m, r, c, n - 1) + Read(m, X(r, n - 1)) * Read(m, Y(n - 1, c))
  }

  lemma {:induction false} DotIsDotProduct(t: Tile, m: Mem, r: nat, c: nat, k: nat)
    requires r < t.rows && c < t.cols && k <= t.n
    ensures Dot(t, m, r, c, k) == DotProduct(m, r, c, k)
  {
    if k > 0 { DotIsDotProduct(t, m, r, c, k - 1); }
  }

  /** The group and item that own a cell of the result. */
  lemma Owner(r: nat, c: nat, gridRows: nat, gridCols: nat) returns (g: nat, l: nat)
    requires r < SIDE * gridRows && c < SIDE * gridCols
    ensures g < gridRows * gridCols && l < SIDE * SIDE && gridCols > 0
    ensures forall rows, n, cols :: var t := TileOf(g, gridCols, rows, n, cols); t.Row(l) == r && t.Col(l) == c
  {
    var gi, gj := r / SIDE, c / SIDE;
    g, l := gi * gridCols + gj, SIDE * (r % SIDE) + c % SIDE;
    CellInGrid(gi, gj, gridRows, gridCols);
    DivModUnique(gi, gj, gridCols);
  }

  /** Under every interleaving, exactly the result cells inside both the launch and the
      matrix are written, each with its full dot product. */
  lemma MatmulIsTheProduct(gridRows: nat, gridCols: nat, rows: nat, n: nat, cols: nat, m: Mem, m': Mem)
    requires Allocated(m, gridRows * gridCols, rows, n, cols)
    requires var L := MatmulLaunch(gridRows, gridCols, rows, n, cols); WfLaunch(L) && Outcome(L, |L|, m, m')
    ensures forall r: nat, c: nat :: r < rows && c < cols && r < SIDE * gridRows && c < SIDE * gridCols ==>
      Read(m', Res(r, c)) == DotProduct(m, r, c, n)
    ensures forall a: Addr :: a.Global? && !(a == Res(a.i, a.j) && a.i < rows && a.j < cols && a.i < SIDE * gridRows && a.j < SIDE * gridCols) ==>
      Read(m', a) == Read(m, a)
  {
    hide Tile.Items, PhaseRaceFree, WfGroup, Touch, GroupWrites, At, DotProduct;
    var L := MatmulLaunch(gridRows, gridCols, rows, n, cols);
    forall r: nat, c: nat | r < rows && c < cols && r < SIDE * gridRows && c < SIDE * gridCols
      ensures Read(m', Res(r, c)) == DotProduct(m, r, c, n)
    {
      var g, l := Owner(r, c, gridRows, gridCols);
      var t := TileOf(g, gridCols, rows, n, cols);
      assert t.Row(l) == r && t.Col(l) == c;
      TileComputes(t, m, l);
      DotIsDotProduct(t, m, r, c, n);
      assert Agree(Touch(L[g]), m', At(L[g], Phases(L[g]), m).mem);
    }
    forall a: Addr | a.Global? && !(a == Res(a.i, a.j) && a.i < rows && a.j < cols && a.i < SIDE * gridRows && a.j < SIDE * gridCols)
      ensures Read(m', a) == Read(m, a)
    {
      forall g | 0 <= g < |L| ensures a !in GroupWrites(L[g]) {
        OutsideIsNotWritten(g, gridRows, gridCols, rows, n, cols, m, a);
      }
    }
  }

  lemma OutsideIsNotWritten(g: nat, gridRows: nat, gridCols: nat, rows: nat, n: nat, cols: nat, m: Mem, a: Addr)
    requires g < gridRows * gridCols && Allocated(m, gridRows * gridCols, rows, n, cols)
    requires a.Global? && !(a == Res(a.i, a.j) && a.i < rows && a.j < cols && a.i < SIDE * gridRows && a.j < SIDE * gridCols)
    ensures a !in GroupWrites(MatmulLaunch(gridRows, gridCols, rows, n, cols)[g])
  {
    hide Tile.Items, PhaseRaceFree, WfGroup, Touch, GroupWrites;
    RowInGrid(g, gridRows, gridCols);
    TileIsSafe(g, gridRows, gridCols, rows, n, cols, m);
  }

  /** call_kernel(matmul, NdRange((globalRows, globalCols), (2, 2)), ...) */
  method CallMatmul(globalRows: nat, globalCols: nat, rows: nat, n: nat, cols: nat, m: Mem, scheduler: (Launch, Mem) -> seq<Event>)
      returns (r: Option<Mem>)
    requires Scheduler(scheduler)
    requires Allocated(m, (globalRows / SIDE) * (globalCols / SIDE), rows, n, cols)
    ensures r.None? <==> globalRows % SIDE != 0 || globalCols % SIDE != 0
    ensures r.Some? ==> forall i: nat, j: nat :: i < rows && j < cols && i < globalRows && j < globalCols ==>
      Read(r.value, Res(i, j)) == DotProduct(m, i, j, n)
    ensures r.Some? ==> forall a: Addr :: a.Global? && !(a == Res(a.i, a.j) && a.i < rows && a.j < cols && a.i < globalRows && a.j < globalCols) ==>
      Read(r.value, a) == Read(m, a)
  {
    if globalRows % SIDE != 0 || globalCols % SIDE != 0 {
      return None;
    }
    hide Allocated, RaceFree, InBounds, Complete, WfLaunch, Outcome, MatmulLaunch, DotProduct;
    var gridRows, gridCols := globalRows / SIDE, globalCols / SIDE;
    var L := MatmulLaunch(gridRows, gridCols, rows, n, cols);
    MatmulIsSafe(gridRows, gridCols, rows, n, cols, m);
    var m' := Submit(L, m, scheduler(L, m));
    MatmulIsTheProduct(gridRows, gridCols, rows, n, cols, m, m');
    return Some(m');
  }
}
