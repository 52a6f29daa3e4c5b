/** Array expressions flattened into three-address assignments, and the parallel loop
    built from them. */
module ArrayExpr {

  /** Variables of the program, and the ones mk_unique_var makes up. */
  datatype Var = User(name: string) | Temp(id: nat)

  type Index = seq<nat>

  /** Numbers, functions, and the modules functions are taken from. */
  datatype Value = Num(n: int) | Callable(f: nat) | Library(name: string)

  /** Divide is operator.truediv, which goes through dpnp.divide; Ufunc covers numpy and
      dpnp universal functions, sqrt being rerouted to the math module; nothing is
      emitted for an operator of another kind. */
  datatype Operator = Binary(op: nat) | Divide | Unary(op: nat) | Ufunc(f: nat) | Sqrt | Unsupported

  datatype Expr =
    | Apply(op: Operator, args: seq<Expr>)
    | Array(x: Var)
    | Scalar(x: Var)
    | Const(n: int)

  datatype Rhs =
    | GetItem(array: Var)
    | Copy(x: Var)
    | Literal(v: Value)
    | Binop(op: nat, x: Var, y: Var)
    | Unop(op: nat, x: Var)
    | GetAttr(x: Var, attr: string)
    | Call(f: Var, args: seq<Var>)

  datatype Assign = Assign(target: Var, rhs: Rhs)

  type Store = map<Var, Value>
  type Memory = map<(Var, Index), int>

  /** What operators and functions compute is left open. */
  datatype Sem = Sem(binop: (nat, int, int) -> int, unop: (nat, int) -> int,
                     attr: (string, string) -> nat, apply: (nat, seq<int>) -> int)

  predicate Arity(e: Expr) {
    match e
    case Apply(op, args) =>
      && (op.Binary? || op.Divide? ==> |args| == 2)
      && (op.Unary? ==> |args| > 0 && |args| != 2)
      && forall a :: a in args ==> Arity(a)
    case _ => true
  }

  predicate Supported(e: Expr) {
    match e
    case Apply(op, args) => op != Unsupported && forall a :: a in args ==> Supported(a)
    case _ => true
  }

  /** The expressions for which there is nothing to emit, or in which there is one. */
  predicate Untranslatable(e: Expr) {
    match e
    case Apply(op, args) => (op == Unsupported && args == []) || exists a :: a in args && Untranslatable(a)
    case _ => false
  }

  // ----- what an expression means -----

  function Lookup(s: Store, x: Var): Value { if x in s then s[x] else Num(0) }
  function NumOf(v: Value): int { if v.Num? then v.n else 0 }
  function FunOf(v: Value): nat { if v.Callable? then v.f else 0 }
  function Cell(m: Memory, a: Var, i: Index): int { if (a, i) in m then m[(a, i)] else 0 }

  function Eval(e: Expr, sem: Sem, s: Store, m: Memory, i: Index): int
    requires Arity(e) && Supported(e)
    decreases e, 1
  {
    match e
    case Array(x) => Cell(m, x, i)
    case Scalar(x) => NumOf(Lookup(s, x))
    case Const(n) => n
    case Apply(op, args) =>
      var vs := EvalAll(args, sem, s, m, i);
      match op
      case Binary(o) => sem.binop(o, vs[0], vs[1])
      case Divide => sem.apply(sem.attr("dpnp", "divide"), vs)
      case Unary(o) => sem.unop(o, vs[0])
      case Ufunc(f) => sem.apply(f, vs)
      case Sqrt => sem.apply(sem.attr("math", "sqrt"), vs)
  }

  function EvalAll(es: seq<Expr>, sem: Sem, s: Store, m: Memory, i: Index): (vs: seq<int>)
    requires forall e :: e in es ==> Arity(e) && Supported(e)
    ensures |vs| == |es|
    decreases es, 0
  {
    if es == [] then [] else [Eval(es[0], sem, s, m, i)] + EvalAll(es[1..], sem, s, m, i)
  }

  // ----- the flattening -----

  /** The assignments that apply op to the argument variables, and the next fresh id. */
  function EmitOp(op: Operator, args: seq<Var>, out: Var, next: nat): (r: (seq<Assign>, nat))
    requires (op.Binary? || op.Divide? ==> |args| == 2) && (op.Unary? ==> |args| > 0)
  {
    match op
    case Binary(o) => ([Assign(out, Binop(o, args[0], args[1]))], next)
    case Divide =>
      ([Assign(Temp(next), Literal(Library("dpnp"))), Assign(Temp(next + 1), GetAttr(Temp(next), "divide")),
        Assign(out, Call(Temp(next + 1), args))], next + 2)
    case Unary(o) => ([Assign(out, Unop(o, args[0]))], next)
    case Ufunc(f) => ([Assign(Temp(next), Literal(Callable(f))), Assign(out, Call(Temp(next), args))], next + 1)
    case Sqrt =>
      ([Assign(Temp(next + 1), Literal(Library("math"))), Assign(Temp(next), GetAttr(Temp(next + 1), "sqrt")),
        Assign(out, Call(Temp(next), args))], next + 2)
    case Unsupported => ([], next)
  }

  function Emit(e: Expr, out: Var, next: nat): (r: (seq<Assign>, nat))
    requires Arity(e)
    ensures r.1 >= next
    decreases e, 1
  {
    match e
    case Array(x) => ([Assign(out, GetItem(x))], next)
    case Scalar(x) => ([Assign(out, Copy(x))], next)
    case Const(n) => ([Assign(out, Literal(Num(n)))], next)
    case Apply(op, args) =>
      var (code, vars, n) := EmitArgs(args, next);
      var (tail, n') := EmitOp(op, vars, out, n);
      (code + tail, n')
  }

  /** The arguments, each into its own fresh variable. */
  function EmitArgs(es: seq<Expr>, next: nat): (r: (seq<Assign>, seq<Var>, nat))
    requires forall e :: e in es ==> Arity(e)
    ensures |r.1| == |es| && r.2 >= next
    decreases es, 0
  {
    if es == [] then ([], [], next)
    else
      var (c, n) := Emit(es[0], Temp(next), next + 1);
      var (cs, vs, n') := EmitArgs(es[1..], n);
      (c + cs, [Temp(next)] + vs, n')
  }

  lemma {:induction false} EmitNonEmpty(e: Expr, out: Var, next: nat)
    requires Arity(e) && !Untranslatable(e)
    ensures Emit(e, out, next).0 != []
  {
    match e
    case Apply(op, args) => if op == Unsupported { EmitNonEmpty(args[0], Temp(next), next + 1); }
    case _ =>
  }

  /** The recursion as the pass does it, appending to one list; it raises an error if
      there is nothing in it. */
  method TreeToIr(e: Expr, out: Var, next: nat) returns (raised: bool, outIr: seq<Assign>, next': nat)
    requires Arity(e)
    ensures raised <==> Untranslatable(e)
    ensures !raised ==> outIr == Emit(e, out, next).0 && next' == Emit(e, out, next).1
    decreases e
  {
    raised, outIr, next' := false, [], next;
    match e {
      case Array(x) => outIr := outIr + [Assign(out, GetItem(x))];
      case Scalar(x) => outIr := outIr + [Assign(out, Copy(x))];
      case Const(n) => outIr := outIr + [Assign(out, Literal(Num(n)))];
      case Apply(op, args) =>
        var argVars: seq<Var> := [];
        assert args[0..] == args;
        AppendNothing(EmitArgs(args, next));
        for k := 0 to |args|
          invariant |argVars| == k
          invariant forall a :: a in args[..k] ==> !Untranslatable(a)
          invariant EmitArgs(args, next) == AppendArgs(outIr, argVars, EmitArgs(args[k..], next'))
        {
          var argOutVar := Temp(next');
          var failed, code, n := TreeToIr(args[k], argOutVar, next' + 1);
          if failed { return true, outIr, next'; }
          assert args[..k + 1] == args[..k] + [args[k]];
          assert args[k..][0] == args[k] && args[k..][1..] == args[k + 1..];
          AppendAppend(outIr, argVars, code, [argOutVar], EmitArgs(args[k + 1..], n));
          outIr, argVars, next' := outIr + code, argVars + [argOutVar], n;
        }
        assert args[..|args|] == args && args[|args|..] == [];
        assert EmitArgs(args[|args|..], next') == ([], [], next');
        assert outIr + [] == outIr && argVars + [] == argVars;
        assert EmitArgs(args, next) == (outIr, argVars, next');
        var (tail, n') := EmitOp(op, argVars, out, next');
        outIr, next' := outIr + tail, n';
    }
    assert outIr == Emit(e, out, next).0;
    if !Untranslatable(e) { EmitNonEmpty(e, out, next); }
    raised := outIr == [];
  }

  function AppendArgs(code: seq<Assign>, vars: seq<Var>, r: (seq<Assign>, seq<Var>, nat)): (seq<Assign>, seq<Var>, nat) {
    (code + r.0, vars + r.1, r.2)
  }

  lemma AppendNothing(r: (seq<Assign>, seq<Var>, nat))
    ensures AppendArgs([], [], r) == r
  {
    assert [] + r.0 == r.0 && [] + r.1 == r.1;
  }

  lemma AppendAppend(c: seq<Assign>, v: seq<Var>, c': seq<Assign>, v': seq<Var>, r: (seq<Assign>, seq<Var>, nat))
    ensures AppendArgs(c, v, AppendArgs(c', v', r)) == AppendArgs(c + c', v + v', r)
  {
    assert c + (c' + r.0) == (c + c') + r.0;
    assert v + (v' + r.1) == (v + v') + r.1;
  }

  // ----- running the assignments -----

  function NumsOf(s: Store, xs: seq<Var>): (vs: seq<int>)
    ensures |vs| == |xs|
  {
    seq(|xs|, k requires 0 <= k < |xs| => NumOf(Lookup(s, xs[k])))
  }

  function EvalRhs(r: Rhs, sem: Sem, s: Store, m: Memory, i: Index): Value {
    match r
    case GetItem(a) => Num(Cell(m, a, i))
    case Copy(x) => Num(NumOf(Lookup(s, x)))
    case Literal(v) => v
    case Binop(o, x, y) => Num(sem.binop(o, NumOf(Lookup(s, x)), NumOf(Lookup(s, y))))
    case Unop(o, x) => Num(sem.unop(o, NumOf(Lookup(s, x))))
    case GetAttr(x, attr) => var l := Lookup(s, x); Callable(if l.Library? then sem.attr(l.name, attr) else 0)
    case Call(f, args) => Num(sem.apply(FunOf(Lookup(s, f)), NumsOf(s, args)))
  }

  function ExecOne(c: Assign, sem: Sem, s: Store, m: Memory, i: Index): Store {
    s[c.target := EvalRhs(c.rhs, sem, s, m, i)]
  }

  /** The first n assignments. */
  function Exec(code: seq<Assign>, n: nat, sem: Sem, s: Store, m: Memory, i: Index): Store
    requires n <= |code|
  {
    if n == 0 then s else ExecOne(code[n - 1], sem, Exec(code, n - 1, sem, s, m, i), m, i)
  }

  function ExecAll(code: seq<Assign>, sem: Sem, s: Store, m: Memory, i: Index): Store { Exec(code, |code|, sem, s, m, i) }

  lemma {:induction false} ExecPrefix(c: seq<Assign>, d: seq<Assign>, n: nat, sem: Sem, s: Store, m: Memory, i: Index)
    requires n <= |c|
    ensures Exec(c + d, n, sem, s, m, i) == Exec(c, n, sem, s, m, i)
  {
    if n > 0 { ExecPrefix(c, d, n - 1, sem, s, m, i); }
  }

  lemma {:induction false} ExecConcat(c: seq<Assign>, d: seq<Assign>, n: nat, sem: Sem, s: Store, m: Memory, i: Index)
    requires n <= |d|
    ensures Exec(c + d, |c| + n, sem, s, m, i) == Exec(d, n, sem, ExecAll(c, sem, s, m, i), m, i)
  {
    if n == 0 {
      ExecPrefix(c, d, |c|, sem, s, m, i);
    } else {
      ExecConcat(c, d, n - 1, sem, s, m, i);
    }
  }

  lemma ExecAllConcat(c: seq<Assign>, d: seq<Assign>, sem: Sem, s: Store, m: Memory, i: Index)
    ensures ExecAll(c + d, sem, s, m, i) == ExecAll(d, sem, ExecAll(c, sem, s, m, i), m, i)
  {
    ExecConcat(c, d, |d|, sem, s, m, i);
  }

  // ----- freshness -----

  predicate Fresh(x: Var, next: nat) { x.Temp? && x.id >= next }

  /** e mentions none of the variables from next on. */
  predicate Old(e: Expr, next: nat) {
    match e
    case Array(x) => !Fresh(x, next)
    case Scalar(x) => !Fresh(x, next)
    case Const(_) => true
    case Apply(_, args) => forall a :: a in args ==> Old(a, next)
  }

  lemma {:induction false} OldLater(e: Expr, n: nat, n': nat)
    requires Old(e, n) && n <= n'
    ensures Old(e, n')
  {
    match e
    case Apply(_, args) =>
      forall a | a in args ensures Old(a, n') { OldLater(a, n, n'); }
    case _ =>
  }

  /** Stores that agree on everything but fresh variables give an old expression one value. */
  ghost predicate AgreeOld(s: Store, t: Store, next: nat) { forall x :: !Fresh(x, next) ==> Lookup(s, x) == Lookup(t, x) }

  lemma {:induction false} EvalFrame(e: Expr, sem: Sem, s: Store, t: Store, m: Memory, i: Index, next: nat)
    requires Arity(e) && Supported(e) && Old(e, next) && AgreeOld(s, t, next)
    ensures Eval(e, sem, s, m, i) == Eval(e, sem, t, m, i)
    decreases e, 1
  {
    match e
    case Apply(_, args) => EvalAllFrame(args, sem, s, t, m, i, next);
    case _ =>
  }

  lemma {:induction false} EvalAllFrame(es: seq<Expr>, sem: Sem, s: Store, t: Store, m: Memory, i: Index, next: nat)
    requires forall e :: e in es ==> Arity(e) && Supported(e) && Old(e, next)
    requires AgreeOld(s, t, next)
    ensures EvalAll(es, sem, s, m, i) == EvalAll(es, sem, t, m, i)
    decreases es, 0
  {
    if es != [] {
      EvalFrame(es[0], sem, s, t, m, i, next);
      EvalAllFrame(es[1..], sem, s, t, m, i, next);
    }
  }

  // ----- correctness of the flattening -----

  /** s' differs from s only in out and in variables made up in between. */
  ghost predicate OnlyFresh(s: Store, s': Store, out: Var, next: nat) {
    forall x :: x != out && !Fresh(x, next) ==> Lookup(s', x) == Lookup(s, x)
  }

  lemma NumsFrame(s: Store, t: Store, xs: seq<Var>)
    requires forall x :: x in xs ==> Lookup(s, x) == Lookup(t, x)
    ensures NumsOf(s, xs) == NumsOf(t, xs)
  {
    forall k | 0 <= k < |xs| ensures Lookup(s, xs[k]) == Lookup(t, xs[k]) { assert xs[k] in xs; }
  }

  lemma EmitOpRuns(op: Operator, args: seq<Var>, out: Var, next: nat, sem: Sem, s: Store, m: Memory, i: Index)
    requires (op.Binary? || op.Divide? ==> |args| == 2) && (op.Unary? ==> |args| > 0) && op != Unsupported
    requires !Fresh(out, next) && forall x :: x in args ==> !Fresh(x, next)
    ensures var s' := ExecAll(EmitOp(op, args, out, next).0, sem, s, m, i);
      && OnlyFresh(s, s', out, next)
      && Lookup(s', out) == Num(match op
           case Binary(o) => sem.binop(o, NumsOf(s, args)[0], NumsOf(s, args)[1])
           case Divide => sem.apply(sem.attr("dpnp", "divide"), NumsOf(s, args))
           case Unary(o) => sem.unop(o, NumsOf(s, args)[0])
           case Ufunc(f) => sem.apply(f, NumsOf(s, args))
           case Sqrt => sem.apply(sem.attr("math", "sqrt"), NumsOf(s, args)))
  {
    var code := EmitOp(op, args, out, next).0;
    assert Exec(code, 0, sem, s, m, i) == s;
    var s1 := Exec(code, 1, sem, s, m, i);
    assert s1 == ExecOne(code[0], sem, s, m, i);
    if |code| > 1 {
      var s2 := Exec(code, 2, sem, s, m, i);
      assert s2 == ExecOne(code[1], sem, s1, m, i);
      NumsFrame(s, s1, args);
      if |code| > 2 {
        assert Exec(code, 3, sem, s, m, i) == ExecOne(code[2], sem, s2, m, i);
        NumsFrame(s, s2, args);
      }
    }
  }

  /** Running the emitted assignments leaves the expression's value in the output
      variable and changes nothing else but fresh variables. */
  lemma {:induction false} EmitIsCorrect(e: Expr, out: Var, next: nat, sem: Sem, s: Store, m: Memory, i: Index)
    requires Arity(e) && Supported(e) && Old(e, next) && !Fresh(out, next)
    ensures var s' := ExecAll(Emit(e, out, next).0, sem, s, m, i);
      Lookup(s', out) == Num(Eval(e, sem, s, m, i)) && OnlyFresh(s, s', out, next)
    decreases e, 1
  {
    match e
    case Apply(op, args) =>
      var (code, vars, n) := EmitArgs(args, next);
      var (tail, n') := EmitOp(op, vars, out, n);
      ArgsAreCorrect(args, next, sem, s, m, i);
      var s1 := ExecAll(code, sem, s, m, i);
      ExecAllConcat(code, tail, sem, s, m, i);
      EmitOpRuns(op, vars, out, n, sem, s1, m, i);
    case _ =>
      var code := Emit(e, out, next).0;
      assert Exec(code, 0, sem, s, m, i) == s;
      assert ExecAll(code, sem, s, m, i) == ExecOne(code[0], sem, s, m, i);
  }

  lemma {:induction false} ArgsAreCorrect(es: seq<Expr>, next: nat, sem: Sem, s: Store, m: Memory, i: Index)
    requires forall e :: e in es ==> Arity(e) && Supported(e) && Old(e, next)
    ensures var (code, vars, n) := EmitArgs(es, next);
      var s' := ExecAll(code, sem, s, m, i);
      && NumsOf(s', vars) == EvalAll(es, sem, s, m, i)
      && AgreeOld(s, s', next)
      && (forall x :: x in vars ==> x.Temp? && next <= x.id < n)
    decreases es, 0
  {
    hide Emit, Eval, Old, Arity, EmitOp, EvalRhs, ExecOne;
    if es == [] {
      EmptyArgs(next, sem, s, m, i);
    } else {
      hide ExecAll;
      var (c, n) := Emit(es[0], Temp(next), next + 1);
      var (cs, vs, n') := EmitArgs(es[1..], n);
      OldLater(es[0], next, next + 1);
      EmitIsCorrect(es[0], Temp(next), next + 1, sem, s, m, i);
      var s1 := ExecAll(c, sem, s, m, i);
      forall e | e in es[1..] ensures Old(e, n) { OldLater(e, next, n); }
      ArgsAreCorrect(es[1..], n, sem, s1, m, i);
      ExecAllConcat(c, cs, sem, s, m, i);
      EvalAllFrame(es[1..], sem, s, s1, m, i, next);
      hide EmitArgs, EvalAll;
      ArgsGrow(s, s1, ExecAll(cs, sem, s1, m, i), next, n, vs);
    }
  }

  lemma EmptyArgs(next: nat, sem: Sem, s: Store, m: Memory, i: Index)
    ensures EmitArgs([], next) == ([], [], next) && ExecAll([], sem, s, m, i) == s && EvalAll([], sem, s, m, i) == []
  {}

  /** A later argument's code leaves the variable of an earlier one alone. */
  lemma ArgsGrow(s: Store, s1: Store, s2: Store, next: nat, n: nat, vs: seq<Var>)
    requires OnlyFresh(s, s1, Temp(next), next + 1) && AgreeOld(s1, s2, n) && next < n
    ensures AgreeOld(s, s2, next)
    ensures NumsOf(s2, [Temp(next)] + vs) == [NumOf(Lookup(s1, Temp(next)))] + NumsOf(s2, vs)
  {
    assert Lookup(s2, Temp(next)) == Lookup(s1, Temp(next));
    forall x | !Fresh(x, next) ensures Lookup(s, x) == Lookup(s2, x) {
      assert Lookup(s1, x) == Lookup(s, x);
    }
  }

  /** What operators compute, operand by operand. */
  lemma OperatorsMean(x: Expr, y: Expr, sem: Sem, s: Store, m: Memory, i: Index)
    requires Arity(x) && Supported(x) && Arity(y) && Supported(y)
    ensures var a, b := Eval(x, sem, s, m, i), Eval(y, sem, s, m, i);
            (forall o :: Eval(Apply(Binary(o), [x, y]), sem, s, m, i) == sem.binop(o, a, b))
            && (forall o :: Eval(Apply(Unary(o), [x]), sem, s, m, i) == sem.unop(o, a))
            && (forall f :: Eval(Apply(Ufunc(f), [x, y]), sem, s, m, i) == sem.apply(f, [a, b]))
            && Eval(Apply(Divide, [x, y]), sem, s, m, i) == sem.apply(sem.attr("dpnp", "divide"), [a, b])
            && Eval(Apply(Sqrt, [x]), sem, s, m, i) == sem.apply(sem.attr("math", "sqrt"), [a])
  {
    assert [x, y][1..] == [y] && [x][1..] == [] && [y][1..] == [];
    assert EvalAll([], sem, s, m, i) == [];
    assert EvalAll([x], sem, s, m, i) == [Eval(x, sem, s, m, i)];
    assert EvalAll([y], sem, s, m, i) == [Eval(y, sem, s, m, i)];
    assert EvalAll([x, y], sem, s, m, i) == [Eval(x, sem, s, m, i), Eval(y, sem, s, m, i)];
  }

  /** The code of `a / sqrt(b)`, assignment by assignment. */
  lemma QuotientCode(a: Var, b: Var, out: Var, n: nat)
    ensures var (code, n') := Emit(Apply(Divide, [Array(a), Apply(Sqrt, [Array(b)])]), out, n);
            n' == n + 7
            && code == [Assign(Temp(n), GetItem(a)),
                        Assign(Temp(n + 2), GetItem(b)),
                        Assign(Temp(n + 4), Literal(Library("math"))),
                        Assign(Temp(n + 3), GetAttr(Temp(n + 4), "sqrt")),
                        Assign(Temp(n + 1), Call(Temp(n + 3), [Temp(n + 2)])),
                        Assign(Temp(n + 5), Literal(Library("dpnp"))),
                        Assign(Temp(n + 6), GetAttr(Temp(n + 5), "divide")),
                        Assign(out, Call(Temp(n + 6), [Temp(n), Temp(n + 1)]))]
  {
    var x, y := Array(a), Apply(Sqrt, [Array(b)]);
    assert [x, y][1..] == [y] && [y][1..] == [] && [Array(b)][1..] == [];
    OneEmitted(Array(b), n + 2);
    OneEmitted(y, n + 1);
    assert EmitArgs([Array(b)], n + 2) == ([Assign(Temp(n + 2), GetItem(b))], [Temp(n + 2)], n + 3);
    var inner := [Assign(Temp(n + 2), GetItem(b)), Assign(Temp(n + 4), Literal(Library("math"))),
                  Assign(Temp(n + 3), GetAttr(Temp(n + 4), "sqrt")), Assign(Temp(n + 1), Call(Temp(n + 3), [Temp(n + 2)]))];
    assert inner == [Assign(Temp(n + 2), GetItem(b))] + EmitOp(Sqrt, [Temp(n + 2)], Temp(n + 1), n + 3).0;
    assert EmitArgs([y], n + 1) == (inner, [Temp(n + 1)], n + 5);
    assert Emit(x, Temp(n), n + 1) == ([Assign(Temp(n), GetItem(a))], n + 1);
    assert [Temp(n)] + [Temp(n + 1)] == [Temp(n), Temp(n + 1)];
    assert EmitArgs([x, y], n) == ([Assign(Temp(n), GetItem(a))] + inner, [Temp(n), Temp(n + 1)], n + 5);
    assert Emit(Apply(Divide, [x, y]), out, n).0 ==
           [Assign(Temp(n), GetItem(a))] + inner + EmitOp(Divide, [Temp(n), Temp(n + 1)], out, n + 5).0;
  }

  lemma OneEmitted(e: Expr, next: nat)
    requires Arity(e)
    ensures var (code, n) := Emit(e, Temp(next), next + 1); EmitArgs([e], next) == (code, [Temp(next)], n)
  {
    var (code, n) := Emit(e, Temp(next), next + 1);
    assert [e][1..] == [];
    assert EmitArgs([], n) == ([], [], n);
    assert code + [] == code && [Temp(next)] + [] == [Temp(next)];
  }

  // ----- the parallel loop -----

  /** Each work-item has its own variables; memory is shared.  pc counts the assignments
      it has executed; one past them it has stored its result, out, into lhs. */
  datatype Item = Item(pc: nat, store: Store)
  datatype State = State(mem: Memory, items: map<Index, Item>)

  /** A loop over indices, for code that leaves its result in out. */
  datatype Loop = Loop(indices: set<Index>, code: seq<Assign>, out: Var, lhs: Var)

  predicate CanStep(l: Loop, s: State, i: Index) { i in s.items && s.items[i].pc <= |l.code| }

  function StepItem(l: Loop, sem: Sem, s: State, i: Index): State
    requires CanStep(l, s, i)
  {
    var t := s.items[i];
    if t.pc < |l.code| then
      s.(items := s.items[i := Item(t.pc + 1, ExecOne(l.code[t.pc], sem, t.store, s.mem, i))])
    else
      State(s.mem[(l.lhs, i) := NumOf(Lookup(t.store, l.out))], s.items[i := Item(t.pc + 1, t.store)])
  }

  /** Any interleaving of the items. */
  ghost predicate Runs(l: Loop, sem: Sem, s: State, sched: seq<Index>, t: State)
    decreases |sched|
  {
    if sched == [] then s == t
    else CanStep(l, s, sched[0]) && Runs(l, sem, StepItem(l, sem, s, sched[0]), sched[1..], t)
  }

  function Start(l: Loop, store: Store, m: Memory): State { State(m, map i | i in l.indices :: Item(0, store)) }

  ghost predicate Finished(l: Loop, s: State) { forall i :: i in s.items ==> s.items[i].pc == |l.code| + 1 }

  /** The arrays an expression reads. */
  predicate Reads(e: Expr, a: Var) {
    match e
    case Array(x) => x == a
    case Apply(_, args) => exists e' :: e' in args && Reads(e', a)
    case _ => false
  }

  predicate CodeReads(code: seq<Assign>, a: Var) { exists k :: 0 <= k < |code| && code[k].rhs == GetItem(a) }

  lemma {:induction false} EmitReads(e: Expr, out: Var, next: nat, a: Var)
    requires Arity(e) && !Reads(e, a)
    ensures !CodeReads(Emit(e, out, next).0, a)
    decreases e, 1
  {
    match e
    case Apply(op, args) => EmitArgsReads(args, next, a);
    case _ =>
  }

  lemma {:induction false} EmitArgsReads(es: seq<Expr>, next: nat, a: Var)
    requires forall e :: e in es ==> Arity(e) && !Reads(e, a)
    ensures !CodeReads(EmitArgs(es, next).0, a)
    decreases es, 0
  {
    if es != [] {
      var (c, n) := Emit(es[0], Temp(next), next + 1);
      EmitReads(es[0], Temp(next), next + 1, a);
      EmitArgsReads(es[1..], n, a);
    }
  }

  ghost predicate SameExcept(m: Memory, m': Memory, lhs: Var) { forall a, i :: a != lhs ==> Cell(m, a, i) == Cell(m', a, i) }

  /** Item i has computed from the initial memory, and a finished item has stored its value. */
  ghost predicate ItemOk(l: Loop, sem: Sem, s: State, i: Index, store: Store, m0: Memory)
    requires i in s.items
  {
    var t := s.items[i];
    var n := if t.pc <= |l.code| then t.pc else |l.code|;
    && t.pc <= |l.code| + 1
    && t.store == Exec(l.code, n, sem, store, m0, i)
    && Cell(s.mem, l.lhs, i) == if t.pc <= |l.code| then Cell(m0, l.lhs, i) else NumOf(Lookup(t.store, l.out))
  }

  ghost predicate LoopInv(l: Loop, sem: Sem, s: State, store: Store, m0: Memory) {
    && s.items.Keys == l.indices
    && SameExcept(m0, s.mem, l.lhs)
    && (forall i :: i !in l.indices ==> Cell(s.mem, l.lhs, i) == Cell(m0, l.lhs, i))
    && (forall i :: i in l.indices ==> ItemOk(l, sem, s, i, store, m0))
  }

  lemma ComputeInv(l: Loop, sem: Sem, s: State, i: Index, store: Store, m0: Memory)
    requires LoopInv(l, sem, s, store, m0) && i in s.items && s.items[i].pc < |l.code| && !CodeReads(l.code, l.lhs)
    ensures LoopInv(l, sem, StepItem(l, sem, s, i), store, m0)
  {
    var s' := StepItem(l, sem, s, i);
    var t := s.items[i];
    assert ItemOk(l, sem, s, i, store, m0);
    SameRhs(l, sem, t, s.mem, m0, i);
    assert Exec(l.code, t.pc + 1, sem, store, m0, i) == ExecOne(l.code[t.pc], sem, t.store, m0, i);
    hide ExecOne, CodeReads, Exec, SameExcept;
    forall j | j in l.indices ensures ItemOk(l, sem, s', j, store, m0) {
      assert ItemOk(l, sem, s, j, store, m0);
    }
  }

  lemma SameRhs(l: Loop, sem: Sem, t: Item, m: Memory, m0: Memory, i: Index)
    requires t.pc < |l.code| && SameExcept(m0, m, l.lhs) && !CodeReads(l.code, l.lhs)
    ensures ExecOne(l.code[t.pc], sem, t.store, m, i) == ExecOne(l.code[t.pc], sem, t.store, m0, i)
  {
    assert l.code[t.pc].rhs != GetItem(l.lhs);
  }

  lemma StoreInv(l: Loop, sem: Sem, s: State, i: Index, store: Store, m0: Memory)
    requires LoopInv(l, sem, s, store, m0) && i in s.items && s.items[i].pc == |l.code|
    ensures LoopInv(l, sem, StepItem(l, sem, s, i), store, m0)
  {
    hide Exec;
    var s' := StepItem(l, sem, s, i);
    forall j | j in l.indices ensures ItemOk(l, sem, s', j, store, m0) {
      assert ItemOk(l, sem, s, j, store, m0);
    }
  }

  lemma StepInv(l: Loop, sem: Sem, s: State, i: Index, store: Store, m0: Memory)
    requires LoopInv(l, sem, s, store, m0) && CanStep(l, s, i) && !CodeReads(l.code, l.lhs)
    ensures LoopInv(l, sem, StepItem(l, sem, s, i), store, m0)
  {
    hide LoopInv, StepItem, CodeReads;
    if s.items[i].pc < |l.code| { ComputeInv(l, sem, s, i, store, m0); } else { StoreInv(l, sem, s, i, store, m0); }
  }

  lemma {:induction false} RunsInv(l: Loop, sem: Sem, s: State, sched: seq<Index>, t: State, store: Store, m0: Memory)
    requires LoopInv(l, sem, s, store, m0) && Runs(l, sem, s, sched, t) && !CodeReads(l.code, l.lhs)
    ensures LoopInv(l, sem, t, store, m0)
    decreases |sched|
  {
    if sched != [] {
      StepInv(l, sem, s, sched[0], store, m0);
      RunsInv(l, sem, StepItem(l, sem, s, sched[0]), sched[1..], t, store, m0);
    }
  }

  /** The loop made from an array expression: in whatever order the items' assignments
      interleave, every element of the fresh left-hand side ends up with the value of the
      expression at its index, and no other array changes. */
  lemma ParforComputesExpression(e: Expr, outId: nat, next: nat, lhs: Var, indices: set<Index>,
                                 sem: Sem, store: Store, m0: Memory, sched: seq<Index>, t: State)
    requires Arity(e) && Supported(e) && Old(e, next) && outId < next && !Reads(e, lhs)
    requires var l := Loop(indices, Emit(e, Temp(outId), next).0, Temp(outId), lhs);
      Runs(l, sem, Start(l, store, m0), sched, t) && Finished(l, t)
    ensures forall i :: i in indices ==> Cell(t.mem, lhs, i) == Eval(e, sem, store, m0, i)
    ensures SameExcept(m0, t.mem, lhs)
    ensures forall i :: i !in indices ==> Cell(t.mem, lhs, i) == Cell(m0, lhs, i)
  {
    var l := Loop(indices, Emit(e, Temp(outId), next).0, Temp(outId), lhs);
    EmitReads(e, Temp(outId), next, lhs);
    RunsInv(l, sem, Start(l, store, m0), sched, t, store, m0);
    forall i | i in indices ensures Cell(t.mem, lhs, i) == Eval(e, sem, store, m0, i) {
      assert ItemOk(l, sem, t, i, store, m0);
      EmitIsCorrect(e, Temp(outId), next, sem, store, m0, i);
    }
  }
}
