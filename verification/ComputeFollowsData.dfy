/** The legalisation of parfors for compute-follows-data: device and USM type
    travel from the inputs of a parfor to the arrays it produces. */
module ComputeFollowsData {
  import opened Options

  type Var = string

  datatype Type = Array(device: string, usm: string) | NotArray

  datatype Stmt =
    | FromArg(lhs: Var)
    | Empty(lhs: Var)
    | Call(lhs: Var, vars: seq<Var>)
    | Cast(lhs: Var, value: Var)
    | OtherExpr(lhs: Var)
    | OtherAssign(lhs: Var)
    | Parfor(params: Option<seq<Var>>, outputs: seq<Var>, init: seq<Stmt>, body: seq<Stmt>)
    | Return(value: Var)

  datatype Error = QueueInference | UnknownUsmType | NoArrays | CallNotSupported

  datatype Result<+T> = Ok(value: T) | Raised(error: Error)

  datatype State = State(types: map<Var, Type>, updated: set<Var>, seen: set<Var>,
                         allocs: map<Var, Type>, returnType: Type)

  predicate IsArray(types: map<Var, Type>, v: Var) {
    v in types && types[v].Array?
  }

  /** Every variable of a statement has a type. */
  predicate Known(keys: set<Var>, s: Stmt) {
    match s
    case Parfor(params, outputs, init, body) =>
      (params.Some? ==> forall v :: v in params.value ==> v in keys)
      && (forall v :: v in outputs ==> v in keys)
      && (forall i :: 0 <= i < |init| ==> Known(keys, init[i]))
      && (forall i :: 0 <= i < |body| ==> Known(keys, body[i]))
    case Return(value) => value in keys
    case Call(lhs, vars) => lhs in keys && forall v :: v in vars ==> v in keys
    case Cast(lhs, value) => lhs in keys && value in keys
    case _ => s.lhs in keys
  }

  predicate KnownAll(keys: set<Var>, ss: seq<Stmt>) {
    forall i :: 0 <= i < |ss| ==> Known(keys, ss[i])
  }

  predicate Consistent(st: State) {
    forall v :: v in st.updated ==> IsArray(st.types, v)
  }

  /** Which variables are arrays never changes. */
  predicate SameArrays(st: State, st': State) {
    st'.types.Keys == st.types.Keys
    && forall v :: v in st.types ==> (st.types[v].Array? <==> st'.types[v].Array?)
  }

  // ----- the common device and USM type of a parfor -----

  function Rank(usm: string): nat {
    if usm == "device" then 3 else if usm == "shared" then 2 else if usm == "host" then 1 else 0
  }

  function UsmOfRank(rank: nat): string {
    if rank == 3 then "device" else if rank == 2 then "shared" else "host"
  }

  function MaxRank(tys: seq<Type>): (m: nat)
    requires forall t :: t in tys ==> t.Array?
    ensures forall t :: t in tys ==> Rank(t.usm) <= m
    ensures m > 0 ==> exists t :: t in tys && Rank(t.usm) == m
    ensures m <= 3
  {
    if tys == [] then 0
    else
      var m := MaxRank(tys[..|tys| - 1]);
      var r := Rank(tys[|tys| - 1].usm);
      assert tys == tys[..|tys| - 1] + [tys[|tys| - 1]];
      if r > m then r else m
  }

  function ArrayTypes(types: map<Var, Type>, vars: seq<Var>): (tys: seq<Type>)
    requires forall v :: v in vars ==> v in types
    ensures forall t :: t in tys ==> t.Array?
    ensures forall t :: t in tys <==> exists v :: v in vars && types[v] == t && t.Array?
  {
    if vars == [] then []
    else
      var v := vars[|vars| - 1];
      assert vars == vars[..|vars| - 1] + [v];
      ArrayTypes(types, vars[..|vars| - 1]) + (if types[v].Array? then [types[v]] else [])
  }

  function Conforming(tys: seq<Type>): Result<Type>
    requires forall t :: t in tys ==> t.Array?
  {
    if exists t :: t in tys && Rank(t.usm) == 0 then Raised(UnknownUsmType)
    else if exists t :: t in tys && t.device != tys[0].device then Raised(QueueInference)
    else if tys == [] then Raised(NoArrays)
    else Ok(Array(tys[0].device, UsmOfRank(MaxRank(tys))))
  }

  function Inputs(params: seq<Var>, outputs: seq<Var>): (ins: seq<Var>)
    ensures forall v :: v in ins <==> v in params && v !in outputs
  {
    if params == [] then []
    else
      var v := params[|params| - 1];
      assert params == params[..|params| - 1] + [v];
      Inputs(params[..|params| - 1], outputs) + (if v in outputs then [] else [v])
  }

  function SeenOutputs(st: State, outputs: seq<Var>): (outs: seq<Var>)
    ensures forall v :: v in outs <==> v in outputs && v in st.seen && IsArray(st.types, v)
  {
    if outputs == [] then []
    else
      var v := outputs[|outputs| - 1];
      assert outputs == outputs[..|outputs| - 1] + [v];
      SeenOutputs(st, outputs[..|outputs| - 1]) + (if v in st.seen && IsArray(st.types, v) then [v] else [])
  }

  function Checklist(st: State, params: seq<Var>, outputs: seq<Var>): (vars: seq<Var>)
    requires forall v :: v in params || v in outputs ==> v in st.types
    ensures forall v :: v in vars ==> v in st.types
  {
    Inputs(params, outputs) + SeenOutputs(st, outputs)
  }

  // ----- the pass as a state transformer -----

  /** Gives an array the type; the updated set tells whether that changed it. */
  function Retype(st: State, v: Var, ty: Type): State
    requires IsArray(st.types, v) && ty.Array?
  {
    if st.types[v] == ty then st.(updated := st.updated - {v})
    else st.(types := st.types[v := ty], updated := st.updated + {v})
  }

  function RetypeAll(st: State, outputs: seq<Var>, ty: Type): (st': State)
    requires Consistent(st) && ty.Array? && forall v :: v in outputs ==> v in st.types
    ensures SameArrays(st, st') && Consistent(st')
    ensures st' == st.(types := st'.types, updated := st'.updated)
    ensures forall v :: v in st.types ==>
              st'.types[v] == if v in outputs && st.types[v].Array? then ty else st.types[v]
  {
    if outputs == [] then st
    else
      var v := outputs[|outputs| - 1];
      assert outputs == outputs[..|outputs| - 1] + [v];
      var s := RetypeAll(st, outputs[..|outputs| - 1], ty);
      if s.types[v].Array? then Retype(s, v, ty) else s
  }

  function LegalizeParams(st: State, params: seq<Var>, outputs: seq<Var>): Result<State>
    requires Consistent(st) && forall v :: v in params || v in outputs ==> v in st.types
  {
    match Conforming(ArrayTypes(st.types, Checklist(st, params, outputs)))
    case Raised(e) => Raised(e)
    case Ok(ty) => Ok(RetypeAll(st, outputs, ty))
  }

  function Legalize(st: State, s: Stmt, inParfor: bool): (r: Result<State>)
    requires Consistent(st) && Known(st.types.Keys, s)
    ensures r.Ok? ==> Consistent(r.value) && SameArrays(st, r.value)
    decreases s
  {
    match s
    case Parfor(params, outputs, init, body) =>
      (match if params.Some? then LegalizeParams(st, params.value, outputs) else Ok(st)
       case Raised(e) => Raised(e)
       case Ok(st1) =>
         match LegalizeAll(st1, init, true)
         case Raised(e) => Raised(e)
         case Ok(st2) => LegalizeAll(st2, body, true))
    case Return(v) =>
      Ok(if IsArray(st.types, v) && v in st.updated then st.(returnType := st.types[v]) else st)
    case _ => if st.types[s.lhs].Array? then LegalizeAssign(st, s, inParfor) else Ok(st)
  }

  function LegalizeAssign(st: State, s: Stmt, inParfor: bool): (r: Result<State>)
    requires Consistent(st) && Known(st.types.Keys, s) && !s.Parfor? && !s.Return? && st.types[s.lhs].Array?
    ensures r.Ok? ==> Consistent(r.value) && SameArrays(st, r.value)
  {
    match s
    case Empty(lhs) =>
      var allocs := if inParfor && lhs in st.updated then st.allocs[lhs := st.types[lhs]] else st.allocs;
      Ok(st.(allocs := allocs, seen := st.seen + {lhs}))
    case Call(_, vars) =>
      if exists v :: v in vars && v in st.updated then Raised(CallNotSupported) else Ok(st)
    case Cast(lhs, value) =>
      Ok(if value in st.updated then Retype(st, lhs, st.types[value]) else st.(seen := st.seen + {lhs}))
    case FromArg(lhs) => Ok(st.(seen := st.seen + {lhs}))
    case OtherExpr(lhs) => Ok(st.(seen := st.seen + {lhs}))
    case _ => Ok(st)
  }

  function LegalizeAll(st: State, ss: seq<Stmt>, inParfor: bool): (r: Result<State>)
    requires Consistent(st) && KnownAll(st.types.Keys, ss)
    ensures r.Ok? ==> Consistent(r.value) && SameArrays(st, r.value)
    decreases ss
  {
    if ss == [] then Ok(st)
    else
      match LegalizeAll(st, ss[..|ss| - 1], inParfor)
      case Raised(e) => Raised(e)
      case Ok(st1) => Legalize(st1, ss[|ss| - 1], inParfor)
  }

  // ----- one parfor -----

  /** The arrays a parfor takes its device from: its inputs, and those of its
      outputs that exist already. */
  predicate Checked(st: State, params: seq<Var>, outputs: seq<Var>, v: Var): (c: bool)
    ensures c ==> IsArray(st.types, v)
  {
    IsArray(st.types, v) && ((v in params && v !in outputs) || (v in outputs && v in st.seen))
  }

  /** USM types are ranked device, shared, host; there is no other. */
  lemma RankMeans(usm: string, usm': string)
    ensures Rank(usm) > 0 <==> usm == "device" || usm == "shared" || usm == "host"
    ensures Rank(usm) > 0 && Rank(usm') > 0 ==>
              (Rank(usm) >= Rank(usm') <==> usm == "device" || usm' == "host" || usm == usm')
  {}

  lemma ConformingMeans(tys: seq<Type>)
    requires forall t :: t in tys ==> t.Array?
    ensures Conforming(tys).Ok? <==>
            tys != [] && (forall t :: t in tys ==> t.usm == "device" || t.usm == "shared" || t.usm == "host")
            && (forall t, u :: t in tys && u in tys ==> t.device == u.device)
    ensures Conforming(tys).Ok? ==>
              Conforming(tys).value.usm ==
              if exists t :: t in tys && t.usm == "device" then "device"
              else if exists t :: t in tys && t.usm == "shared" then "shared" else "host"
    ensures Conforming(tys).Ok? ==>
              var ty := Conforming(tys).value;
              ty.Array? && (forall t :: t in tys ==> t.device == ty.device && Rank(t.usm) <= Rank(ty.usm))
              && (exists t :: t in tys && Rank(t.usm) == Rank(ty.usm))
  {
    if tys != [] {
      assert tys[0] in tys;
      var m := MaxRank(tys);
      assert m > 0 ==> Rank(UsmOfRank(m)) == m;
    }
  }

  lemma TypeOfChecked(st: State, params: seq<Var>, outputs: seq<Var>, v: Var)
    requires forall o :: o in params || o in outputs ==> o in st.types
    requires Checked(st, params, outputs, v)
    ensures st.types[v] in ArrayTypes(st.types, Checklist(st, params, outputs))
  {
    hide ArrayTypes, Inputs, SeenOutputs;
    assert v in Checklist(st, params, outputs);
  }

  lemma CheckedOfType(st: State, params: seq<Var>, outputs: seq<Var>, t: Type) returns (v: Var)
    requires forall o :: o in params || o in outputs ==> o in st.types
    requires t in ArrayTypes(st.types, Checklist(st, params, outputs))
    ensures Checked(st, params, outputs, v) && st.types[v] == t
  {
    hide ArrayTypes, Inputs, SeenOutputs;
    v :| v in Checklist(st, params, outputs) && st.types[v] == t && t.Array?;
  }

  /** A parfor is accepted exactly if it has arrays to check, all of them of a
      known USM type and on one device. */
  lemma ParforAccepted(st: State, params: seq<Var>, outputs: seq<Var>)
    requires Consistent(st) && forall v :: v in params || v in outputs ==> v in st.types
    ensures LegalizeParams(st, params, outputs).Ok? <==>
            (exists v :: Checked(st, params, outputs, v))
            && (forall v :: Checked(st, params, outputs, v) ==> KnownUsm(st.types[v]))
            && (forall v, w :: Checked(st, params, outputs, v) && Checked(st, params, outputs, w) ==>
                                 st.types[v].device == st.types[w].device)
  {
    hide ArrayTypes, Checklist, Conforming, Rank, RetypeAll, Checked;
    var tys := ArrayTypes(st.types, Checklist(st, params, outputs));
    ConformingMeans(tys);
    forall v | Checked(st, params, outputs, v) ensures st.types[v] in tys {
      TypeOfChecked(st, params, outputs, v);
    }
    if tys != [] {
      var v := CheckedOfType(st, params, outputs, tys[0]);
      forall t | t in tys ensures exists w :: Checked(st, params, outputs, w) && st.types[w] == t {
        var w := CheckedOfType(st, params, outputs, t);
      }
    }
  }

  predicate KnownUsm(ty: Type) {
    ty.Array? && (ty.usm == "device" || ty.usm == "shared" || ty.usm == "host")
  }

  lemma ConformingErrors(tys: seq<Type>)
    requires forall t :: t in tys ==> t.Array?
    ensures Conforming(tys) == Raised(NoArrays) <==> tys == []
    ensures Conforming(tys) == Raised(UnknownUsmType) <==> exists t :: t in tys && !KnownUsm(t)
    ensures Conforming(tys) == Raised(QueueInference) <==>
            (forall t :: t in tys ==> KnownUsm(t)) && exists t, u :: t in tys && u in tys && t.device != u.device
  {
    if tys != [] { assert tys[0] in tys; }
  }

  /** Which error a parfor raises: one for an unknown USM type comes first, then the
      one for arrays on different devices. */
  lemma ParforErrors(st: State, params: seq<Var>, outputs: seq<Var>)
    requires Consistent(st) && forall v :: v in params || v in outputs ==> v in st.types
    ensures LegalizeParams(st, params, outputs) == Raised(NoArrays) <==> forall v :: !Checked(st, params, outputs, v)
    ensures LegalizeParams(st, params, outputs) == Raised(UnknownUsmType) <==>
            exists v :: Checked(st, params, outputs, v) && !KnownUsm(st.types[v])
    ensures LegalizeParams(st, params, outputs) == Raised(QueueInference) <==>
            (forall v :: Checked(st, params, outputs, v) ==> KnownUsm(st.types[v]))
            && exists v, w :: Checked(st, params, outputs, v) && Checked(st, params, outputs, w)
                              && st.types[v].device != st.types[w].device
  {
    hide ArrayTypes, Checklist, Conforming, RetypeAll, Checked, KnownUsm;
    var tys := ArrayTypes(st.types, Checklist(st, params, outputs));
    ConformingErrors(tys);
    forall v | Checked(st, params, outputs, v) ensures st.types[v] in tys {
      TypeOfChecked(st, params, outputs, v);
    }
    if tys != [] {
      var v := CheckedOfType(st, params, outputs, tys[0]);
      forall t | t in tys ensures exists w :: Checked(st, params, outputs, w) && st.types[w] == t {
        var w := CheckedOfType(st, params, outputs, t);
      }
    }
  }

  /** The one device and the highest USM type among the checked arrays. */
  ghost predicate Common(st: State, params: seq<Var>, outputs: seq<Var>, ty: Type) {
    ty.Array?
    && (forall v :: Checked(st, params, outputs, v) ==>
                      st.types[v].device == ty.device && Rank(st.types[v].usm) <= Rank(ty.usm))
    && (exists v :: Checked(st, params, outputs, v) && Rank(st.types[v].usm) == Rank(ty.usm))
  }

  lemma CheckedUsm(st: State, params: seq<Var>, outputs: seq<Var>, usm: string)
    requires forall o :: o in params || o in outputs ==> o in st.types
    ensures (exists v :: Checked(st, params, outputs, v) && st.types[v].usm == usm) <==>
            exists t :: t in ArrayTypes(st.types, Checklist(st, params, outputs)) && t.usm == usm
  {
    hide ArrayTypes, Checklist, Checked;
    var tys := ArrayTypes(st.types, Checklist(st, params, outputs));
    if t :| t in tys && t.usm == usm { var v := CheckedOfType(st, params, outputs, t); }
    if v :| Checked(st, params, outputs, v) && st.types[v].usm == usm { TypeOfChecked(st, params, outputs, v); }
  }

  lemma ConformingIsCommon(st: State, params: seq<Var>, outputs: seq<Var>) returns (ty: Type)
    requires Consistent(st) && forall v :: v in params || v in outputs ==> v in st.types
    requires LegalizeParams(st, params, outputs).Ok?
    ensures Conforming(ArrayTypes(st.types, Checklist(st, params, outputs))) == Ok(ty) && Common(st, params, outputs, ty)
  {
    hide ArrayTypes, Checklist, Conforming, Rank, Checked, RetypeAll;
    var tys := ArrayTypes(st.types, Checklist(st, params, outputs));
    ConformingMeans(tys);
    ty := Conforming(tys).value;
    var t :| t in tys && Rank(t.usm) == Rank(ty.usm);
    var v := CheckedOfType(st, params, outputs, t);
    forall w | Checked(st, params, outputs, w) ensures st.types[w] in tys {
      TypeOfChecked(st, params, outputs, w);
    }
  }

  /** Every array a parfor produces takes that type, so that it is in device memory
      if some checked array is, else in shared memory if one is; nothing else
      changes type. */
  lemma ParforConforms(st: State, params: seq<Var>, outputs: seq<Var>)
    requires Consistent(st) && forall v :: v in params || v in outputs ==> v in st.types
    requires LegalizeParams(st, params, outputs).Ok?
    ensures exists ty :: Common(st, params, outputs, ty)
                         && ty.usm == (if exists v :: Checked(st, params, outputs, v) && st.types[v].usm == "device" then "device"
                                       else if exists v :: Checked(st, params, outputs, v) && st.types[v].usm == "shared"
                                       then "shared" else "host")
                         && forall v :: v in st.types ==>
                              LegalizeParams(st, params, outputs).value.types[v] ==
                              if v in outputs && st.types[v].Array? then ty else st.types[v]
  {
    hide ArrayTypes, Checklist, Conforming, Common, Checked, RetypeAll;
    var ty := ConformingIsCommon(st, params, outputs);
    CheckedUsm(st, params, outputs, "device");
    CheckedUsm(st, params, outputs, "shared");
    ConformingMeans(ArrayTypes(st.types, Checklist(st, params, outputs)));
  }

  /** Afterwards the updated set tells of each output whether its type changed. */
  lemma {:induction false} UpdatedMeansChanged(st: State, outputs: seq<Var>, ty: Type, v: Var)
    requires Consistent(st) && ty.Array? && forall o :: o in outputs ==> o in st.types
    requires forall i, j :: 0 <= i < j < |outputs| ==> outputs[i] != outputs[j]
    ensures v in outputs && IsArray(st.types, v) ==>
              (v in RetypeAll(st, outputs, ty).updated <==> st.types[v] != ty)
    ensures v !in outputs ==> (v in RetypeAll(st, outputs, ty).updated <==> v in st.updated)
  {
    hide Consistent, SameArrays;
    if outputs != [] {
      var n := |outputs| - 1;
      UpdatedMeansChanged(st, outputs[..n], ty, v);
      assert outputs == outputs[..n] + [outputs[n]];
      assert outputs[n] !in outputs[..n];
    }
  }

  /** The allocation of an output inside the parfor is rewritten exactly if the
      parfor changed the output's type, and then asks for the new type. */
  lemma OutputIsAllocatedAlike(st: State, params: seq<Var>, outputs: seq<Var>, x: Var)
    requires Consistent(st) && forall v :: v in params || v in outputs ==> v in st.types
    requires forall i, j :: 0 <= i < j < |outputs| ==> outputs[i] != outputs[j]
    requires LegalizeParams(st, params, outputs).Ok? && x in outputs && IsArray(st.types, x)
    ensures var st1 := LegalizeParams(st, params, outputs).value;
            var r := Legalize(st1, Empty(x), true);
            r.Ok? && x in r.value.seen && r.value.types == st1.types
            && r.value.allocs == if st1.types[x] == st.types[x] then st.allocs else st.allocs[x := st1.types[x]]
  {
    hide ArrayTypes, Checklist;
    var tys := ArrayTypes(st.types, Checklist(st, params, outputs));
    ConformingMeans(tys);
    hide Conforming, RetypeAll;
    UpdatedMeansChanged(st, outputs, Conforming(tys).value, x);
  }

  // ----- what a whole pass keeps -----

  /** No array that has been seen moves to another device or to a lower USM type. */
  predicate Stable(st: State, st': State) {
    forall v :: v in st.seen && IsArray(st.types, v) ==>
                  v in st'.seen && IsArray(st'.types, v)
                  && st'.types[v].device == st.types[v].device
                  && Rank(st'.types[v].usm) >= Rank(st.types[v].usm)
  }

  /** A rewritten allocation asks for the device of the array's type. */
  predicate AllocationsFollow(st: State) {
    forall v :: v in st.allocs ==>
                  v in st.seen && IsArray(st.types, v) && st.allocs[v].Array?
                  && st.allocs[v].device == st.types[v].device
                  && Rank(st.allocs[v].usm) <= Rank(st.types[v].usm)
  }

  /** A cast onto an array keeps it in place: it has not been seen, or the source's
      type has not changed, or has the same device and no lower USM type. */
  predicate CastKeeps(st: State, lhs: Var, value: Var)
    requires Consistent(st) && IsArray(st.types, lhs)
  {
    lhs !in st.seen || value !in st.updated
    || (st.types[value].device == st.types[lhs].device && Rank(st.types[value].usm) >= Rank(st.types[lhs].usm))
  }

  /** So do all casts that a statement executes, from a given state. */
  ghost predicate CastsKeep(st: State, s: Stmt, inParfor: bool)
    requires Consistent(st) && Known(st.types.Keys, s) && Legalize(st, s, inParfor).Ok?
    decreases s
  {
    match s
    case Cast(lhs, value) => IsArray(st.types, lhs) ==> CastKeeps(st, lhs, value)
    case Parfor(params, outputs, init, body) =>
      var st1 := if params.Some? then LegalizeParams(st, params.value, outputs).value else st;
      CastsKeepAll(st1, init, true) && CastsKeepAll(LegalizeAll(st1, init, true).value, body, true)
    case _ => true
  }

  ghost predicate CastsKeepAll(st: State, ss: seq<Stmt>, inParfor: bool)
    requires Consistent(st) && KnownAll(st.types.Keys, ss) && LegalizeAll(st, ss, inParfor).Ok?
    decreases ss
  {
    ss != [] ==>
      CastsKeepAll(st, ss[..|ss| - 1], inParfor)
      && CastsKeep(LegalizeAll(st, ss[..|ss| - 1], inParfor).value, ss[|ss| - 1], inParfor)
  }

  /** Every step that a statement takes is stable. */
  ghost predicate StepsStable(st: State, s: Stmt, inParfor: bool)
    requires Consistent(st) && Known(st.types.Keys, s) && Legalize(st, s, inParfor).Ok?
    decreases s
  {
    match s
    case Parfor(params, outputs, init, body) =>
      var st1 := if params.Some? then LegalizeParams(st, params.value, outputs).value else st;
      Stable(st, st1) && StepsStableAll(st1, init, true)
      && StepsStableAll(LegalizeAll(st1, init, true).value, body, true)
    case _ => Stable(st, Legalize(st, s, inParfor).value)
  }

  ghost predicate StepsStableAll(st: State, ss: seq<Stmt>, inParfor: bool)
    requires Consistent(st) && KnownAll(st.types.Keys, ss) && LegalizeAll(st, ss, inParfor).Ok?
    decreases ss
  {
    ss != [] ==>
      StepsStableAll(st, ss[..|ss| - 1], inParfor)
      && StepsStable(LegalizeAll(st, ss[..|ss| - 1], inParfor).value, ss[|ss| - 1], inParfor)
  }

  lemma ParamsAreStable(st: State, params: seq<Var>, outputs: seq<Var>)
    requires Consistent(st) && forall v :: v in params || v in outputs ==> v in st.types
    requires LegalizeParams(st, params, outputs).Ok?
    ensures var st' := LegalizeParams(st, params, outputs).value;
            Stable(st, st') && st'.seen == st.seen && st'.allocs == st.allocs
  {
    hide ArrayTypes, Checklist, Conforming, Rank, RetypeAll;
    ParforConforms(st, params, outputs);
    var st' := LegalizeParams(st, params, outputs).value;
    forall v | v in st.seen && IsArray(st.types, v)
      ensures IsArray(st'.types, v) && st'.types[v].device == st.types[v].device
      ensures Rank(st'.types[v].usm) >= Rank(st.types[v].usm)
    {
      if v in outputs { assert Checked(st, params, outputs, v); }
    }
  }

  lemma StableTrans(st: State, st1: State, st2: State)
    requires Stable(st, st1) && Stable(st1, st2)
    ensures Stable(st, st2)
  {
    hide Rank;
  }

  /** Of the assignments only a cast can move an array, and exactly if it does not
      keep it. */
  lemma AssignIsStable(st: State, s: Stmt, inParfor: bool)
    requires Consistent(st) && Known(st.types.Keys, s) && !s.Parfor? && !s.Return? && st.types[s.lhs].Array?
    requires LegalizeAssign(st, s, inParfor).Ok?
    ensures Stable(st, LegalizeAssign(st, s, inParfor).value) <==> (s.Cast? ==> CastKeeps(st, s.lhs, s.value))
  {
    hide Rank;
    if s.Cast? && !CastKeeps(st, s.lhs, s.value) {
      var st' := LegalizeAssign(st, s, inParfor).value;
      assert s.lhs in st.seen && IsArray(st.types, s.lhs);
      assert st'.types[s.lhs] == st.types[s.value];
    }
  }

  lemma AssignFollows(st: State, s: Stmt, inParfor: bool)
    requires Consistent(st) && Known(st.types.Keys, s) && !s.Parfor? && !s.Return? && st.types[s.lhs].Array?
    requires LegalizeAssign(st, s, inParfor).Ok? && AllocationsFollow(st)
    requires Stable(st, LegalizeAssign(st, s, inParfor).value)
    ensures AllocationsFollow(LegalizeAssign(st, s, inParfor).value)
  {
    hide Rank, Known;
  }

  lemma StableFollows(st: State, st': State)
    requires AllocationsFollow(st) && Stable(st, st') && st'.allocs == st.allocs
    ensures AllocationsFollow(st')
  {
    hide Rank;
  }

  /** Every step is stable exactly if every executed cast keeps its target. */
  lemma {:induction false} StableExactly(st: State, s: Stmt, inParfor: bool)
    requires Consistent(st) && Known(st.types.Keys, s) && Legalize(st, s, inParfor).Ok?
    ensures StepsStable(st, s, inParfor) <==> CastsKeep(st, s, inParfor)
    decreases s
  {
    match s
    case Parfor(params, outputs, init, body) =>
      hide CastKeeps, Stable, Consistent;
      var st1 := if params.Some? then LegalizeParams(st, params.value, outputs).value else st;
      if params.Some? { ParamsAreStable(st, params.value, outputs); } else { SelfStable(st); }
      StableExactlyAll(st1, init, true);
      StableExactlyAll(LegalizeAll(st1, init, true).value, body, true);
    case Return(_) =>
    case _ =>
      if st.types[s.lhs].Array? { AssignIsStable(st, s, inParfor); }
  }

  lemma SelfStable(st: State)
    ensures Stable(st, st)
  {}

  lemma {:induction false} StableExactlyAll(st: State, ss: seq<Stmt>, inParfor: bool)
    requires Consistent(st) && KnownAll(st.types.Keys, ss) && LegalizeAll(st, ss, inParfor).Ok?
    ensures StepsStableAll(st, ss, inParfor) <==> CastsKeepAll(st, ss, inParfor)
    decreases ss
  {
    if ss != [] {
      StableExactlyAll(st, ss[..|ss| - 1], inParfor);
      StableExactly(LegalizeAll(st, ss[..|ss| - 1], inParfor).value, ss[|ss| - 1], inParfor);
    }
  }

  /** Then what was seen stays, and allocations follow, from beginning to end. */
  lemma {:induction false} LegalizeKeeps(st: State, s: Stmt, inParfor: bool)
    requires Consistent(st) && Known(st.types.Keys, s) && AllocationsFollow(st)
    requires Legalize(st, s, inParfor).Ok? && CastsKeep(st, s, inParfor)
    ensures var st' := Legalize(st, s, inParfor).value; Stable(st, st') && AllocationsFollow(st')
    decreases s
  {
    match s
    case Parfor(params, outputs, init, body) =>
      hide CastKeeps, Stable, AllocationsFollow, Consistent;
      var st1 := if params.Some? then LegalizeParams(st, params.value, outputs).value else st;
      if params.Some? { ParamsAreStable(st, params.value, outputs); } else { SelfStable(st); }
      StableFollows(st, st1);
      var st2 := LegalizeAll(st1, init, true).value;
      LegalizeAllKeeps(st1, init, true);
      LegalizeAllKeeps(st2, body, true);
      var st3 := LegalizeAll(st2, body, true).value;
      StableTrans(st, st1, st2);
      StableTrans(st, st2, st3);
    case Return(_) =>
    case _ =>
      if st.types[s.lhs].Array? {
        AssignIsStable(st, s, inParfor);
        AssignFollows(st, s, inParfor);
      }
  }

  lemma {:induction false} LegalizeAllKeeps(st: State, ss: seq<Stmt>, inParfor: bool)
    requires Consistent(st) && KnownAll(st.types.Keys, ss) && AllocationsFollow(st)
    requires LegalizeAll(st, ss, inParfor).Ok? && CastsKeepAll(st, ss, inParfor)
    ensures var st' := LegalizeAll(st, ss, inParfor).value; Stable(st, st') && AllocationsFollow(st')
    decreases ss
  {
    hide CastKeeps, Stable, AllocationsFollow, Consistent;
    if ss == [] {
      SelfStable(st);
    } else {
      var init, last := ss[..|ss| - 1], ss[|ss| - 1];
      LegalizeAllKeeps(st, init, inParfor);
      var st1 := LegalizeAll(st, init, inParfor).value;
      LegalizeKeeps(st1, last, inParfor);
      StableTrans(st, st1, Legalize(st1, last, inParfor).value);
    }
  }

  // ----- programs in which casts assign once -----

  function Assigned(s: Stmt): set<Var> {
    match s
    case Parfor(_, _, init, body) => AssignedAll(init) + AssignedAll(body)
    case Return(_) => {}
    case _ => {s.lhs}
  }

  function AssignedAll(ss: seq<Stmt>): set<Var> {
    if ss == [] then {} else AssignedAll(ss[..|ss| - 1]) + Assigned(ss[|ss| - 1])
  }

  /** No cast assigns a variable that an earlier statement assigns. */
  predicate CastsFresh(before: set<Var>, s: Stmt)
    decreases s
  {
    match s
    case Cast(lhs, _) => lhs !in before
    case Parfor(_, _, init, body) =>
      CastsFreshAll(before, init) && CastsFreshAll(before + AssignedAll(init), body)
    case _ => true
  }

  predicate CastsFreshAll(before: set<Var>, ss: seq<Stmt>)
    decreases ss
  {
    ss != [] ==>
      CastsFreshAll(before, ss[..|ss| - 1])
      && CastsFresh(before + AssignedAll(ss[..|ss| - 1]), ss[|ss| - 1])
  }

  /** Such casts keep their targets, whatever the types. */
  lemma {:induction false} FreshCastsKeep(st: State, s: Stmt, inParfor: bool, before: set<Var>)
    requires Consistent(st) && Known(st.types.Keys, s) && Legalize(st, s, inParfor).Ok?
    requires st.seen <= before && CastsFresh(before, s)
    ensures CastsKeep(st, s, inParfor) && Legalize(st, s, inParfor).value.seen <= before + Assigned(s)
    decreases s
  {
    match s
    case Parfor(params, outputs, init, body) =>
      hide Consistent;
      var st1 := if params.Some? then LegalizeParams(st, params.value, outputs).value else st;
      if params.Some? { ParamsAreStable(st, params.value, outputs); }
      FreshCastsKeepAll(st1, init, true, before);
      FreshCastsKeepAll(LegalizeAll(st1, init, true).value, body, true, before + AssignedAll(init));
    case _ =>
  }

  lemma {:induction false} FreshCastsKeepAll(st: State, ss: seq<Stmt>, inParfor: bool, before: set<Var>)
    requires Consistent(st) && KnownAll(st.types.Keys, ss) && LegalizeAll(st, ss, inParfor).Ok?
    requires st.seen <= before && CastsFreshAll(before, ss)
    ensures CastsKeepAll(st, ss, inParfor) && LegalizeAll(st, ss, inParfor).value.seen <= before + AssignedAll(ss)
    decreases ss
  {
    if ss != [] {
      var init, last := ss[..|ss| - 1], ss[|ss| - 1];
      FreshCastsKeepAll(st, init, inParfor, before);
      FreshCastsKeep(LegalizeAll(st, init, inParfor).value, last, inParfor, before + AssignedAll(init));
    }
  }

  // ----- whole passes -----

  lemma KnownConcat(keys: set<Var>, pre: seq<Stmt>, post: seq<Stmt>)
    requires KnownAll(keys, pre + post)
    ensures KnownAll(keys, pre) && KnownAll(keys, post)
  {
    hide Known;
    assert forall i :: 0 <= i < |pre| ==> (pre + post)[i] == pre[i];
    assert forall i :: 0 <= i < |post| ==> (pre + post)[|pre| + i] == post[i];
  }

  lemma {:induction false} LegalizeConcat(st: State, pre: seq<Stmt>, post: seq<Stmt>)
    requires Consistent(st) && KnownAll(st.types.Keys, pre + post)
    requires KnownAll(st.types.Keys, pre) && KnownAll(st.types.Keys, post)
    requires LegalizeAll(st, pre + post, false).Ok?
    ensures var mid := LegalizeAll(st, pre, false);
            mid.Ok? && LegalizeAll(mid.value, post, false) == LegalizeAll(st, pre + post, false)
            && (CastsKeepAll(st, pre + post, false) ==>
                  CastsKeepAll(st, pre, false) && CastsKeepAll(mid.value, post, false))
    decreases |post|
  {
    hide Known, Legalize, Consistent, CastsKeep;
    if post == [] {
      assert pre + post == pre;
    } else {
      var n := |post| - 1;
      assert (pre + post)[..|pre| + n] == pre + post[..n];
      assert (pre + post)[|pre| + n] == post[n];
      LegalizeConcat(st, pre, post[..n]);
    }
  }

  function Initial(types: map<Var, Type>, returnType: Type): State {
    State.State(types, {}, {}, map[], returnType)
  }

  /** Over a whole pass, from any point on: what was seen stays where it is. */
  lemma SeenArraysStay(types: map<Var, Type>, returnType: Type, pre: seq<Stmt>, post: seq<Stmt>)
    requires KnownAll(types.Keys, pre + post) && LegalizeAll(Initial(types, returnType), pre + post, false).Ok?
    requires CastsKeepAll(Initial(types, returnType), pre + post, false)
    ensures KnownAll(types.Keys, pre) && LegalizeAll(Initial(types, returnType), pre, false).Ok?
    ensures Stable(LegalizeAll(Initial(types, returnType), pre, false).value,
                   LegalizeAll(Initial(types, returnType), pre + post, false).value)
    ensures AllocationsFollow(LegalizeAll(Initial(types, returnType), pre + post, false).value)
  {
    hide LegalizeAll, CastsKeepAll, Rank;
    var st := Initial(types, returnType);
    KnownConcat(types.Keys, pre, post);
    LegalizeConcat(st, pre, post);
    LegalizeAllKeeps(st, pre, false);
    LegalizeAllKeeps(LegalizeAll(st, pre, false).value, post, false);
  }

  /** The arrays a parfor was checked against end the pass on the one device
      that the parfor was given. */
  lemma ParforDeviceIsFinal(types: map<Var, Type>, returnType: Type, pre: seq<Stmt>, p: Stmt, post: seq<Stmt>, v: Var, w: Var)
    requires p.Parfor? && p.params.Some?
    requires KnownAll(types.Keys, pre + [p] + post) && LegalizeAll(Initial(types, returnType), pre + [p] + post, false).Ok?
    requires CastsKeepAll(Initial(types, returnType), pre + [p] + post, false)
    ensures KnownAll(types.Keys, pre) && LegalizeAll(Initial(types, returnType), pre, false).Ok?
    ensures var st := LegalizeAll(Initial(types, returnType), pre, false).value;
            var end := LegalizeAll(Initial(types, returnType), pre + [p] + post, false).value;
            Checked(st, p.params.value, p.outputs, v) && Checked(st, p.params.value, p.outputs, w)
            && v in st.seen && w in st.seen ==>
              IsArray(end.types, v) && IsArray(end.types, w) && end.types[v].device == end.types[w].device
  {
    hide LegalizeAll, CastsKeepAll, Rank, LegalizeParams;
    var st0 := Initial(types, returnType);
    assert pre + [p] + post == pre + ([p] + post);
    SeenArraysStay(types, returnType, pre, [p] + post);
    var st := LegalizeAll(st0, pre, false).value;
    KnownConcat(types.Keys, pre + [p], post);
    LegalizeConcat(st0, pre + [p], post);
    LastOfAll(st0, pre, p);
    ParforConforms(st, p.params.value, p.outputs);
  }

  lemma LastOfAll(st: State, pre: seq<Stmt>, p: Stmt)
    requires Consistent(st) && KnownAll(st.types.Keys, pre + [p]) && LegalizeAll(st, pre + [p], false).Ok?
    requires KnownAll(st.types.Keys, pre)
    ensures LegalizeAll(st, pre, false).Ok?
    ensures Known(st.types.Keys, p)
    ensures Legalize(LegalizeAll(st, pre, false).value, p, false) == LegalizeAll(st, pre + [p], false)
  {
    assert (pre + [p])[..|pre|] == pre && (pre + [p])[|pre|] == p;
  }

  /** The pass does not go back: an allocation that was rewritten for an earlier
      parfor falls behind the array's USM type exactly if a later parfor on the
      array has an input of a higher one. */
  lemma AllocationFallsBehind(st: State, params: seq<Var>, outputs: seq<Var>, x: Var)
    requires Consistent(st) && forall v :: v in params || v in outputs ==> v in st.types
    requires LegalizeParams(st, params, outputs).Ok? && AllocationsFollow(st)
    requires x in outputs && x in st.allocs
    ensures var st' := LegalizeParams(st, params, outputs).value;
            IsArray(st'.types, x) && st'.allocs == st.allocs
            && (Rank(st'.allocs[x].usm) < Rank(st'.types[x].usm) <==>
                exists v :: Checked(st, params, outputs, v) && Rank(st.allocs[x].usm) < Rank(st.types[v].usm))
  {
    hide ArrayTypes, Checklist, Conforming, Rank;
    ParforConforms(st, params, outputs);
    assert Checked(st, params, outputs, x);
  }

  // ----- what the statements of a program do to the state -----

  /** A statement and all that are nested in it. */
  function Parts(s: Stmt): set<Stmt>
    decreases s
  {
    {s} + if s.Parfor? then PartsAll(s.init) + PartsAll(s.body) else {}
  }

  function PartsAll(ss: seq<Stmt>): set<Stmt>
    decreases ss
  {
    if ss == [] then {} else PartsAll(ss[..|ss| - 1]) + Parts(ss[|ss| - 1])
  }

  /** An array is seen once an argument, an allocation or another expression has been
      assigned to it; apart from these only a cast may make it seen.  The return type
      changes only at a return, an allocation only inside a parfor. */
  ghost predicate Explained(st: State, st': State, parts: set<Stmt>) {
    st.seen <= st'.seen
    && (forall a :: a in parts && (a.FromArg? || a.Empty? || a.OtherExpr?) && IsArray(st.types, a.lhs) ==> a.lhs in st'.seen)
    && (forall v :: v in st'.seen ==>
                      v in st.seen
                      || exists a :: a in parts && (a.FromArg? || a.Empty? || a.OtherExpr? || a.Cast?)
                                     && a.lhs == v && IsArray(st.types, v))
    && (st'.returnType == st.returnType || exists a :: a in parts && a.Return?)
  }

  lemma ExplainedTrans(st: State, st1: State, st2: State, p: set<Stmt>, q: set<Stmt>)
    requires SameArrays(st, st1) && Explained(st, st1, p) && Explained(st1, st2, q)
    ensures Explained(st, st2, p + q)
  {}

  lemma {:induction false} PassExplained(st: State, s: Stmt, inParfor: bool)
    requires Consistent(st) && Known(st.types.Keys, s) && Legalize(st, s, inParfor).Ok?
    ensures Explained(st, Legalize(st, s, inParfor).value, Parts(s))
    ensures !inParfor && !s.Parfor? ==> Legalize(st, s, inParfor).value.allocs == st.allocs
    decreases s
  {
    match s
    case Parfor(params, outputs, init, body) =>
      hide Explained, Consistent;
      var st1 := if params.Some? then LegalizeParams(st, params.value, outputs).value else st;
      ParamsExplained(st, s, st1);
      var st2 := LegalizeAll(st1, init, true).value;
      PassExplainedAll(st1, init, true);
      PassExplainedAll(st2, body, true);
      ExplainedTrans(st, st1, st2, {s}, PartsAll(init));
      ExplainedTrans(st, st2, LegalizeAll(st2, body, true).value, {s} + PartsAll(init), PartsAll(body));
      assert {s} + PartsAll(init) + PartsAll(body) == Parts(s);
    case _ => assert s in Parts(s);
  }

  lemma ParamsExplained(st: State, s: Stmt, st1: State)
    requires Consistent(st) && Known(st.types.Keys, s) && s.Parfor?
    requires st1 == st || (s.params.Some? && LegalizeParams(st, s.params.value, s.outputs) == Ok(st1))
    ensures Explained(st, st1, {s})
  {
    hide Conforming, ArrayTypes, Checklist, RetypeAll;
  }

  lemma {:induction false} PassExplainedAll(st: State, ss: seq<Stmt>, inParfor: bool)
    requires Consistent(st) && KnownAll(st.types.Keys, ss) && LegalizeAll(st, ss, inParfor).Ok?
    ensures Explained(st, LegalizeAll(st, ss, inParfor).value, PartsAll(ss))
    ensures !inParfor && (forall a :: a in PartsAll(ss) ==> !a.Parfor?) ==>
              LegalizeAll(st, ss, inParfor).value.allocs == st.allocs
    decreases ss
  {
    if ss != [] {
      var init, last := ss[..|ss| - 1], ss[|ss| - 1];
      PassExplainedAll(st, init, inParfor);
      var st1 := LegalizeAll(st, init, inParfor).value;
      PassExplained(st1, last, inParfor);
      assert last in Parts(last);
      hide Explained, Legalize, Consistent;
      ExplainedTrans(st, st1, Legalize(st1, last, inParfor).value, PartsAll(init), Parts(last));
    }
  }

  /** The last return decides: the function returns the type that the array has there
      if the pass has changed it, and otherwise what it returned before. */
  lemma ReturnTypeOfPass(types: map<Var, Type>, returnType: Type, pre: seq<Stmt>, x: Var, post: seq<Stmt>)
    requires KnownAll(types.Keys, pre + [Return(x)] + post)
    requires LegalizeAll(Initial(types, returnType), pre + [Return(x)] + post, false).Ok?
    requires forall a :: a in PartsAll(post) ==> !a.Return?
    ensures KnownAll(types.Keys, pre) && LegalizeAll(Initial(types, returnType), pre, false).Ok?
    ensures var mid := LegalizeAll(Initial(types, returnType), pre, false).value;
            var end := LegalizeAll(Initial(types, returnType), pre + [Return(x)] + post, false).value;
            end.returnType == if IsArray(mid.types, x) && x in mid.updated then mid.types[x] else mid.returnType
  {
    hide LegalizeAll, PartsAll, Known;
    var st := Initial(types, returnType);
    KnownConcat(types.Keys, pre + [Return(x)], post);
    KnownConcat(types.Keys, pre, [Return(x)]);
    LegalizeConcat(st, pre + [Return(x)], post);
    LegalizeConcat(st, pre, [Return(x)]);
    assert [Return(x)][0] == Return(x);
    LegalizeSnoc(st, pre, Return(x));
    PassExplainedAll(LegalizeAll(st, pre + [Return(x)], false).value, post, false);
  }

  /** A call behind a parfor is refused exactly if it is given an array whose type the
      parfor changed, or one changed before that the parfor does not produce. */
  lemma CallAfterParfor(st: State, params: seq<Var>, outputs: seq<Var>, x: Var, vars: seq<Var>)
    requires Consistent(st) && forall v :: v in params || v in outputs ==> v in st.types
    requires forall i, j :: 0 <= i < j < |outputs| ==> outputs[i] != outputs[j]
    requires LegalizeParams(st, params, outputs).Ok? && IsArray(st.types, x) && forall v :: v in vars ==> v in st.types
    ensures var st1 := LegalizeParams(st, params, outputs).value;
            Legalize(st1, Call(x, vars), false) ==
            if exists v :: v in vars && (if v in outputs then st1.types[v] != st.types[v] else v in st.updated)
            then Raised(CallNotSupported) else Ok(st1)
  {
    hide ArrayTypes, Checklist;
    var tys := ArrayTypes(st.types, Checklist(st, params, outputs));
    ConformingMeans(tys);
    hide Conforming, RetypeAll;
    forall v | v in vars
      ensures v in LegalizeParams(st, params, outputs).value.updated <==>
              if v in outputs then LegalizeParams(st, params, outputs).value.types[v] != st.types[v] else v in st.updated
    {
      UpdatedMeansChanged(st, outputs, Conforming(tys).value, v);
    }
  }

  function CastChain(xs: seq<Var>): seq<Stmt> {
    if |xs| < 2 then [] else CastChain(xs[..|xs| - 1]) + [Cast(xs[|xs| - 1], xs[|xs| - 2])]
  }

  lemma CastStep(st: State, x: Var, y: Var)
    requires Consistent(st) && IsArray(st.types, x) && y in st.updated && st.types[x] != st.types[y]
    ensures Legalize(st, Cast(x, y), false) == Ok(st.(types := st.types[x := st.types[y]], updated := st.updated + {x}))
  {}

  /** The arrays all have the type and are marked as changed; no other array is touched. */
  ghost predicate Spread(st: State, st': State, xs: seq<Var>, ty: Type) {
    st'.types.Keys == st.types.Keys
    && (forall k :: 0 <= k < |xs| ==> xs[k] in st'.updated && IsArray(st'.types, xs[k]) && st'.types[xs[k]] == ty)
    && forall v :: v in st.types && v !in xs ==> st'.types[v] == st.types[v]
  }

  lemma SpreadNext(st: State, st1: State, xs: seq<Var>, x: Var, ty: Type)
    requires Consistent(st1) && xs != [] && Spread(st, st1, xs, ty) && IsArray(st.types, x) && x !in xs && st.types[x] != ty
    ensures Legalize(st1, Cast(x, xs[|xs| - 1]), false).Ok?
    ensures Spread(st, Legalize(st1, Cast(x, xs[|xs| - 1]), false).value, xs + [x], ty)
  {
    hide Consistent;
    CastStep(st1, x, xs[|xs| - 1]);
  }

  /** A changed type travels along casts of casts. */
  lemma {:induction false} CastsPropagate(st: State, xs: seq<Var>)
    requires Consistent(st) && xs != [] && xs[0] in st.updated && IsArray(st.types, xs[0])
    requires forall k :: 0 < k < |xs| ==> IsArray(st.types, xs[k]) && st.types[xs[k]] != st.types[xs[0]]
    requires forall i, j :: 0 <= i < j < |xs| ==> xs[i] != xs[j]
    ensures KnownAll(st.types.Keys, CastChain(xs)) && LegalizeAll(st, CastChain(xs), false).Ok?
    ensures Spread(st, LegalizeAll(st, CastChain(xs), false).value, xs, st.types[xs[0]])
  {
    if |xs| > 1 {
      var n := |xs| - 1;
      var init := xs[..n];
      assert xs == init + [xs[n]] && xs[n] !in init && xs[n - 1] == init[n - 1];
      CastsPropagate(st, init);
      hide Legalize, Spread, Consistent;
      var st1 := LegalizeAll(st, CastChain(init), false).value;
      SpreadNext(st, st1, init, xs[n], st.types[xs[0]]);
      LegalizeSnoc(st, CastChain(init), Cast(xs[n], xs[n - 1]));
    }
  }

  // ----- two programs -----

  lemma UnrollChecklist(st: State, p: Var, x: Var)
    requires Consistent(st) && IsArray(st.types, p) && IsArray(st.types, x) && p != x
    ensures ArrayTypes(st.types, Checklist(st, [p, x], [x])) ==
            [st.types[p]] + if x in st.seen then [st.types[x]] else []
  {
    assert [p, x][..1] == [p] && [p][..0] == [] && [x][..0] == [];
    assert Inputs([], [x]) == [] && SeenOutputs(st, []) == [] && ArrayTypes(st.types, []) == [];
    assert Inputs([p], [x]) == [p];
    assert Inputs([p, x], [x]) == [p];
    assert ArrayTypes(st.types, [p]) == [st.types[p]];
    if x in st.seen {
      assert Checklist(st, [p, x], [x]) == [p, x];
    } else {
      assert Checklist(st, [p, x], [x]) == [p];
    }
  }

  /** `x` computed from `p` takes the type of `p` if it is new, or on the same device
      and of no higher USM type. */
  lemma OneInput(st: State, p: Var, x: Var)
    requires Consistent(st) && IsArray(st.types, p) && IsArray(st.types, x) && p != x && Rank(st.types[p].usm) > 0
    requires x in st.seen ==>
               st.types[x].device == st.types[p].device && 0 < Rank(st.types[x].usm) <= Rank(st.types[p].usm)
    ensures LegalizeParams(st, [p, x], [x]) == Ok(Retype(st, x, st.types[p]))
  {
    hide ArrayTypes, Checklist, Conforming, RetypeAll;
    UnrollChecklist(st, p, x);
    var tys := [st.types[p]] + if x in st.seen then [st.types[x]] else [];
    assert tys[0] in tys;
    ConformingMeans(tys);
    var ty := Conforming(tys).value;
    assert forall t :: t in tys ==> t == st.types[p] || t == st.types[x];
    assert Rank(ty.usm) == Rank(st.types[p].usm);
    assert ty.usm == UsmOfRank(Rank(ty.usm)) by { ConformingUsm(tys); }
    assert st.types[p].usm == UsmOfRank(Rank(st.types[p].usm));
    assert ty == st.types[p];
    RetypeOne(st, x, ty);
  }

  lemma RetypeOne(st: State, x: Var, ty: Type)
    requires Consistent(st) && IsArray(st.types, x) && ty.Array?
    ensures RetypeAll(st, [x], ty) == Retype(st, x, ty)
  {
    assert [x][..0] == [];
  }

  lemma ConformingUsm(tys: seq<Type>)
    requires (forall t :: t in tys ==> t.Array?) && Conforming(tys).Ok?
    ensures Conforming(tys).value.usm == UsmOfRank(Rank(Conforming(tys).value.usm))
  {}

  lemma LegalizeSnoc(st: State, ss: seq<Stmt>, s: Stmt)
    requires Consistent(st) && KnownAll(st.types.Keys, ss) && Known(st.types.Keys, s) && LegalizeAll(st, ss, false).Ok?
    ensures KnownAll(st.types.Keys, ss + [s])
    ensures LegalizeAll(st, ss + [s], false) == Legalize(LegalizeAll(st, ss, false).value, s, false)
  {
    hide Known;
    assert (ss + [s])[..|ss|] == ss;
  }

  /** Two array arguments. */
  function TwoArgs(): seq<Stmt> { [FromArg("a")] + [FromArg("b")] }

  lemma AfterTwoArgs(types: map<Var, Type>)
    requires IsArray(types, "a") && IsArray(types, "b")
    ensures KnownAll(types.Keys, TwoArgs())
    ensures LegalizeAll(Initial(types, NotArray), TwoArgs(), false) == Ok(Initial(types, NotArray).(seen := {"a", "b"}))
  {
    var st := Initial(types, NotArray);
    NothingToDo(st, false);
    LegalizeSnoc(st, [], FromArg("a"));
    var one: seq<Stmt> := [FromArg("a")];
    assert [] + one == one;
    hide LegalizeAll;
    LegalizeSnoc(st, one, FromArg("b"));
    assert {} + {"a"} + {"b"} == {"a", "b"};
  }

  lemma NothingToDo(st: State, inParfor: bool)
    requires Consistent(st)
    ensures LegalizeAll(st, [], inParfor) == Ok(st)
  {}

  /** `x` computed from `a`, on whose device `b` is not, and then cast onto `b`. */
  function MovingTypes(): map<Var, Type> {
    map["a" := Array("gpu", "host"), "b" := Array("cpu", "host"), "x" := Array("cpu", "host")]
  }

  function Compute(p: Var, x: Var, init: seq<Stmt>): Stmt { Parfor(Some([p, x]), [x], init, []) }

  lemma AfterCompute(st: State, p: Var, x: Var)
    requires Consistent(st) && IsArray(st.types, p) && IsArray(st.types, x) && p != x && Rank(st.types[p].usm) > 0
    requires x in st.seen ==>
               st.types[x].device == st.types[p].device && 0 < Rank(st.types[x].usm) <= Rank(st.types[p].usm)
    ensures Known(st.types.Keys, Compute(p, x, []))
    ensures Legalize(st, Compute(p, x, []), false) == Ok(Retype(st, x, st.types[p]))
  {
    hide LegalizeParams;
    OneInput(st, p, x);
    NothingToDo(Retype(st, x, st.types[p]), true);
  }

  /** The same with the allocation of `x` inside. */
  lemma AfterComputeNew(st: State, p: Var, x: Var)
    requires Consistent(st) && IsArray(st.types, p) && IsArray(st.types, x) && p != x && Rank(st.types[p].usm) > 0
    requires x !in st.seen && st.types[x] != st.types[p]
    ensures Known(st.types.Keys, Compute(p, x, [Empty(x)]))
    ensures var st1 := Retype(st, x, st.types[p]);
            Legalize(st, Compute(p, x, [Empty(x)]), false)
            == Ok(st1.(allocs := st.allocs[x := st.types[p]], seen := st.seen + {x}))
  {
    hide LegalizeParams;
    OneInput(st, p, x);
    var st1 := Retype(st, x, st.types[p]);
    var st2 := st1.(allocs := st.allocs[x := st.types[p]], seen := st.seen + {x});
    NothingToDo(st1, true);
    NothingToDo(st2, true);
    assert [Empty(x)][..0] == [];
    assert LegalizeAll(st1, [Empty(x)], true) == Legalize(st1, Empty(x), true);
  }

  function MovingPrefix(): seq<Stmt> { TwoArgs() + [Compute("a", "x", [])] }

  lemma AfterMovingPrefix() returns (st: State)
    ensures KnownAll(MovingTypes().Keys, MovingPrefix())
    ensures LegalizeAll(Initial(MovingTypes(), NotArray), MovingPrefix(), false) == Ok(st)
    ensures st.seen == {"a", "b"} && st.updated == {"x"} && st.types == MovingTypes()["x" := Array("gpu", "host")]
  {
    hide LegalizeAll, Legalize, TwoArgs, Known, Compute;
    var types := MovingTypes();
    AfterTwoArgs(types);
    var st1 := Initial(types, NotArray).(seen := {"a", "b"});
    AfterCompute(st1, "a", "x");
    st := Retype(st1, "x", Array("gpu", "host"));
    LegalizeSnoc(Initial(types, NotArray), TwoArgs(), Compute("a", "x", []));
  }

  /** A program in which a cast moves an array that has been seen. */
  lemma CastMovesSeenArray()
    ensures var st0, ss := Initial(MovingTypes(), NotArray), MovingPrefix() + [Cast("b", "x")];
            KnownAll(MovingTypes().Keys, MovingPrefix()) && KnownAll(MovingTypes().Keys, ss)
            && LegalizeAll(st0, MovingPrefix(), false).Ok? && LegalizeAll(st0, ss, false).Ok?
            && !Stable(LegalizeAll(st0, MovingPrefix(), false).value, LegalizeAll(st0, ss, false).value)
  {
    hide LegalizeAll, MovingPrefix;
    var st := AfterMovingPrefix();
    LegalizeSnoc(Initial(MovingTypes(), NotArray), MovingPrefix(), Cast("b", "x"));
    AssignIsStable(st, Cast("b", "x"), false);
  }

  /** `x` allocated for the shared array `a`, and then also computed from the
      device array `b`. */
  function BehindTypes(): map<Var, Type> {
    map["a" := Array("gpu", "shared"), "b" := Array("gpu", "device"), "x" := Array("gpu", "device")]
  }

  function BehindPrefix(): seq<Stmt> { TwoArgs() + [Compute("a", "x", [Empty("x")])] }

  lemma AfterBehindPrefix() returns (st: State)
    ensures KnownAll(BehindTypes().Keys, BehindPrefix())
    ensures LegalizeAll(Initial(BehindTypes(), NotArray), BehindPrefix(), false) == Ok(st) && Consistent(st)
    ensures st.types == BehindTypes()["x" := Array("gpu", "shared")] && st.allocs == map["x" := Array("gpu", "shared")]
  {
    hide LegalizeAll, Legalize, TwoArgs, Known, Compute;
    var types := BehindTypes();
    AfterTwoArgs(types);
    var st1 := Initial(types, NotArray).(seen := {"a", "b"});
    AfterComputeNew(st1, "a", "x");
    var st2 := Retype(st1, "x", Array("gpu", "shared"));
    st := st2.(allocs := map["x" := Array("gpu", "shared")], seen := {"a", "b"} + {"x"});
    LegalizeSnoc(Initial(types, NotArray), TwoArgs(), Compute("a", "x", [Empty("x")]));
  }

  /** A program after which an allocation is behind its array's type. */
  lemma AllocationFallsBehindOnce()
    ensures var st0, ss := Initial(BehindTypes(), NotArray), BehindPrefix() + [Compute("b", "x", [])];
            KnownAll(BehindTypes().Keys, ss) && LegalizeAll(st0, ss, false).Ok?
            && LegalizeAll(st0, ss, false).value.types["x"] == Array("gpu", "device")
            && LegalizeAll(st0, ss, false).value.allocs == map["x" := Array("gpu", "shared")]
  {
    hide LegalizeAll, Legalize, BehindPrefix, Known, Compute;
    var st := AfterBehindPrefix();
    AfterCompute(st, "b", "x");
    LegalizeSnoc(Initial(BehindTypes(), NotArray), BehindPrefix(), Compute("b", "x", []));
  }

  // ----- the pass itself -----

  class Legalizer {
    var types: map<Var, Type>
    var updated: set<Var>
    var seen: set<Var>
    var allocs: map<Var, Type>
    var returnType: Type

    ghost function St(): State reads this {
      State.State(types, updated, seen, allocs, returnType)
    }

    constructor (types: map<Var, Type>, returnType: Type)
      ensures St() == Initial(types, returnType)
    {
      this.types, this.returnType := types, returnType;
      updated, seen, allocs := {}, {}, map[];
    }

    method CheckParams(checklist: seq<Var>) returns (r: Result<Type>)
      requires forall v :: v in checklist ==> v in types
      ensures r == Conforming(ArrayTypes(types, checklist))
    {
      hide Rank, MaxRank, ArrayTypes, Conforming;
      var devices: set<string>, highest: nat := {}, 0;
      ghost var tys: seq<Type> := [];
      TypesOfNone(types, checklist);
      for i := 0 to |checklist|
        invariant tys == ArrayTypes(types, checklist[..i])
        invariant forall t :: t in tys ==> Rank(t.usm) > 0
        invariant devices == set t | t in tys :: t.device
        invariant highest == MaxRank(tys)
      {
        var ty := types[checklist[i]];
        TypesOfNext(types, checklist, i);
        if ty.Array? {
          devices := devices + {ty.device};
          var rank := Rank(ty.usm);
          if rank == 0 {
            UnknownSpoils(types, checklist, checklist[i]);
            return Raised(UnknownUsmType);
          }
          if rank > highest { highest := rank; }
          tys := tys + [ty];
        }
      }
      assert checklist[..|checklist|] == checklist;
      DevicesDiffer(tys, devices);
      ConformingCases(tys);
      if |devices| > 1 { return Raised(QueueInference); }
      if devices == {} { return Raised(NoArrays); }
      var device :| device in devices;
      return Ok(Array(device, UsmOfRank(highest)));
    }

    /** Whether the type of an array had to be changed. */
    method LegalizeArrayAttrs(v: Var, ty: Type) returns (modified: bool)
      requires IsArray(types, v) && ty.Array?
      modifies this`types
      ensures modified <==> old(types)[v] != ty
      ensures types == old(types)[v := ty]
    {
      modified := false;
      var device, usm := types[v].device, types[v].usm;
      if device != ty.device { device, modified := ty.device, true; }
      if usm != ty.usm { usm, modified := ty.usm, true; }
      if modified { types := types[v := Array(device, usm)]; }
    }

    method Retag(v: Var, ty: Type)
      requires IsArray(types, v) && ty.Array?
      modifies this`types, this`updated
      ensures St() == Retype(old(St()), v, ty)
    {
      var modified := LegalizeArrayAttrs(v, ty);
      updated := if modified then updated + {v} else updated - {v};
    }

    method BuildChecklist(params: seq<Var>, outputs: seq<Var>) returns (checklist: seq<Var>)
      requires Consistent(St()) && forall v :: v in params || v in outputs ==> v in types
      ensures checklist == Checklist(St(), params, outputs)
    {
      hide Inputs, SeenOutputs;
      checklist := [];
      ChecklistEnds(St(), params, outputs);
      for i := 0 to |params|
        invariant checklist == Inputs(params[..i], outputs)
      {
        InputsNext(params, outputs, i);
        if params[i] !in outputs { checklist := checklist + [params[i]]; }
      }
      ghost var inputs := checklist;
      for i := 0 to |outputs|
        invariant checklist == inputs + SeenOutputs(St(), outputs[..i])
      {
        SeenNext(St(), outputs, i);
        if types[outputs[i]].Array? && outputs[i] in seen { checklist := checklist + [outputs[i]]; }
      }
    }

    method LegalizeParforParams(params: seq<Var>, outputs: seq<Var>) returns (r: Option<Error>)
      requires Consistent(St()) && forall v :: v in params || v in outputs ==> v in types
      modifies this`types, this`updated
      ensures match LegalizeParams(old(St()), params, outputs)
              case Raised(e) => r == Some(e)
              case Ok(st) => r == None && St() == st
    {
      hide Conforming, ArrayTypes, Checklist;
      var checklist := BuildChecklist(params, outputs);
      var common := CheckParams(checklist);
      if common.Raised? { return Some(common.error); }
      ConformingMeans(ArrayTypes(types, checklist));
      for i := 0 to |outputs|
        invariant St() == RetypeAll(old(St()), outputs[..i], common.value)
      {
        assert outputs[..i + 1][..i] == outputs[..i];
        if types[outputs[i]].Array? { Retag(outputs[i], common.value); }
      }
      assert outputs[..|outputs|] == outputs;
      return None;
    }

    method LegalizeExpr(s: Stmt, inParfor: bool) returns (r: Option<Error>)
      requires Consistent(St()) && Known(types.Keys, s) && !s.Parfor? && !s.Return? && types[s.lhs].Array?
      modifies this
      ensures match LegalizeAssign(old(St()), s, inParfor)
              case Raised(e) => r == Some(e)
              case Ok(st) => r == None && St() == st
    {
      r := None;
      match s
      case Empty(lhs) =>
        if inParfor && lhs in updated { allocs := allocs[lhs := types[lhs]]; }
        seen := seen + {lhs};
      case Call(lhs, vars) =>
        for i := 0 to |vars|
          invariant forall v :: v in vars[..i] ==> v !in updated
        {
          if vars[i] in updated { return Some(CallNotSupported); }
        }
      case Cast(lhs, value) =>
        if value in updated { Retag(lhs, types[value]); } else { seen := seen + {lhs}; }
      case FromArg(lhs) => seen := seen + {lhs};
      case OtherExpr(lhs) => seen := seen + {lhs};
      case _ =>
    }

    method LegalizeStmt(s: Stmt, inParfor: bool) returns (r: Option<Error>)
      requires Consistent(St()) && Known(types.Keys, s)
      modifies this
      ensures match Legalize(old(St()), s, inParfor)
              case Raised(e) => r == Some(e)
              case Ok(st) => r == None && St() == st
      decreases s
    {
      r := None;
      match s
      case Parfor(params, outputs, init, body) =>
        if params.Some? { r := LegalizeParforParams(params.value, outputs); }
        if r == None { r := LegalizeBlock(init, true); }
        if r == None { r := LegalizeBlock(body, true); }
      case Return(v) =>
        if types[v].Array? && v in updated && returnType != types[v] { returnType := types[v]; }
      case _ =>
        if types[s.lhs].Array? { r := LegalizeExpr(s, inParfor); }
    }

    method LegalizeBlock(ss: seq<Stmt>, inParfor: bool) returns (r: Option<Error>)
      requires Consistent(St()) && KnownAll(types.Keys, ss)
      modifies this
      ensures match LegalizeAll(old(St()), ss, inParfor)
              case Raised(e) => r == Some(e)
              case Ok(st) => r == None && St() == st
      decreases ss
    {
      hide Legalize;
      for i := 0 to |ss|
        invariant LegalizeAll(old(St()), ss[..i], inParfor) == Ok(St())
      {
        assert ss[..i + 1][..i] == ss[..i];
        r := LegalizeStmt(ss[i], inParfor);
        if r != None {
          RaisedStays(old(St()), ss, i + 1, inParfor);
          return;
        }
      }
      assert ss[..|ss|] == ss;
      return None;
    }
  }

  lemma InputsNext(params: seq<Var>, outputs: seq<Var>, i: nat)
    requires i < |params|
    ensures Inputs(params[..i + 1], outputs) ==
            Inputs(params[..i], outputs) + if params[i] in outputs then [] else [params[i]]
  {
    assert params[..i + 1][..i] == params[..i];
  }

  lemma SeenNext(st: State, outputs: seq<Var>, i: nat)
    requires i < |outputs|
    ensures SeenOutputs(st, outputs[..i + 1]) ==
            SeenOutputs(st, outputs[..i]) + if outputs[i] in st.seen && IsArray(st.types, outputs[i]) then [outputs[i]] else []
  {
    assert outputs[..i + 1][..i] == outputs[..i];
  }

  lemma ChecklistEnds(st: State, params: seq<Var>, outputs: seq<Var>)
    ensures Inputs(params[..0], outputs) == [] && SeenOutputs(st, outputs[..0]) == []
    ensures params[..|params|] == params && outputs[..|outputs|] == outputs
  {}

  lemma TypesOfNone(types: map<Var, Type>, checklist: seq<Var>)
    ensures ArrayTypes(types, checklist[..0]) == [] && MaxRank([]) == 0
  {}

  lemma TypesOfNext(types: map<Var, Type>, checklist: seq<Var>, i: nat)
    requires (forall v :: v in checklist ==> v in types) && i < |checklist|
    ensures var tys, ty := ArrayTypes(types, checklist[..i]), types[checklist[i]];
            ArrayTypes(types, checklist[..i + 1]) == tys + (if ty.Array? then [ty] else [])
            && (ty.Array? ==> MaxRank(tys + [ty]) == if Rank(ty.usm) > MaxRank(tys) then Rank(ty.usm) else MaxRank(tys))
  {
    hide Rank;
    assert checklist[..i + 1][..i] == checklist[..i];
    var tys, ty := ArrayTypes(types, checklist[..i]), types[checklist[i]];
    assert (tys + [ty])[..|tys|] == tys;
  }

  /** The result when every USM type is known. */
  lemma ConformingCases(tys: seq<Type>)
    requires forall t :: t in tys ==> t.Array? && Rank(t.usm) > 0
    ensures tys == [] ==> Conforming(tys) == Raised(NoArrays)
    ensures tys != [] ==> Conforming(tys) == if exists t :: t in tys && t.device != tys[0].device then Raised(QueueInference)
                                             else Ok(Array(tys[0].device, UsmOfRank(MaxRank(tys))))
  {
    hide MaxRank, Rank, UsmOfRank;
  }

  lemma UnknownSpoils(types: map<Var, Type>, checklist: seq<Var>, v: Var)
    requires forall o :: o in checklist ==> o in types
    requires v in checklist && types[v].Array? && Rank(types[v].usm) == 0
    ensures Conforming(ArrayTypes(types, checklist)) == Raised(UnknownUsmType)
  {
    hide ArrayTypes;
    assert types[v] in ArrayTypes(types, checklist);
  }

  lemma DevicesDiffer(tys: seq<Type>, devices: set<string>)
    requires forall t :: t in tys ==> t.Array?
    requires devices == set t | t in tys :: t.device
    ensures devices == {} <==> tys == []
    ensures |devices| > 1 <==> exists t :: t in tys && t.device != tys[0].device
  {
    if tys != [] {
      var d := tys[0].device;
      assert tys[0] in tys && d in devices;
      assert |devices - {d}| == |devices| - 1;
      if |devices| > 1 {
        var e :| e in devices - {d};
      }
      if t :| t in tys && t.device != d {
        assert t.device in devices - {d};
      }
    }
  }

  lemma {:induction false} RaisedStays(st: State, ss: seq<Stmt>, n: nat, inParfor: bool)
    requires Consistent(st) && KnownAll(st.types.Keys, ss) && n <= |ss|
    requires LegalizeAll(st, ss[..n], inParfor).Raised?
    ensures LegalizeAll(st, ss, inParfor) == LegalizeAll(st, ss[..n], inParfor)
    decreases |ss| - n
  {
    if n < |ss| {
      assert ss[..n + 1][..n] == ss[..n];
      RaisedStays(st, ss, n + 1, inParfor);
    } else {
      assert ss[..n] == ss;
    }
  }
}
