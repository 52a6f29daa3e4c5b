/** Reference counting of the runtime's MemInfo objects across asynchronous launches:
    first the C functions on one object, then every interleaving of hosts, kernels,
    host tasks and destructors as a state machine. */
module MemInfo {

  /** What tearing a MemInfo down does, in the order it is done.  The header goes
      back to the runtime or, while there still is one, to the external allocator. */
  datatype Act = FreeData | DeleteQueue | FreeAllocator | DecrefOwner | FreeDtorInfo | FreeHeader | FreeHeaderExternally

  /** Data is freed only if no Python object owns it; otherwise that object loses a reference. */
  function Teardown(owned: bool): seq<Act> {
    if owned then [DeleteQueue, FreeAllocator, DecrefOwner, FreeDtorInfo, FreeHeader]
    else [FreeData, DeleteQueue, FreeAllocator, FreeDtorInfo, FreeHeader]
  }

  /** No act is done twice; the data is freed or its owner loses a reference, never
      both; queue, allocator and destructor info go, the data before them and the
      header last, to the runtime. */
  predicate Complete(log: seq<Act>, owned: bool) {
    |log| == 5 && (forall i, j :: 0 <= i < j < |log| ==> log[i] != log[j])
    && (FreeData in log <==> !owned) && (DecrefOwner in log <==> owned)
    && DeleteQueue in log && FreeAllocator in log && FreeDtorInfo in log
    && (!owned ==> log[0] == FreeData) && log[4] == FreeHeader
  }

  lemma TeardownIsComplete(owned: bool)
    ensures Complete(Teardown(owned), owned)
  {
    var log := Teardown(owned);
    assert log[0] == if owned then DeleteQueue else FreeData;
    assert log[1] == if owned then FreeAllocator else DeleteQueue;
    assert log[2] == if owned then DecrefOwner else FreeAllocator;
    assert log[3] == FreeDtorInfo;
  }

  // ----- the C functions -----

  class NrtMemInfo {
    var refct: nat
    var hasAllocator: bool
    const owned: bool
    var log: seq<Act>

    /** A live MemInfo keeps its allocator and has torn nothing down; one that died
        while the runtime was shutting down lost no more than its header. */
    ghost predicate Valid() reads this {
      if refct > 0 then hasAllocator && log == []
      else log == Teardown(owned) || log == [FreeHeaderExternally]
    }

    constructor (owned: bool)
      ensures Valid() && refct == 1 && this.owned == owned
    {
      this.refct, this.hasAllocator, this.owned, this.log := 1, true, owned, [];
    }

    method Acquire()
      requires Valid() && refct > 0
      modifies this
      ensures Valid() && refct == old(refct) + 1
    {
      refct := refct + 1;
    }

    /** Drops a reference; the last one runs the destructor and frees the object. */
    method Release(shutting: bool)
      requires Valid() && refct > 0
      modifies this
      ensures Valid() && refct == old(refct) - 1
      ensures refct == 0 ==> log == if shutting then [FreeHeaderExternally] else Teardown(owned)
      ensures refct == 0 && !shutting ==>
                Complete(log, owned) && (FreeData in log <==> !owned) && (DecrefOwner in log <==> owned)
    {
      refct := refct - 1;
      if refct == 0 {
        CallDtor(shutting);
        TeardownIsComplete(owned);
        hide Teardown;
      }
    }

    method CallDtor(shutting: bool)
      requires refct == 0 && hasAllocator && log == []
      modifies this
      ensures refct == 0 && log == if shutting then [FreeHeaderExternally] else Teardown(owned)
    {
      if !shutting {
        UsmNdArrayDtor();
      }
      Dealloc();
    }

    /** Everything but the header; without its allocator the object's header is left
        to the runtime. */
    method UsmNdArrayDtor()
      requires hasAllocator
      modifies this`log, this`hasAllocator
      ensures !hasAllocator && log + [FreeHeader] == old(log) + Teardown(owned)
      ensures old(log) == [] ==> Complete(log + [FreeHeader], owned)
    {
      TeardownIsComplete(owned);
      hide Complete;
      if !owned {
        log := log + [FreeData];
      }
      log := log + [DeleteQueue, FreeAllocator];
      hasAllocator := false;
      if owned {
        log := log + [DecrefOwner];
      }
      log := log + [FreeDtorInfo];
      assert log + [FreeHeader] == old(log) + Teardown(owned);
      assert old(log) == [] ==> old(log) + Teardown(owned) == Teardown(owned);
    }

    method Dealloc()
      modifies this`log
      ensures log == old(log) + [if hasAllocator then FreeHeaderExternally else FreeHeader]
    {
      if hasAllocator {
        log := log + [FreeHeaderExternally];
      } else {
        log := log + [FreeHeader];
      }
    }
  }

  function Occurrences(xs: seq<NrtMemInfo>, n: nat, x: NrtMemInfo): nat
    requires n <= |xs|
  {
    if n == 0 then 0 else Occurrences(xs, n - 1, x) + if xs[n - 1] == x then 1 else 0
  }

  lemma {:induction false} OccursIfIn(xs: seq<NrtMemInfo>, n: nat, i: nat)
    requires i < n <= |xs|
    ensures Occurrences(xs, n, xs[i]) > 0
  {
    if i < n - 1 { OccursIfIn(xs, n - 1, i); }
  }

  /** Takes one reference per argument; an array passed twice is acquired twice. */
  method AcquireAll(xs: seq<NrtMemInfo>)
    requires forall x :: x in xs ==> x.Valid() && x.refct > 0
    modifies xs
    ensures forall x :: x in xs ==> x.Valid() && x.refct == old(x.refct) + Occurrences(xs, |xs|, x)
  {
    for i := 0 to |xs|
      invariant forall x :: x in xs ==> x.Valid() && x.refct > 0 && x.refct == old(x.refct) + Occurrences(xs, i, x)
    {
      xs[i].Acquire();
    }
  }

  lemma {:induction false} OccurrencesMonotone(xs: seq<NrtMemInfo>, n: nat, m: nat, x: NrtMemInfo)
    requires n <= m <= |xs|
    ensures Occurrences(xs, n, x) <= Occurrences(xs, m, x)
  {
    if n < m { OccurrencesMonotone(xs, n, m - 1, x); }
  }

  /** The host task gives all of them back. */
  method ReleaseAll(xs: seq<NrtMemInfo>, shutting: bool)
    requires forall x :: x in xs ==> x.Valid() && x.refct >= Occurrences(xs, |xs|, x)
    modifies xs
    ensures forall x :: x in xs ==> x.Valid() && x.refct == old(x.refct) - Occurrences(xs, |xs|, x)
    ensures forall x :: x in xs && x.refct == 0 ==> x.log == if shutting then [FreeHeaderExternally] else Teardown(x.owned)
  {
    for i := 0 to |xs|
      invariant forall x :: x in xs ==> x.Valid() && x.refct + Occurrences(xs, i, x) == old(x.refct)
      invariant forall x :: x in xs && Occurrences(xs, i, x) > 0 && x.refct == 0 ==>
                              x.log == if shutting then [FreeHeaderExternally] else Teardown(x.owned)
    {
      OccurrencesMonotone(xs, i + 1, |xs|, xs[i]);
      xs[i].Release(shutting);
    }
    forall x | x in xs ensures Occurrences(xs, |xs|, x) > 0 {
      var i :| 0 <= i < |xs| && xs[i] == x;
      OccursIfIn(xs, |xs|, i);
    }
  }

  // ----- the state machine -----

  datatype Mi = Mi(refct: nat, owned: bool, log: seq<Act>)

  datatype Task = Pending | Scheduled | Failed

  /** An asynchronous launch: kernel submitted on args, references args[released..acquired]
      held for it, complete once the device event has fired. */
  datatype Launch = Launch(args: seq<nat>, acquired: nat, released: nat, task: Task, complete: bool)

  datatype State = State(mis: seq<Mi>, host: seq<nat>, launches: seq<Launch>)

  datatype Event =
    | Create(owned: bool)
    | HostAcquire(m: nat)
    | HostDrop(m: nat)
    | SubmitKernel(args: seq<nat>)
    | AcquireNext(l: nat)
    | SubmitTask(l: nat, ok: bool)
    | KernelDone(l: nat)
    | ReleaseNext(l: nat)
    | DtorStep(m: nat)

  const EMPTY: State := State([], [], [])

  /** Submitted, but the references for its arguments are not all taken yet. */
  predicate InWindow(s: State, m: nat) {
    exists l :: 0 <= l < |s.launches| && s.launches[l].task.Pending? && m in s.launches[l].args
  }

  /** The host may drop its last reference to an array only outside such a window. */
  predicate Enabled(s: State, e: Event) {
    |s.host| == |s.mis| &&
    match e
    case Create(_) => true
    case HostAcquire(m) => m < |s.mis| && s.host[m] > 0
    case HostDrop(m) => m < |s.mis| && s.host[m] > 0 && (s.host[m] > 1 || !InWindow(s, m))
    case SubmitKernel(args) => forall m :: m in args ==> m < |s.mis| && s.host[m] > 0
    case AcquireNext(l) => l < |s.launches| && var x := s.launches[l]; x.task.Pending? && x.acquired < |x.args|
    case SubmitTask(l, _) => l < |s.launches| && var x := s.launches[l]; x.task.Pending? && x.acquired == |x.args|
    case KernelDone(l) => l < |s.launches| && !s.launches[l].complete
    case ReleaseNext(l) => l < |s.launches| && var x := s.launches[l]; x.task.Scheduled? && x.complete && x.released < |x.args|
    case DtorStep(m) => m < |s.mis| && s.mis[m].refct == 0 && |s.mis[m].log| < |Teardown(s.mis[m].owned)|
  }

  /** refct++ and refct-- of the C functions; both assert a positive count. */
  predicate CountsAreSafe(s: State, e: Event)
    requires Enabled(s, e)
  {
    match e
    case HostAcquire(m) => s.mis[m].refct > 0
    case HostDrop(m) => s.mis[m].refct > 0
    case AcquireNext(l) => var x := s.launches[l]; x.args[x.acquired] < |s.mis| && s.mis[x.args[x.acquired]].refct > 0
    case ReleaseNext(l) => var x := s.launches[l]; x.args[x.released] < |s.mis| && s.mis[x.args[x.released]].refct > 0
    case _ => true
  }

  function Bump(mis: seq<Mi>, m: nat): seq<Mi>
    requires m < |mis|
  {
    mis[m := mis[m].(refct := mis[m].refct + 1)]
  }

  function Drop(mis: seq<Mi>, m: nat): seq<Mi>
    requires m < |mis| && mis[m].refct > 0
  {
    mis[m := mis[m].(refct := mis[m].refct - 1)]
  }

  function Next(s: State, e: Event): State
    requires Enabled(s, e) && CountsAreSafe(s, e)
  {
    match e
    case Create(owned) => s.(mis := s.mis + [Mi(1, owned, [])], host := s.host + [1])
    case HostAcquire(m) => s.(mis := Bump(s.mis, m), host := s.host[m := s.host[m] + 1])
    case HostDrop(m) => s.(mis := Drop(s.mis, m), host := s.host[m := s.host[m] - 1])
    case SubmitKernel(args) => s.(launches := s.launches + [Launch(args, 0, 0, Pending, false)])
    case AcquireNext(l) =>
      var x := s.launches[l];
      s.(mis := Bump(s.mis, x.args[x.acquired]), launches := s.launches[l := x.(acquired := x.acquired + 1)])
    case SubmitTask(l, ok) => s.(launches := s.launches[l := s.launches[l].(task := if ok then Scheduled else Failed)])
    case KernelDone(l) => s.(launches := s.launches[l := s.launches[l].(complete := true)])
    case ReleaseNext(l) =>
      var x := s.launches[l];
      s.(mis := Drop(s.mis, x.args[x.released]), launches := s.launches[l := x.(released := x.released + 1)])
    case DtorStep(m) =>
      var x := s.mis[m];
      s.(mis := s.mis[m := x.(log := x.log + [Teardown(x.owned)[|x.log|]])])
  }

  // ----- conservation of references -----

  /** How often m occurs in args[i..j]. */
  ghost function Count(args: seq<nat>, i: nat, j: nat, m: nat): nat
    requires i <= j <= |args|
    decreases j
  {
    if i == j then 0 else Count(args, i, j - 1, m) + if args[j - 1] == m then 1 else 0
  }

  lemma {:induction false} CountDropFirst(args: seq<nat>, i: nat, j: nat, m: nat)
    requires i < j <= |args|
    ensures Count(args, i, j, m) == Count(args, i + 1, j, m) + if args[i] == m then 1 else 0
    decreases j
  {
    if i + 1 < j { CountDropFirst(args, i, j - 1, m); }
  }

  lemma {:induction false} CountPositive(args: seq<nat>, i: nat, j: nat, k: nat)
    requires i <= k < j <= |args|
    ensures Count(args, i, j, args[k]) > 0
    decreases j
  {
    if k < j - 1 { CountPositive(args, i, j - 1, k); }
  }

  ghost predicate LaunchOk(x: Launch) {
    && x.released <= x.acquired <= |x.args|
    && (!x.task.Pending? ==> x.acquired == |x.args|)
    && (x.released > 0 ==> x.task.Scheduled? && x.complete)
  }

  ghost predicate AllOk(launches: seq<Launch>) { forall l :: 0 <= l < |launches| ==> LaunchOk(launches[l]) }

  ghost function Refs(x: Launch, m: nat): nat
    requires LaunchOk(x)
  {
    Count(x.args, x.released, x.acquired, m)
  }

  /** References to m that the first n launches hold. */
  ghost function Held(launches: seq<Launch>, n: nat, m: nat): nat
    requires n <= |launches| && AllOk(launches)
  {
    if n == 0 then 0
    else Held(launches, n - 1, m) + Refs(launches[n - 1], m)
  }

  lemma {:induction false} HeldUpdate(a: seq<Launch>, l: nat, x: Launch, n: nat, m: nat)
    requires l < |a| && n <= |a| && AllOk(a) && LaunchOk(x)
    ensures AllOk(a[l := x])
    ensures Held(a[l := x], n, m) + (if l < n then Refs(a[l], m) else 0) == Held(a, n, m) + (if l < n then Refs(x, m) else 0)
  {
    if n > 0 { HeldUpdate(a, l, x, n - 1, m); }
  }

  lemma {:induction false} HeldPrefix(a: seq<Launch>, x: Launch, n: nat, m: nat)
    requires n <= |a| && LaunchOk(x) && AllOk(a)
    ensures AllOk(a + [x])
    ensures Held(a + [x], n, m) == Held(a, n, m)
  {
    if n > 0 {
      HeldPrefix(a, x, n - 1, m);
      assert (a + [x])[n - 1] == a[n - 1];
    }
  }

  lemma {:induction false} HeldAtLeast(a: seq<Launch>, n: nat, l: nat, m: nat)
    requires l < n <= |a| && AllOk(a)
    ensures Held(a, n, m) >= Refs(a[l], m)
  {
    if l < n - 1 { HeldAtLeast(a, n - 1, l, m); }
  }

  ghost predicate MiOk(s: State, m: nat)
    requires m < |s.mis| == |s.host| && AllOk(s.launches)
  {
    var x := s.mis[m];
    && x.refct == s.host[m] + Held(s.launches, |s.launches|, m)
    && (x.refct > 0 ==> x.log == [])
    && x.log <= Teardown(x.owned)
  }

  /** Every reference is accounted for: held by the host or by a launch. */
  ghost predicate Inv(s: State) {
    && |s.mis| == |s.host|
    && AllOk(s.launches)
    && (forall l :: 0 <= l < |s.launches| ==> ArgsOk(s, s.launches[l]))
    && (forall m :: 0 <= m < |s.mis| ==> MiOk(s, m))
  }

  /** While a launch is taking its references, the host still has its own. */
  ghost predicate ArgsOk(s: State, x: Launch)
    requires |s.mis| == |s.host|
  {
    forall m :: m in x.args ==> m < |s.mis| && (x.task.Pending? ==> s.host[m] > 0)
  }

  /** No reachable state lets the C functions count up or down from zero. */
  lemma CountsStaySafe(s: State, e: Event)
    requires Inv(s) && Enabled(s, e)
    ensures CountsAreSafe(s, e)
  {
    match e
    case AcquireNext(l) =>
      var x := s.launches[l];
      assert x.args[x.acquired] in x.args;
      assert MiOk(s, x.args[x.acquired]);
    case ReleaseNext(l) =>
      var x := s.launches[l];
      assert x.args[x.released] in x.args;
      CountPositive(x.args, x.released, x.acquired, x.released);
      HeldAtLeast(s.launches, |s.launches|, l, x.args[x.released]);
      assert MiOk(s, x.args[x.released]);
    case HostAcquire(m) => assert MiOk(s, m);
    case HostDrop(m) => assert MiOk(s, m);
    case _ =>
  }

  lemma CreateInv(s: State, owned: bool)
    requires Inv(s)
    ensures CountsAreSafe(s, Create(owned)) && Inv(Next(s, Create(owned)))
  {
    var t := Next(s, Create(owned));
    forall m | 0 <= m < |t.mis| ensures MiOk(t, m) {
      if m < |s.mis| {
        assert MiOk(s, m);
      } else {
        UnknownIsNotHeld(s, |s.launches|, m);
      }
    }
    forall l | 0 <= l < |t.launches| ensures ArgsOk(t, t.launches[l]) {
      assert ArgsOk(s, s.launches[l]);
    }
  }

  lemma {:induction false} UnknownIsNotHeld(s: State, n: nat, m: nat)
    requires Inv(s) && n <= |s.launches| && m >= |s.mis|
    ensures Held(s.launches, n, m) == 0
  {
    if n > 0 {
      UnknownIsNotHeld(s, n - 1, m);
      var x := s.launches[n - 1];
      assert ArgsOk(s, x);
      NotCounted(x.args, x.released, x.acquired, m);
    }
  }

  lemma {:induction false} NotCounted(args: seq<nat>, i: nat, j: nat, m: nat)
    requires i <= j <= |args| && m !in args
    ensures Count(args, i, j, m) == 0
    decreases j
  {
    if i < j { NotCounted(args, i, j - 1, m); }
  }

  lemma HostInv(s: State, e: Event)
    requires Inv(s) && Enabled(s, e) && (e.HostAcquire? || e.HostDrop?)
    ensures CountsAreSafe(s, e) && Inv(Next(s, e))
  {
    CountsStaySafe(s, e);
    var t := Next(s, e);
    forall m | 0 <= m < |t.mis| ensures MiOk(t, m) { assert MiOk(s, m); }
    forall l | 0 <= l < |t.launches| ensures ArgsOk(t, t.launches[l]) {
      assert ArgsOk(s, s.launches[l]);
    }
  }

  lemma SubmitInv(s: State, args: seq<nat>)
    requires Inv(s) && Enabled(s, SubmitKernel(args))
    ensures CountsAreSafe(s, SubmitKernel(args)) && Inv(Next(s, SubmitKernel(args)))
  {
    var t := Next(s, SubmitKernel(args));
    var x := Launch(args, 0, 0, Pending, false);
    forall m | 0 <= m < |t.mis| ensures MiOk(t, m) {
      assert MiOk(s, m);
      HeldPrefix(s.launches, x, |s.launches|, m);
    }
    forall l | 0 <= l < |t.launches| ensures ArgsOk(t, t.launches[l]) {
      if l < |s.launches| { assert ArgsOk(s, s.launches[l]); }
    }
  }

  /** Steps of one launch: taking or giving back a reference, scheduling, completion. */
  lemma LaunchInv(s: State, e: Event, l: nat)
    requires Inv(s) && Enabled(s, e)
    requires (e.AcquireNext? || e.SubmitTask? || e.KernelDone? || e.ReleaseNext?) && e.l == l
    ensures CountsAreSafe(s, e) && Inv(Next(s, e))
  {
    CountsStaySafe(s, e);
    var t := Next(s, e);
    var x, y := s.launches[l], t.launches[l];
    assert ArgsOk(s, x);
    assert t.launches == s.launches[l := y];
    forall m | 0 <= m < |t.mis| ensures MiOk(t, m) {
      assert MiOk(s, m);
      HeldUpdate(s.launches, l, y, |s.launches|, m);
      if e.ReleaseNext? { CountDropFirst(x.args, x.released, x.acquired, m); }
    }
    forall k | 0 <= k < |t.launches| ensures ArgsOk(t, t.launches[k]) {
      assert ArgsOk(s, s.launches[k]);
    }
  }

  lemma DtorInv(s: State, m: nat)
    requires Inv(s) && Enabled(s, DtorStep(m))
    ensures CountsAreSafe(s, DtorStep(m)) && Inv(Next(s, DtorStep(m)))
  {
    var t := Next(s, DtorStep(m));
    assert MiOk(s, m);
    forall k | 0 <= k < |t.mis| ensures MiOk(t, k) { assert MiOk(s, k); }
    forall l | 0 <= l < |t.launches| ensures ArgsOk(t, t.launches[l]) {
      assert ArgsOk(s, s.launches[l]);
    }
  }

  lemma NextInv(s: State, e: Event)
    requires Inv(s) && Enabled(s, e)
    ensures CountsAreSafe(s, e) && Inv(Next(s, e))
  {
    hide Inv, Next, CountsAreSafe, Enabled;
    match e
    case Create(owned) => CreateInv(s, owned);
    case HostAcquire(_) => HostInv(s, e);
    case HostDrop(_) => HostInv(s, e);
    case SubmitKernel(args) => SubmitInv(s, args);
    case AcquireNext(l) => LaunchInv(s, e, l);
    case SubmitTask(l, _) => LaunchInv(s, e, l);
    case KernelDone(l) => LaunchInv(s, e, l);
    case ReleaseNext(l) => LaunchInv(s, e, l);
    case DtorStep(m) => DtorInv(s, m);
  }

  // ----- every interleaving -----

  /** A run: events in any order, each enabled when it happens. */
  ghost predicate Run(s: State, events: seq<Event>, t: State)
    decreases |events|
  {
    if events == [] then s == t
    else Enabled(s, events[0]) && CountsAreSafe(s, events[0]) && Run(Next(s, events[0]), events[1..], t)
  }

  lemma {:induction false} RunInv(s: State, events: seq<Event>, t: State)
    requires Inv(s) && Run(s, events, t)
    ensures Inv(t)
    decreases |events|
  {
    if events != [] {
      NextInv(s, events[0]);
      RunInv(Next(s, events[0]), events[1..], t);
    }
  }

  ghost predicate Reachable(t: State) { exists events :: Run(EMPTY, events, t) }

  lemma ReachableInv(t: State)
    requires Reachable(t)
    ensures Inv(t)
  {
    var events :| Run(EMPTY, events, t);
    RunInv(EMPTY, events, t);
  }

  /** Safety: while a kernel taking a MemInfo is incomplete, nothing of that MemInfo has
      been torn down - neither its data nor its owner's reference. */
  lemma ArgumentsOutliveKernels(s: State, l: nat, m: nat)
    requires Reachable(s) && l < |s.launches| && !s.launches[l].complete && m in s.launches[l].args
    ensures m < |s.mis| && s.mis[m].refct > 0 && s.mis[m].log == []
  {
    ReachableInv(s);
    var x := s.launches[l];
    assert ArgsOk(s, x);
    assert MiOk(s, m);
    if !x.task.Pending? {
      var k :| 0 <= k < |x.args| && x.args[k] == m;
      CountPositive(x.args, 0, |x.args|, k);
      HeldAtLeast(s.launches, |s.launches|, l, m);
    }
  }

  /** Nothing more can happen by itself: the host holds nothing, every host task that was
      accepted has run, every destructor is through. */
  ghost predicate Quiescent(s: State) {
    && (forall m :: 0 <= m < |s.host| ==> s.host[m] == 0)
    && (forall l :: 0 <= l < |s.launches| ==> Finished(s.launches[l]))
    && (forall m :: 0 <= m < |s.mis| ==> !Enabled(s, DtorStep(m)))
  }

  predicate Finished(x: Launch) { x.task.Failed? || (x.task.Scheduled? && x.released == |x.args|) }

  /** A launch whose host task could not be submitted keeps its references. */
  predicate Stranded(s: State, m: nat) {
    exists l :: 0 <= l < |s.launches| && s.launches[l].task.Failed? && m in s.launches[l].args
  }

  /** A launch fails exactly if the submission of its host task does. */
  lemma {:induction false} FailedExactly(s: State, events: seq<Event>, t: State, l: nat)
    requires Run(s, events, t) && l < |t.launches|
    ensures t.launches[l].task.Failed? <==>
            (l < |s.launches| && s.launches[l].task.Failed?) || SubmitTask(l, false) in events
    decreases |events|
  {
    if events != [] {
      hide Enabled, CountsAreSafe, Bump, Drop;
      var s1 := Next(s, events[0]);
      FailedExactly(s1, events[1..], t, l);
      assert events == [events[0]] + events[1..];
      OneSubmission(s, events[0], l);
    }
  }

  lemma OneSubmission(s: State, e: Event, l: nat)
    requires Enabled(s, e) && CountsAreSafe(s, e)
    ensures var s' := Next(s, e);
            (l < |s'.launches| && s'.launches[l].task.Failed?) <==>
            ((l < |s.launches| && s.launches[l].task.Failed?) || e == SubmitTask(l, false))
  {}

  /** If all host tasks can be submitted, everything can be reclaimed in the end. */
  lemma NothingIsStranded(events: seq<Event>, s: State, m: nat)
    requires Run(EMPTY, events, s) && forall l :: SubmitTask(l, false) !in events
    ensures !Stranded(s, m)
    ensures Quiescent(s) && m < |s.mis| ==> Complete(s.mis[m].log, s.mis[m].owned)
  {
    hide Complete;
    forall l | 0 <= l < |s.launches| ensures !s.launches[l].task.Failed? {
      FailedExactly(EMPTY, events, s, l);
    }
    if Quiescent(s) && m < |s.mis| { ReclaimedExactlyOnce(s, m); }
  }

  lemma {:induction false} FinishedHoldNothing(s: State, n: nat, m: nat)
    requires Inv(s) && n <= |s.launches| && !Stranded(s, m)
    requires forall l :: 0 <= l < |s.launches| ==> Finished(s.launches[l])
    ensures Held(s.launches, n, m) == 0
  {
    if n > 0 {
      FinishedHoldNothing(s, n - 1, m);
      var x := s.launches[n - 1];
      assert LaunchOk(x) && Finished(x);
      if x.task.Failed? { NotCounted(x.args, x.released, x.acquired, m); }
    }
  }

  /** Reclamation: at quiescence a MemInfo has been torn down completely, every act
      exactly once and in order, unless a failed host task submission stranded it - and
      then it has not been touched at all. */
  lemma ReclaimedExactlyOnce(s: State, m: nat)
    requires Reachable(s) && Quiescent(s) && m < |s.mis|
    ensures s.mis[m].log == Teardown(s.mis[m].owned) <==> !Stranded(s, m)
    ensures Stranded(s, m) ==> s.mis[m].log == []
    ensures !Stranded(s, m) ==> Complete(s.mis[m].log, s.mis[m].owned)
  {
    TeardownIsComplete(s.mis[m].owned);
    hide Reachable, Quiescent, Teardown, Complete;
    TornDownUnlessStranded(s, m);
  }

  lemma TornDownUnlessStranded(s: State, m: nat)
    requires Reachable(s) && Quiescent(s) && m < |s.mis|
    ensures s.mis[m].log == if Stranded(s, m) then [] else Teardown(s.mis[m].owned)
  {
    ReachableInv(s);
    assert MiOk(s, m);
    if Stranded(s, m) {
      var l :| 0 <= l < |s.launches| && s.launches[l].task.Failed? && m in s.launches[l].args;
      var x := s.launches[l];
      assert LaunchOk(x);
      var k :| 0 <= k < |x.args| && x.args[k] == m;
      CountPositive(x.args, 0, |x.args|, k);
      HeldAtLeast(s.launches, |s.launches|, l, m);
    } else {
      FinishedHoldNothing(s, |s.launches|, m);
      assert !Enabled(s, DtorStep(m));
    }
  }

  /** The caller's own reference across the window is needed.  Were the last one
      dropped before the launch has taken its own, the MemInfo would be torn down
      exactly if no launch holds another. */
  lemma WindowNeedsHostReference(s: State, m: nat)
    requires Reachable(s) && m < |s.mis| == |s.host| && s.host[m] == 1 && InWindow(s, m)
    ensures AllOk(s.launches) && s.mis[m].refct > 0
    ensures var t := s.(mis := Drop(s.mis, m), host := s.host[m := 0]);
            t.mis[m].refct == 0 <==> Held(s.launches, |s.launches|, m) == 0
    ensures var t := s.(mis := Drop(s.mis, m), host := s.host[m := 0]);
            Enabled(t, DtorStep(m)) <==> Held(s.launches, |s.launches|, m) == 0
  {
    ReachableInv(s);
    assert MiOk(s, m);
  }

  /** It can happen: a kernel submitted on an array that nothing else refers to. */
  lemma WindowIsReachable() returns (s: State)
    ensures Reachable(s) && |s.mis| == |s.host| == 1 && s.host[0] == 1 && InWindow(s, 0)
    ensures AllOk(s.launches) && Held(s.launches, |s.launches|, 0) == 0 && !s.launches[0].complete
  {
    var s1 := Next(EMPTY, Create(false));
    s := Next(s1, SubmitKernel([0]));
    assert Run(s, [], s);
    assert [SubmitKernel([0])][1..] == [];
    assert Run(s1, [SubmitKernel([0])], s);
    assert [Create(false), SubmitKernel([0])][1..] == [SubmitKernel([0])];
    assert Run(EMPTY, [Create(false), SubmitKernel([0])], s);
    assert s.launches[0].task.Pending? && 0 in s.launches[0].args;
  }

  // ----- every run can be brought to an end -----

  ghost function LaunchWork(x: Launch): nat
    requires LaunchOk(x)
  {
    (|x.args| - x.acquired) + (|x.args| - x.released) + (if x.task.Pending? then 1 else 0) + if x.complete then 0 else 1
  }

  ghost function LaunchesWork(launches: seq<Launch>, n: nat): nat
    requires n <= |launches| && AllOk(launches)
  {
    if n == 0 then 0 else LaunchesWork(launches, n - 1) + LaunchWork(launches[n - 1])
  }

  ghost function HostWork(host: seq<nat>, n: nat): nat
    requires n <= |host|
  {
    if n == 0 then 0 else HostWork(host, n - 1) + host[n - 1]
  }

  predicate LogOk(x: Mi) { x.log <= Teardown(x.owned) }

  predicate LogsOk(mis: seq<Mi>) { forall m :: 0 <= m < |mis| ==> LogOk(mis[m]) }

  ghost function TeardownWork(mis: seq<Mi>, n: nat): nat
    requires n <= |mis| && LogsOk(mis)
  {
    if n == 0 then 0 else TeardownWork(mis, n - 1) + |Teardown(mis[n - 1].owned)| - |mis[n - 1].log|
  }

  lemma InvLogs(s: State)
    requires Inv(s)
    ensures LogsOk(s.mis)
  {
    forall m | 0 <= m < |s.mis| ensures LogOk(s.mis[m]) { assert MiOk(s, m); }
  }

  /** What is left to do if no new work arrives. */
  ghost function WorkLeft(s: State): nat
    requires Inv(s)
  {
    InvLogs(s);
    LaunchesWork(s.launches, |s.launches|) + HostWork(s.host, |s.host|) + TeardownWork(s.mis, |s.mis|)
  }

  lemma {:induction false} LaunchesWorkUpdate(a: seq<Launch>, l: nat, x: Launch, n: nat)
    requires l < |a| && n <= |a| && AllOk(a) && LaunchOk(x)
    ensures AllOk(a[l := x])
    ensures LaunchesWork(a[l := x], n) + (if l < n then LaunchWork(a[l]) else 0)
            == LaunchesWork(a, n) + (if l < n then LaunchWork(x) else 0)
  {
    if n > 0 { LaunchesWorkUpdate(a, l, x, n - 1); }
  }

  lemma {:induction false} HostWorkUpdate(a: seq<nat>, m: nat, x: nat, n: nat)
    requires m < |a| && n <= |a|
    ensures HostWork(a[m := x], n) + (if m < n then a[m] else 0) == HostWork(a, n) + (if m < n then x else 0)
  {
    if n > 0 { HostWorkUpdate(a, m, x, n - 1); }
  }

  lemma {:induction false} TeardownWorkUpdate(a: seq<Mi>, m: nat, x: Mi, n: nat)
    requires m < |a| && n <= |a| && LogsOk(a) && LogOk(x) && x.owned == a[m].owned
    ensures LogsOk(a[m := x])
    ensures TeardownWork(a[m := x], n) + (if m < n then |x.log| else 0)
            == TeardownWork(a, n) + (if m < n then |a[m].log| else 0)
  {
    if n > 0 { TeardownWorkUpdate(a, m, x, n - 1); }
  }

  /** The event that brings a restless state nearer to rest. */
  lemma NextEvent(s: State) returns (e: Event)
    requires Inv(s) && !Quiescent(s)
    ensures Enabled(s, e)
    ensures !e.Create? && !e.HostAcquire? && !e.SubmitKernel? && (e.SubmitTask? ==> e.ok)
  {
    if l :| 0 <= l < |s.launches| && s.launches[l].task.Pending? {
      assert LaunchOk(s.launches[l]);
      e := if s.launches[l].acquired < |s.launches[l].args| then AcquireNext(l) else SubmitTask(l, true);
    } else if m :| 0 <= m < |s.host| && s.host[m] != 0 {
      e := HostDrop(m);
    } else if l :| 0 <= l < |s.launches| && !Finished(s.launches[l]) {
      assert LaunchOk(s.launches[l]);
      e := if s.launches[l].complete then ReleaseNext(l) else KernelDone(l);
    } else {
      var m :| 0 <= m < |s.mis| && Enabled(s, DtorStep(m));
      e := DtorStep(m);
    }
  }

  lemma EventUsesWork(s: State, e: Event)
    requires Inv(s) && Enabled(s, e)
    requires !e.Create? && !e.HostAcquire? && !e.SubmitKernel?
    ensures CountsAreSafe(s, e) && Inv(Next(s, e)) && WorkLeft(Next(s, e)) == WorkLeft(s) - 1
  {
    NextInv(s, e);
    InvLogs(s);
    InvLogs(Next(s, e));
    match e
    case HostDrop(m) => HostUsesWork(s, e);
    case DtorStep(m) => HostUsesWork(s, e);
    case AcquireNext(l) => LaunchUsesWork(s, e, l);
    case SubmitTask(l, _) => LaunchUsesWork(s, e, l);
    case KernelDone(l) => LaunchUsesWork(s, e, l);
    case ReleaseNext(l) => LaunchUsesWork(s, e, l);
  }

  lemma HostUsesWork(s: State, e: Event)
    requires Enabled(s, e) && CountsAreSafe(s, e) && (e.HostDrop? || e.DtorStep?) && AllOk(s.launches)
    requires LogsOk(s.mis) && LogsOk(Next(s, e).mis)
    ensures var t := Next(s, e);
            t.launches == s.launches
            && HostWork(t.host, |t.host|) + TeardownWork(t.mis, |t.mis|) + 1
               == HostWork(s.host, |s.host|) + TeardownWork(s.mis, |s.mis|)
  {
    var t := Next(s, e);
    if e.HostDrop? { HostWorkUpdate(s.host, e.m, s.host[e.m] - 1, |s.host|); }
    TeardownWorkUpdate(s.mis, e.m, t.mis[e.m], |s.mis|);
  }

  lemma LaunchUsesWork(s: State, e: Event, l: nat)
    requires Enabled(s, e) && CountsAreSafe(s, e) && AllOk(s.launches) && AllOk(Next(s, e).launches)
    requires (e.AcquireNext? || e.SubmitTask? || e.KernelDone? || e.ReleaseNext?) && e.l == l
    requires LogsOk(s.mis) && LogsOk(Next(s, e).mis)
    ensures var t := Next(s, e);
            t.host == s.host && TeardownWork(t.mis, |t.mis|) == TeardownWork(s.mis, |s.mis|)
            && LaunchesWork(t.launches, |t.launches|) + 1 == LaunchesWork(s.launches, |s.launches|)
  {
    var x, t := s.launches[l], Next(s, e);
    LaunchesWorkUpdate(s.launches, l, t.launches[l], |s.launches|);
    if e.AcquireNext? {
      TeardownWorkUpdate(s.mis, x.args[x.acquired], t.mis[x.args[x.acquired]], |s.mis|);
    } else if e.ReleaseNext? {
      TeardownWorkUpdate(s.mis, x.args[x.released], t.mis[x.args[x.released]], |s.mis|);
    }
  }

  /** From every state the host can stop, the kernels finish and the tasks run until
      all is at rest; if no further task submission fails, nothing new is stranded. */
  lemma {:induction false} CanComeToRest(s: State) returns (events: seq<Event>, t: State)
    requires Inv(s)
    ensures Run(s, events, t) && Inv(t) && Quiescent(t)
    ensures |t.mis| == |s.mis| && forall m :: Stranded(t, m) <==> Stranded(s, m)
    decreases WorkLeft(s)
  {
    if Quiescent(s) {
      events, t := [], s;
    } else {
      var e := NextEvent(s);
      EventUsesWork(s, e);
      var s' := Next(s, e);
      SameStranded(s, e);
      var rest;
      rest, t := CanComeToRest(s');
      events := [e] + rest;
      assert events[1..] == rest;
    }
  }

  lemma SameStranded(s: State, e: Event)
    requires Enabled(s, e) && CountsAreSafe(s, e)
    requires !e.Create? && !e.HostAcquire? && !e.SubmitKernel? && (e.SubmitTask? ==> e.ok)
    ensures |Next(s, e).mis| == |s.mis| && forall m :: Stranded(Next(s, e), m) <==> Stranded(s, m)
  {
    var t := Next(s, e);
    assert |t.launches| == |s.launches|;
    assert forall l :: 0 <= l < |s.launches| ==>
                         t.launches[l].args == s.launches[l].args && (t.launches[l].task.Failed? <==> s.launches[l].task.Failed?);
  }

  lemma {:induction false} RunConcat(s: State, a: seq<Event>, mid: State, b: seq<Event>, t: State)
    requires Run(s, a, mid) && Run(mid, b, t)
    ensures Run(s, a + b, t)
    decreases |a|
  {
    if a == [] {
      assert a + b == b;
    } else {
      RunConcat(Next(s, a[0]), a[1..], mid, b, t);
      assert (a + b)[1..] == a[1..] + b;
    }
  }

  /** So from every reachable state on, all that no failed submission has stranded
      can still be reclaimed, exactly once. */
  lemma AllCanBeReclaimed(s: State) returns (events: seq<Event>, t: State)
    requires Reachable(s)
    ensures Run(s, events, t) && Quiescent(t) && |t.mis| == |s.mis|
    ensures forall m :: 0 <= m < |t.mis| ==> (t.mis[m].log == Teardown(t.mis[m].owned) <==> !Stranded(s, m))
    ensures forall m :: 0 <= m < |t.mis| && !Stranded(s, m) ==> Complete(t.mis[m].log, t.mis[m].owned)
  {
    ReachableInv(s);
    events, t := CanComeToRest(s);
    var before :| Run(EMPTY, before, s);
    RunConcat(EMPTY, before, s, events, t);
    hide Teardown, Complete;
    forall m | 0 <= m < |t.mis|
      ensures t.mis[m].log == Teardown(t.mis[m].owned) <==> !Stranded(s, m)
      ensures !Stranded(s, m) ==> Complete(t.mis[m].log, t.mis[m].owned)
    {
      ReclaimedExactlyOnce(t, m);
    }
  }
}
