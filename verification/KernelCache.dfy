/** The cache of built kernels, and the references to contexts, devices and
    kernels that launches and the cache own.  A launch cannot tell the cache from
    building afresh exactly if equal keys always build the same kernel; and after
    any launches the live references are those of the cached entries, whether
    builds succeeded or failed. */
module KernelCache {
  import opened Options

  type Context = nat
  type Device = nat
  type Kernel = nat

  datatype Request = Request(ctx: Context, dev: Device, il: string, options: string, name: string)

  /** What a build produces, nothing if it fails, and the hash of a bitcode. */
  datatype Toolchain = Toolchain(build: Request -> Option<Kernel>, hash: string -> int)

  datatype Key = Key(ctx: Context, dev: Device, ilHash: int)

  function KeyOf(t: Toolchain, r: Request): Key {
    Key(r.ctx, r.dev, t.hash(r.il))
  }

  /** Two requests have one key exactly if context, device and bitcode hash agree. */
  lemma KeyMeans(t: Toolchain, r: Request, s: Request)
    ensures KeyOf(t, r) == KeyOf(t, s) <==> r.ctx == s.ctx && r.dev == s.dev && t.hash(r.il) == t.hash(s.il)
  {}

  // ----- the cache as a list of keys with their kernels -----

  datatype Cached = Cached(key: Key, kernel: Option<Kernel>)

  /** The position of a key, or the length of the list. */
  function Find(view: seq<Cached>, key: Key): (i: nat)
    ensures i <= |view| && (i < |view| ==> view[i].key == key)
    ensures forall j :: 0 <= j < i ==> view[j].key != key
  {
    if view == [] || view[0].key == key then 0 else 1 + Find(view[1..], key)
  }

  function Store(t: Toolchain, view: seq<Cached>, r: Request): seq<Cached> {
    var key := KeyOf(t, r);
    if Find(view, key) < |view| then view else view + [Cached(key, t.build(r))]
  }

  function StoreAll(t: Toolchain, reqs: seq<Request>): seq<Cached> {
    if reqs == [] then [] else Store(t, StoreAll(t, reqs[..|reqs| - 1]), reqs[|reqs| - 1])
  }

  /** The kernel that the last of a sequence of launches gets. */
  function Obtained(t: Toolchain, reqs: seq<Request>): Option<Kernel>
    requires reqs != []
  {
    var view := StoreAll(t, reqs);
    FindLast(t, reqs);
    view[Find(view, KeyOf(t, reqs[|reqs| - 1]))].kernel
  }

  lemma FindLast(t: Toolchain, reqs: seq<Request>)
    requires reqs != []
    ensures var view := StoreAll(t, reqs);
            Find(view, KeyOf(t, reqs[|reqs| - 1])) < |view|
  {
    var r := reqs[|reqs| - 1];
    var view := StoreAll(t, reqs);
    var before := StoreAll(t, reqs[..|reqs| - 1]);
    if Find(before, KeyOf(t, r)) == |before| {
      assert view[|before|].key == KeyOf(t, r);
    }
  }

  /** The first request with the key of request `i`. */
  function First(t: Toolchain, reqs: seq<Request>, i: nat): (j: nat)
    requires i < |reqs|
    ensures j <= i && KeyOf(t, reqs[j]) == KeyOf(t, reqs[i])
    ensures forall k :: 0 <= k < j ==> KeyOf(t, reqs[k]) != KeyOf(t, reqs[i])
  {
    FirstFrom(t, reqs, i, 0)
  }

  function FirstFrom(t: Toolchain, reqs: seq<Request>, i: nat, from: nat): (j: nat)
    requires from <= i < |reqs|
    requires forall k :: 0 <= k < from ==> KeyOf(t, reqs[k]) != KeyOf(t, reqs[i])
    ensures j <= i && KeyOf(t, reqs[j]) == KeyOf(t, reqs[i])
    ensures forall k :: 0 <= k < j ==> KeyOf(t, reqs[k]) != KeyOf(t, reqs[i])
    decreases i - from
  {
    if KeyOf(t, reqs[from]) == KeyOf(t, reqs[i]) then from else FirstFrom(t, reqs, i, from + 1)
  }

  predicate Distinct(view: seq<Cached>) {
    forall i, j :: 0 <= i < j < |view| ==> view[i].key != view[j].key
  }

  lemma FirstUnique(t: Toolchain, reqs: seq<Request>, i: nat, j: nat)
    requires j <= i < |reqs| && KeyOf(t, reqs[j]) == KeyOf(t, reqs[i])
    requires forall k :: 0 <= k < j ==> KeyOf(t, reqs[k]) != KeyOf(t, reqs[i])
    ensures First(t, reqs, i) == j
  {
    hide First, KeyOf;
    var f := First(t, reqs, i);
  }

  /** No key is cached twice, and only requested keys are. */
  lemma {:induction false} KeysAreInequivalent(t: Toolchain, reqs: seq<Request>)
    ensures Distinct(StoreAll(t, reqs))
    ensures forall c :: c in StoreAll(t, reqs) ==> exists i :: 0 <= i < |reqs| && KeyOf(t, reqs[i]) == c.key
  {
    hide KeyOf, Find;
    if reqs != [] {
      var n := |reqs| - 1;
      KeysAreInequivalent(t, reqs[..n]);
      var view := StoreAll(t, reqs[..n]);
      forall c | c in StoreAll(t, reqs) ensures exists i :: 0 <= i < |reqs| && KeyOf(t, reqs[i]) == c.key {
        if c in view {
          var i :| 0 <= i < n && KeyOf(t, reqs[..n][i]) == c.key;
          assert reqs[i] == reqs[..n][i];
        } else {
          assert c.key == KeyOf(t, reqs[n]);
        }
      }
    }
  }

  /** The cache holds, for each key that was requested, the kernel of the first
      request with that key. */
  lemma {:induction false} CacheHoldsFirstBuild(t: Toolchain, reqs: seq<Request>, i: nat)
    requires i < |reqs|
    ensures Cached(KeyOf(t, reqs[i]), t.build(reqs[First(t, reqs, i)])) in StoreAll(t, reqs)
    decreases |reqs|, i
  {
    hide KeyOf, Find, First;
    var n, f := |reqs| - 1, First(t, reqs, i);
    var before := reqs[..n];
    if i < n {
      CacheHoldsFirstBuild(t, before, i);
      FirstUnique(t, before, i, f);
    } else if f < n {
      FirstUnique(t, reqs, f, f);
      CacheHoldsFirstBuild(t, reqs, f);
    } else {
      KeysAreInequivalent(t, before);
      forall c | c in StoreAll(t, before) ensures c.key != KeyOf(t, reqs[n]) {
        var j :| 0 <= j < n && KeyOf(t, before[j]) == c.key;
      }
    }
  }

  lemma ObtainedIsFirstBuild(t: Toolchain, reqs: seq<Request>)
    requires reqs != []
    ensures Obtained(t, reqs) == t.build(reqs[First(t, reqs, |reqs| - 1)])
  {
    hide KeyOf, First, StoreAll;
    var view, n := StoreAll(t, reqs), |reqs| - 1;
    CacheHoldsFirstBuild(t, reqs, n);
    KeysAreInequivalent(t, reqs);
    FindLast(t, reqs);
    var c := Cached(KeyOf(t, reqs[n]), t.build(reqs[First(t, reqs, n)]));
    var k :| 0 <= k < |view| && view[k] == c;
    var m := Find(view, c.key);
    assert view[m].key == view[k].key;
  }

  /** Whether the cache hands out what a fresh build would give, in every
      sequence of launches: exactly if context, device and bitcode hash
      determine the build. */
  lemma CachingIsTransparent(t: Toolchain)
    ensures (forall reqs: seq<Request> :: reqs != [] ==> Obtained(t, reqs) == t.build(reqs[|reqs| - 1]))
            <==> (forall r: Request, s: Request ::
                    r.ctx == s.ctx && r.dev == s.dev && t.hash(r.il) == t.hash(s.il) ==> t.build(r) == t.build(s))
  {
    hide Obtained, First, KeyOf;
    if forall r: Request, s: Request ::
        r.ctx == s.ctx && r.dev == s.dev && t.hash(r.il) == t.hash(s.il) ==> t.build(r) == t.build(s) {
      forall reqs: seq<Request> | reqs != [] ensures Obtained(t, reqs) == t.build(reqs[|reqs| - 1]) {
        ObtainedIsFirstBuild(t, reqs);
        KeyMeans(t, reqs[First(t, reqs, |reqs| - 1)], reqs[|reqs| - 1]);
      }
    }
    if forall reqs: seq<Request> :: reqs != [] ==> Obtained(t, reqs) == t.build(reqs[|reqs| - 1]) {
      forall r: Request, s: Request | r.ctx == s.ctx && r.dev == s.dev && t.hash(r.il) == t.hash(s.il)
        ensures t.build(r) == t.build(s)
      {
        KeyMeans(t, r, s);
        SecondGetsFirstBuild(t, r, s);
        var reqs := [r, s];
        assert Obtained(t, reqs) == t.build(reqs[|reqs| - 1]);
      }
    }
  }

  /** Of two launches the second gets the kernel of the first, or its own. */
  lemma SecondGetsFirstBuild(t: Toolchain, r: Request, s: Request)
    ensures Obtained(t, [r, s]) ==
            if r.ctx == s.ctx && r.dev == s.dev && t.hash(r.il) == t.hash(s.il) then t.build(r) else t.build(s)
  {
    hide StoreAll, First, KeyOf, Obtained;
    ObtainedIsFirstBuild(t, [r, s]);
    KeyMeans(t, r, s);
    FirstUnique(t, [r, s], 1, if KeyOf(t, r) == KeyOf(t, s) then 0 else 1);
  }

  /** The compile options and the kernel name are not part of the key: a launch
      that differs only in them gets the kernel built before. */
  lemma OptionsAreNotInTheKey(t: Toolchain, r: Request, options: string, name: string)
    ensures Obtained(t, [r, r.(options := options, name := name)]) == t.build(r)
  {
    hide Obtained;
    SecondGetsFirstBuild(t, r, r.(options := options, name := name));
  }

  // ----- the cache with its references -----

  /** A counted reference: its own identity and what it refers to. */
  datatype Ref = Ref(id: nat, target: nat)

  datatype Entry = Entry(ctx: Ref, dev: Ref, ilHash: int, kernel: Option<Ref>)

  function CachedOf(e: Entry): Cached {
    Cached(Key(e.ctx.target, e.dev.target, e.ilHash), if e.kernel.Some? then Some(e.kernel.value.target) else None)
  }

  function ViewOf(entries: seq<Entry>): (view: seq<Cached>)
    ensures |view| == |entries|
  {
    seq(|entries|, i requires 0 <= i < |entries| => CachedOf(entries[i]))
  }

  datatype Refs = Refs(contexts: set<Ref>, devices: set<Ref>, kernels: set<Ref>)

  function NoRefs(): Refs { Refs({}, {}, {}) }

  function Singleton(ref: Option<Ref>): set<Ref> {
    if ref.Some? then {ref.value} else {}
  }

  /** The references that the entries of the cache own. */
  function RefsOf(entries: seq<Entry>): Refs {
    if entries == [] then NoRefs()
    else
      var rest, e := RefsOf(entries[..|entries| - 1]), entries[|entries| - 1];
      Refs(rest.contexts + {e.ctx}, rest.devices + {e.dev}, rest.kernels + Singleton(e.kernel))
  }

  /** The live references of one kind: `count` in the cache, the others with a
      launch; identities from `next` on are unused. */
  ghost predicate Holds(live: set<Ref>, cached: set<Ref>, launch: set<Ref>, count: nat, next: nat) {
    live == cached + launch && cached !! launch && |cached| == count && forall r :: r in live ==> r.id < next
  }

  lemma HoldsNew(live: set<Ref>, cached: set<Ref>, count: nat, next: nat, r: Ref, next': nat)
    requires Holds(live, cached, {}, count, next) && next <= r.id < next'
    ensures Holds(live + {r}, cached, {r}, count, next')
  {}

  lemma HoldsLess(live: set<Ref>, cached: set<Ref>, count: nat, next: nat, r: Ref)
    requires Holds(live, cached, {r}, count, next)
    ensures Holds(live - {r}, cached, {}, count, next)
  {
    assert cached + {r} - {r} == cached;
  }

  lemma HoldsKept(live: set<Ref>, cached: set<Ref>, count: nat, next: nat, r: Ref)
    requires Holds(live, cached, {r}, count, next)
    ensures Holds(live, cached + {r}, {}, count + 1, next)
  {
    assert cached + {r} + {} == cached + {r};
  }

  lemma HoldsLater(live: set<Ref>, cached: set<Ref>, launch: set<Ref>, count: nat, next: nat, next': nat)
    requires Holds(live, cached, launch, count, next) && next <= next'
    ensures Holds(live, cached, launch, count, next')
  {}

  function Built(entries: seq<Entry>): nat {
    if entries == [] then 0
    else Built(entries[..|entries| - 1]) + if entries[|entries| - 1].kernel.Some? then 1 else 0
  }

  lemma RefsOfNext(entries: seq<Entry>, e: Entry)
    ensures var refs := RefsOf(entries);
            RefsOf(entries + [e]) ==
            Refs(refs.contexts + {e.ctx}, refs.devices + {e.dev}, refs.kernels + Singleton(e.kernel))
    ensures Built(entries + [e]) == Built(entries) + if e.kernel.Some? then 1 else 0
  {
    assert (entries + [e])[..|entries|] == entries;
  }

  lemma ViewNext(entries: seq<Entry>, e: Entry)
    ensures ViewOf(entries + [e]) == ViewOf(entries) + [CachedOf(e)]
  {}

  class Runtime {
    const t: Toolchain
    /** The live references. */
    var contexts: set<Ref>
    var devices: set<Ref>
    var kernels: set<Ref>
    var entries: seq<Entry>
    var next: nat

    /** The live references are those of the cache and the given ones of a launch,
        and no two owners share one. */
    ghost predicate Owned(launch: Refs) reads this {
      var cache := RefsOf(entries);
      Holds(contexts, cache.contexts, launch.contexts, |entries|, next)
      && Holds(devices, cache.devices, launch.devices, |entries|, next)
      && Holds(kernels, cache.kernels, launch.kernels, Built(entries), next)
    }

    constructor (t: Toolchain)
      ensures Owned(NoRefs()) && this.t == t && entries == []
    {
      this.t := t;
      contexts, devices, kernels, entries, next := {}, {}, {}, [], 0;
    }

    /** New references to the context and the device of a queue. */
    method QueueRefs(ctx: Context, dev: Device) returns (ctxRef: Ref, devRef: Ref)
      requires Owned(NoRefs())
      modifies this`contexts, this`devices, this`next
      ensures Owned(Refs({ctxRef}, {devRef}, {})) && ctxRef.target == ctx && devRef.target == dev
    {
      hide RefsOf, Holds;
      ctxRef, devRef := Ref(next, ctx), Ref(next + 1, dev);
      ghost var cache := RefsOf(entries);
      HoldsNew(contexts, cache.contexts, |entries|, next, ctxRef, next + 2);
      HoldsNew(devices, cache.devices, |entries|, next, devRef, next + 2);
      HoldsLater(kernels, cache.kernels, {}, Built(entries), next, next + 2);
      contexts, devices, next := contexts + {ctxRef}, devices + {devRef}, next + 2;
    }

    /** The position of an entry whose context, device and hash are those given. */
    method FindEntry(key: Key) returns (i: nat)
      ensures i == Find(ViewOf(entries), key)
    {
      i := 0;
      ghost var view := ViewOf(entries);
      while i < |entries|
        invariant i <= |entries|
        invariant Find(view, key) == i + Find(view[i..], key)
      {
        assert view[i..][1..] == view[i + 1..];
        var e := entries[i];
        if e.dev.target == key.dev && e.ctx.target == key.ctx && e.ilHash == key.ilHash { return i; }
        i := i + 1;
      }
    }

    method CopyKernel(kernel: Option<Ref>) returns (copy: Option<Ref>)
      requires Owned(NoRefs())
      modifies this`kernels, this`next
      ensures Owned(Refs({}, {}, Singleton(copy)))
      ensures copy.Some? <==> kernel.Some?
      ensures copy.Some? ==> copy.value.target == kernel.value.target
    {
      hide RefsOf, Holds;
      if kernel == None { return None; }
      copy := Some(Ref(next, kernel.value.target));
      ghost var cache := RefsOf(entries);
      HoldsNew(kernels, cache.kernels, Built(entries), next, copy.value, next + 1);
      HoldsLater(contexts, cache.contexts, {}, |entries|, next, next + 1);
      HoldsLater(devices, cache.devices, {}, |entries|, next, next + 1);
      kernels, next := kernels + {copy.value}, next + 1;
    }

    /** On a hit the references are deleted, else a new entry keeps them. */
    method GetElseCompute(ctxRef: Ref, devRef: Ref, r: Request) returns (i: nat)
      requires Owned(Refs({ctxRef}, {devRef}, {})) && ctxRef.target == r.ctx && devRef.target == r.dev
      modifies this
      ensures Owned(NoRefs()) && ViewOf(entries) == Store(t, old(ViewOf(entries)), r)
      ensures i < |entries| && i == Find(ViewOf(entries), KeyOf(t, r))
    {
      hide RefsOf, Find, Holds;
      ghost var cache := RefsOf(entries);
      i := FindEntry(KeyOf(t, r));
      if i < |entries| {
        HoldsLess(contexts, cache.contexts, |entries|, next, ctxRef);
        HoldsLess(devices, cache.devices, |entries|, next, devRef);
        devices := devices - {devRef};
        contexts := contexts - {ctxRef};
      } else {
        NewEntry(ctxRef, devRef, r);
      }
    }

    /** Builds the kernel for a new entry; a failed build leaves no reference. */
    method Build(r: Request) returns (kernel: Option<Ref>)
      requires Holds(kernels, RefsOf(entries).kernels, {}, Built(entries), next)
      modifies this`kernels, this`next
      ensures next >= old(next) && (if kernel.Some? then Some(kernel.value.target) else None) == t.build(r)
      ensures Holds(kernels, RefsOf(entries).kernels + Singleton(kernel), {},
                    Built(entries) + if kernel.Some? then 1 else 0, next)
    {
      hide RefsOf, Holds, Built;
      ghost var cached := RefsOf(entries).kernels;
      kernel := None;
      var built := t.build(r);
      if built.Some? {
        var ref := Ref(next, built.value);
        HoldsNew(kernels, cached, Built(entries), next, ref, next + 1);
        HoldsKept(kernels + {ref}, cached, Built(entries), next + 1, ref);
        kernels, next, kernel := kernels + {ref}, next + 1, Some(ref);
      }
      assert kernel == None ==> cached + Singleton(kernel) == cached;
    }

    method NewEntry(ctxRef: Ref, devRef: Ref, r: Request)
      requires Owned(Refs({ctxRef}, {devRef}, {})) && ctxRef.target == r.ctx && devRef.target == r.dev
      requires Find(ViewOf(entries), KeyOf(t, r)) == |entries|
      modifies this
      ensures Owned(NoRefs()) && ViewOf(entries) == old(ViewOf(entries)) + [Cached(KeyOf(t, r), t.build(r))]
      ensures |entries| == old(|entries|) + 1 && Find(ViewOf(entries), KeyOf(t, r)) == old(|entries|)
    {
      hide RefsOf, Find, Holds, Built, ViewOf;
      ghost var cache, n, unused := RefsOf(entries), |entries|, next;
      HoldsKept(contexts, cache.contexts, n, next, ctxRef);
      HoldsKept(devices, cache.devices, n, next, devRef);
      var kernel := Build(r);
      HoldsLater(contexts, cache.contexts + {ctxRef}, {}, n + 1, unused, next);
      HoldsLater(devices, cache.devices + {devRef}, {}, n + 1, unused, next);
      var e := Entry(ctxRef, devRef, t.hash(r.il), kernel);
      RefsOfNext(entries, e);
      FindNew(ViewOf(entries), KeyOf(t, r), t.build(r));
      ViewNext(entries, e);
      entries := entries + [e];
    }

    method BuildOrGetKernel(ctxRef: Ref, devRef: Ref, r: Request) returns (kernel: Option<Ref>)
      requires Owned(Refs({ctxRef}, {devRef}, {})) && ctxRef.target == r.ctx && devRef.target == r.dev
      modifies this
      ensures Owned(Refs({}, {}, Singleton(kernel)))
      ensures ViewOf(entries) == Store(t, old(ViewOf(entries)), r) && Find(ViewOf(entries), KeyOf(t, r)) < |entries|
      ensures ViewOf(entries)[Find(ViewOf(entries), KeyOf(t, r))].kernel ==
              if kernel.Some? then Some(kernel.value.target) else None
    {
      hide Owned, Find;
      var i := GetElseCompute(ctxRef, devRef, r);
      kernel := CopyKernel(entries[i].kernel);
    }

    method DeleteKernel(kernel: Ref)
      requires Owned(Refs({}, {}, {kernel}))
      modifies this`kernels
      ensures Owned(NoRefs())
    {
      hide RefsOf, Holds;
      HoldsLess(kernels, RefsOf(entries).kernels, Built(entries), next, kernel);
      kernels := kernels - {kernel};
    }

    /** One launch: the kernel that it submits, before its references are deleted. */
    method Launch(r: Request) returns (used: Option<Kernel>)
      requires Owned(NoRefs())
      modifies this
      ensures Owned(NoRefs())
      ensures ViewOf(entries) == Store(t, old(ViewOf(entries)), r) && Find(ViewOf(entries), KeyOf(t, r)) < |entries|
      ensures used == ViewOf(entries)[Find(ViewOf(entries), KeyOf(t, r))].kernel
    {
      hide Owned, Find, Store;
      var ctxRef, devRef := QueueRefs(r.ctx, r.dev);
      var kernel := BuildOrGetKernel(ctxRef, devRef, r);
      used := None;
      if kernel.Some? {
        used := Some(kernel.value.target);
        DeleteKernel(kernel.value);
      }
    }
  }

  lemma {:induction false} FindNew(view: seq<Cached>, key: Key, kernel: Option<Kernel>)
    requires Find(view, key) == |view|
    ensures Find(view + [Cached(key, kernel)], key) == |view|
  {
    if view != [] {
      FindNew(view[1..], key, kernel);
      assert (view + [Cached(key, kernel)])[1..] == view[1..] + [Cached(key, kernel)];
    }
  }

  /** Every launch of a sequence gets the kernel the cache specification says.
      Afterwards one reference to a context, to a device and, unless its build
      failed, to a kernel lives per entry of the cache, and no other. */
  method LaunchAll(t: Toolchain, reqs: seq<Request>) returns (rt: Runtime, used: seq<Option<Kernel>>)
    ensures ViewOf(rt.entries) == StoreAll(t, reqs)
    ensures |used| == |reqs| && forall i :: 0 <= i < |reqs| ==> used[i] == Obtained(t, reqs[..i + 1])
    ensures rt.Owned(NoRefs())
    ensures |rt.contexts| == |rt.devices| == |rt.entries| && |rt.kernels| == Built(rt.entries)
  {
    hide Find, Store, StoreAll, Obtained, Runtime.Owned, ViewOf, KeyOf;
    rt := new Runtime(t);
    used := [];
    StoreNone(t, reqs);
    for n := 0 to |reqs|
      invariant fresh(rt) && rt.Owned(NoRefs()) && rt.t == t
      invariant ViewOf(rt.entries) == StoreAll(t, reqs[..n])
      invariant |used| == n && forall i :: 0 <= i < n ==> used[i] == Obtained(t, reqs[..i + 1])
    {
      ObtainedNext(t, reqs, n);
      var kernel := rt.Launch(reqs[n]);
      used := used + [kernel];
    }
    assert reqs[..|reqs|] == reqs;
    OwnedCounts(rt);
  }

  lemma StoreNone(t: Toolchain, reqs: seq<Request>)
    ensures StoreAll(t, reqs[..0]) == []
  {}

  lemma ObtainedNext(t: Toolchain, reqs: seq<Request>, n: nat)
    requires n < |reqs|
    ensures var view := Store(t, StoreAll(t, reqs[..n]), reqs[n]);
            view == StoreAll(t, reqs[..n + 1]) && Find(view, KeyOf(t, reqs[n])) < |view|
            && Obtained(t, reqs[..n + 1]) == view[Find(view, KeyOf(t, reqs[n]))].kernel
  {
    hide Find, KeyOf;
    assert reqs[..n + 1][..n] == reqs[..n];
    FindLast(t, reqs[..n + 1]);
  }

  lemma OwnedCounts(rt: Runtime)
    requires rt.Owned(NoRefs())
    ensures |rt.contexts| == |rt.devices| == |rt.entries| && |rt.kernels| == Built(rt.entries)
  {
    var cache := RefsOf(rt.entries);
    assert rt.contexts == cache.contexts && rt.devices == cache.devices && rt.kernels == cache.kernels;
  }
}
