/** The index spaces of `numba_dpex.kernel_api`: ranges, nd-ranges, the ids of
    work-items, and the launchers that run a kernel over every item in Python. */
module IndexSpace {
  import opened Radix

  // ----- ranges -----

  /** The extents that `Range` keeps: a zero in second or third place ends the
      range, whatever follows it. */
  function KeptDims(dims: seq<int>): (n: nat)
    requires 1 <= |dims| <= 3
    ensures 1 <= n <= |dims|
    ensures forall k :: 1 <= k < n ==> dims[k] != 0
    ensures n < |dims| ==> dims[n] == 0
  {
    if |dims| == 1 || dims[1] == 0 then 1
    else if |dims| == 2 || dims[2] == 0 then 2
    else 3
  }

  method NewRange(dims: seq<int>) returns (values: seq<int>)
    requires 1 <= |dims| <= 3
    ensures values == dims[..KeptDims(dims)]
  {
    values := [dims[0]];
    if |dims| > 1 && dims[1] != 0 {
      values := values + [dims[1]];
      if |dims| > 2 && dims[2] != 0 {
        values := values + [dims[2]];
      }
    }
  }

  datatype NdRangeResult =
    | NdRange(global: seq<int>, local: seq<int>)
    | UnmatchedDims(globalDims: nat, localDims: nat)
    | UnsupportedGroupSize(dim: nat)
    | DivisionByZero(dim: nat)

  predicate Divides(global: seq<int>, local: seq<int>, k: nat)
    requires k < |global| == |local|
  {
    local[k] != 0 && global[k] % local[k] == 0
  }

  /** `NdRange.__init__`: the first dimension at fault decides the error. */
  method NewNdRange(globalSize: seq<int>, localSize: seq<int>) returns (r: NdRangeResult)
    requires 1 <= |globalSize| <= 3 && 1 <= |localSize| <= 3
    ensures var g, l := globalSize[..KeptDims(globalSize)], localSize[..KeptDims(localSize)];
            match r
            case NdRange(global, local) =>
              global == g && local == l && |g| == |l| && forall k :: 0 <= k < |g| ==> Divides(g, l, k)
            case UnmatchedDims(m, n) => m == |g| && n == |l| && m != n
            case UnsupportedGroupSize(dim) =>
              |g| == |l| && dim < |g| && l[dim] != 0 && g[dim] % l[dim] != 0 && forall k :: 0 <= k < dim ==> Divides(g, l, k)
            case DivisionByZero(dim) =>
              |g| == |l| && dim < |g| && l[dim] == 0 && forall k :: 0 <= k < dim ==> Divides(g, l, k)
  {
    var global := NewRange(globalSize);
    var local := NewRange(localSize);
    if |local| != |global| { return UnmatchedDims(|global|, |local|); }
    for i := 0 to |global|
      invariant forall k :: 0 <= k < i ==> Divides(global, local, k)
    {
      if local[i] == 0 { return DivisionByZero(i); }
      if global[i] % local[i] != 0 { return UnsupportedGroupSize(i); }
    }
    return NdRange(global, local);
  }

  // ----- ids -----

  predicate Dims(extent: seq<nat>) {
    1 <= |extent| <= 3
  }

  datatype Item = Item(extent: seq<nat>, index: seq<nat>) {
    predicate Valid() { Dims(extent) && |index| == |extent| }

    function LinearId(): nat
      requires Valid()
    {
      if |extent| == 1 then index[0]
      else if |extent| == 2 then index[0] * extent[1] + index[1]
      else index[0] * extent[1] * extent[2] + index[1] * extent[2] + index[2]
    }
  }

  /** The linear id is the row-major position, as section 3.11.1 of SYCL 2020 asks. */
  lemma LinearIdIsRowMajor(item: Item)
    requires item.Valid()
    ensures item.LinearId() == RowMajor(item.index, item.extent)
  {
    var idx, extent := item.index, item.extent;
    hide RowMajor, Product;
    if |extent| == 1 {
      LastDigit(idx, extent);
    } else if |extent| == 2 {
      SecondLastDigit(idx, extent);
    } else {
      ThreeDigits(idx, extent);
    }
  }

  lemma ThreeDigits(idx: seq<nat>, extent: seq<nat>)
    requires |idx| == |extent| == 3
    ensures RowMajor(idx, extent) == idx[0] * extent[1] * extent[2] + idx[1] * extent[2] + idx[2]
  {
    hide Product;
    SecondLastDigit(idx, extent);
    Regroup(idx[0], extent[1], extent[2]);
  }

  lemma Regroup(i: nat, a: nat, b: nat)
    ensures i * a * b == i * (a * b)
  {}

  lemma LastDigit(idx: seq<nat>, extent: seq<nat>)
    requires |idx| == |extent| > 0
    ensures var k := |idx| - 1; RowMajor(idx[k..], extent[k..]) == idx[k] && Product(extent[k..]) == extent[k]
    ensures |idx| == 1 ==> RowMajor(idx, extent) == idx[0]
  {
    var k := |idx| - 1;
    assert extent[k..][1..] == [] && idx[k..][1..] == [];
    assert Product([]) == 1 && RowMajor([], []) == 0;
    assert |idx| == 1 ==> idx[k..] == idx && extent[k..] == extent;
  }

  lemma SecondLastDigit(idx: seq<nat>, extent: seq<nat>)
    requires |idx| == |extent| > 1
    ensures var k := |idx| - 2;
            RowMajor(idx[k..], extent[k..]) == idx[k] * extent[k + 1] + idx[k + 1]
            && Product(extent[k..]) == extent[k] * extent[k + 1]
    ensures |idx| == 2 ==> RowMajor(idx, extent) == idx[0] * extent[1] + idx[1]
  {
    var k := |idx| - 2;
    LastDigit(idx, extent);
    assert extent[k..][1..] == extent[k + 1..] && idx[k..][1..] == idx[k + 1..];
    assert |idx| == 2 ==> idx[k..] == idx && extent[k..] == extent;
  }

  method LinearRange(extent: seq<nat>) returns (n: nat)
    ensures n == Product(extent)
  {
    n := 1;
    for i := 0 to |extent|
      invariant n == Product(extent[..i])
    {
      assert extent[..i + 1] == extent[..i] + [extent[i]];
      ProductConcat(extent[..i], [extent[i]]);
      assert Product([extent[i]]) == extent[i] * Product([extent[i]][1..]);
      n := n * extent[i];
    }
    assert extent[..|extent|] == extent;
  }

  class Group {
    const globalRange: seq<nat>
    const localRange: seq<nat>
    const groupRange: seq<nat>
    const index: seq<nat>
    var leader: bool

    constructor (globalRange: seq<nat>, localRange: seq<nat>, groupRange: seq<nat>, index: seq<nat>)
      ensures this.globalRange == globalRange && this.localRange == localRange
      ensures this.groupRange == groupRange && this.index == index && !leader
    {
      this.globalRange, this.localRange := globalRange, localRange;
      this.groupRange, this.index := groupRange, index;
      leader := false;
    }
  }

  class NdItem {
    const globalItem: Item
    const localItem: Item
    const group: Group

    constructor (globalItem: Item, localItem: Item, group: Group)
      requires globalItem.Valid() && localItem.Valid()
      modifies group
      ensures this.globalItem == globalItem && this.localItem == localItem && this.group == group
      ensures group.leader <==> old(group.leader) || localItem.LinearId() == 0
    {
      this.globalItem, this.localItem, this.group := globalItem, localItem, group;
      new;
      if localItem.LinearId() == 0 { group.leader := true; }
    }
  }

  // ----- all index tuples, as `itertools.product` lists them -----

  function Prefixed(i: nat, tuples: seq<seq<nat>>): seq<seq<nat>> {
    seq(|tuples|, k requires 0 <= k < |tuples| => [i] + tuples[k])
  }

  function Layers(n: nat, tuples: seq<seq<nat>>): seq<seq<nat>> {
    if n == 0 then [] else Layers(n - 1, tuples) + Prefixed(n - 1, tuples)
  }

  function Tuples(extents: seq<nat>): seq<seq<nat>> {
    if extents == [] then [[]] else Layers(extents[0], Tuples(extents[1..]))
  }

  lemma {:induction false} LayersAt(n: nat, tuples: seq<seq<nat>>, k: nat)
    requires k < n * |tuples|
    ensures |Layers(n, tuples)| == n * |tuples|
    ensures |tuples| > 0 && Layers(n, tuples)[k] == [k / |tuples|] + tuples[k % |tuples|]
  {
    var p := |tuples|;
    assert p > 0;
    LayersLength(n - 1, tuples);
    LayersLength(n, tuples);
    assert n * p == (n - 1) * p + p;
    if k < (n - 1) * p {
      LayersAt(n - 1, tuples, k);
    } else {
      DivModUnique(n - 1, k - (n - 1) * p, p);
    }
  }

  lemma {:induction false} LayersLength(n: nat, tuples: seq<seq<nat>>)
    ensures |Layers(n, tuples)| == n * |tuples|
  {
    if n > 0 {
      LayersLength(n - 1, tuples);
      assert n * |tuples| == (n - 1) * |tuples| + |tuples|;
    }
  }

  /** Every tuple appears once, at its row-major position. */
  lemma {:induction false} TuplesAreRanked(extents: seq<nat>)
    ensures |Tuples(extents)| == Product(extents)
    ensures forall n :: 0 <= n < Product(extents) ==> Tuples(extents)[n] == Unrank(n, extents)
  {
    if extents != [] {
      var tuples := Tuples(extents[1..]);
      TuplesAreRanked(extents[1..]);
      LayersLength(extents[0], tuples);
      forall n | 0 <= n < Product(extents)
        ensures Tuples(extents)[n] == Unrank(n, extents)
      {
        LayersAt(extents[0], tuples, n);
      }
    }
  }

  // ----- group and local ids -----

  /** `gidx * local_range + lidx`, dimension by dimension. */
  function Join(group: seq<nat>, local: seq<nat>, localRange: seq<nat>): seq<nat>
    requires |group| == |local| == |localRange|
  {
    seq(|group|, k requires 0 <= k < |group| => group[k] * localRange[k] + local[k])
  }

  predicate Tiles(groupRange: seq<nat>, localRange: seq<nat>, globalRange: seq<nat>) {
    |groupRange| == |localRange| == |globalRange|
    && forall k :: 0 <= k < |globalRange| ==> localRange[k] > 0 && globalRange[k] == groupRange[k] * localRange[k]
  }

  lemma {:induction false} TiledSize(groupRange: seq<nat>, localRange: seq<nat>, globalRange: seq<nat>)
    requires Tiles(groupRange, localRange, globalRange)
    ensures Product(globalRange) == Product(groupRange) * Product(localRange)
    ensures Product(localRange) > 0
  {
    if globalRange != [] {
      TiledSize(groupRange[1..], localRange[1..], globalRange[1..]);
      var a, b, p, q := groupRange[0], localRange[0], Product(groupRange[1..]), Product(localRange[1..]);
      Rearrange(a, b, p, q);
      ProductMonotone(b, 1, q);
    }
  }

  lemma Rearrange(a: nat, b: nat, p: nat, q: nat)
    ensures (a * b) * (p * q) == (a * p) * (b * q)
  {
    assert (a * b) * (p * q) == a * (b * (p * q));
    assert b * (p * q) == p * (b * q);
    assert a * (p * (b * q)) == (a * p) * (b * q);
  }

  lemma JoinInShape(group: seq<nat>, local: seq<nat>, groupRange: seq<nat>, localRange: seq<nat>, globalRange: seq<nat>)
    requires Tiles(groupRange, localRange, globalRange)
    requires InShape(group, groupRange) && InShape(local, localRange)
    ensures InShape(Join(group, local, localRange), globalRange)
    ensures forall k :: 0 <= k < |group| ==> Join(group, local, localRange)[k] == group[k] * localRange[k] + local[k]
  {
    forall k | 0 <= k < |group|
      ensures group[k] * localRange[k] + local[k] < globalRange[k]
    {
      CellInGrid(group[k], local[k], groupRange[k], localRange[k]);
    }
  }

  lemma JoinInjective(group: seq<nat>, local: seq<nat>, group': seq<nat>, local': seq<nat>, localRange: seq<nat>)
    requires |group| == |group'| == |localRange|
    requires InShape(local, localRange) && InShape(local', localRange)
    requires Join(group, local, localRange) == Join(group', local', localRange)
    ensures group == group' && local == local'
  {
    forall k | 0 <= k < |group|
      ensures group[k] == group'[k] && local[k] == local'[k]
    {
      var d := localRange[k];
      assert Join(group, local, localRange)[k] == Join(group', local', localRange)[k];
      DivModUnique(group[k], local[k], d);
      DivModUnique(group'[k], local'[k], d);
    }
  }

  lemma Split(idx: seq<nat>, groupRange: seq<nat>, localRange: seq<nat>, globalRange: seq<nat>)
    returns (group: seq<nat>, local: seq<nat>)
    requires Tiles(groupRange, localRange, globalRange) && InShape(idx, globalRange)
    ensures InShape(group, groupRange) && InShape(local, localRange) && Join(group, local, localRange) == idx
  {
    group := seq(|idx|, k requires 0 <= k < |idx| => idx[k] / localRange[k]);
    local := seq(|idx|, k requires 0 <= k < |idx| => idx[k] % localRange[k]);
    forall k | 0 <= k < |idx|
      ensures group[k] < groupRange[k] && group[k] * localRange[k] + local[k] == idx[k]
    {
      var _, _ := Decompose(idx[k], groupRange[k], localRange[k]);
    }
  }

  // ----- the launchers -----

  /** What the kernel is called with. */
  datatype Visit = Visit(globalId: seq<nat>, localId: seq<nat>, groupId: seq<nat>, leader: bool)

  ghost predicate EveryIndexOnce(ids: seq<seq<nat>>, shape: seq<nat>) {
    (forall n :: 0 <= n < |ids| ==> InShape(ids[n], shape))
    && (forall m, n :: 0 <= m < n < |ids| ==> ids[m] != ids[n])
    && (forall idx :: InShape(idx, shape) ==> idx in ids)
  }

  function GlobalIds(visits: seq<Visit>): seq<seq<nat>> {
    seq(|visits|, n requires 0 <= n < |visits| => visits[n].globalId)
  }

  predicate ValidNdRange(globalRange: seq<nat>, localRange: seq<nat>) {
    Dims(globalRange) && |localRange| == |globalRange|
    && forall k :: 0 <= k < |localRange| ==> localRange[k] > 0 && globalRange[k] % localRange[k] == 0
  }

  function GroupRange(globalRange: seq<nat>, localRange: seq<nat>): (groupRange: seq<nat>)
    requires ValidNdRange(globalRange, localRange)
    ensures Tiles(groupRange, localRange, globalRange)
  {
    seq(|globalRange|, k requires 0 <= k < |globalRange| => globalRange[k] / localRange[k])
  }

  /** The visit of the item at the given group and local positions. */
  function VisitAt(g: nat, l: nat, groupRange: seq<nat>, localRange: seq<nat>): Visit
    requires |groupRange| == |localRange| && Dims(localRange)
    requires g < Product(groupRange) && l < Product(localRange)
  {
    var gidx, lidx := Unrank(g, groupRange), Unrank(l, localRange);
    Visit(Join(gidx, lidx, localRange), lidx, gidx, Item(localRange, lidx).LinearId() == 0)
  }

  /** Group after group, and item after item within the group. */
  ghost predicate Ordered(visits: seq<Visit>, groupRange: seq<nat>, localRange: seq<nat>)
    requires |groupRange| == |localRange| && Dims(localRange)
  {
    var p := Product(localRange);
    p > 0 && forall n :: 0 <= n < |visits| ==>
                           n / p < Product(groupRange) && visits[n] == VisitAt(n / p, n % p, groupRange, localRange)
  }

  lemma OrderedEmpty(groupRange: seq<nat>, localRange: seq<nat>)
    requires |groupRange| == |localRange| && Dims(localRange) && Product(localRange) > 0
    ensures Ordered([], groupRange, localRange)
  {}

  lemma OrderedNext(visits: seq<Visit>, groupRange: seq<nat>, localRange: seq<nat>, i: nat, j: nat)
    requires |groupRange| == |localRange| && Dims(localRange) && Ordered(visits, groupRange, localRange)
    requires |visits| == i * Product(localRange) + j && i < Product(groupRange) && j < Product(localRange)
    ensures Ordered(visits + [VisitAt(i, j, groupRange, localRange)], groupRange, localRange)
  {
    hide Product, VisitAt;
    DivModUnique(i, j, Product(localRange));
  }

  method CallKernel(globalRange: seq<nat>, localRange: seq<nat>, groupRange: seq<nat>, gidx: seq<nat>, lidx: seq<nat>)
    returns (v: Visit)
    requires Dims(globalRange) && |gidx| == |lidx| == |localRange| == |globalRange|
    ensures v == Visit(Join(gidx, lidx, localRange), lidx, gidx, Item(localRange, lidx).LinearId() == 0)
    ensures |v.globalId| == |gidx|
    ensures forall k :: 0 <= k < |gidx| ==> v.globalId[k] == gidx[k] * localRange[k] + lidx[k]
    ensures v.leader <==> RowMajor(lidx, localRange) == 0
  {
    LinearIdIsRowMajor(Item(localRange, lidx));
    hide Item.LinearId;
    var globalId := [];
    for dim := 0 to |gidx|
      invariant |globalId| == dim
      invariant forall k :: 0 <= k < dim ==> globalId[k] == gidx[k] * localRange[k] + lidx[k]
    {
      globalId := globalId + [gidx[dim] * localRange[dim] + lidx[dim]];
    }
    var group := new Group(globalRange, localRange, groupRange, gidx);
    var item := new NdItem(Item(globalRange, globalId), Item(localRange, lidx), group);
    return Visit(item.globalItem.index, item.localItem.index, item.group.index, item.group.leader);
  }

  /** The kernel calls for extents that are not negative. */
  method LaunchGroups(globalRange: seq<nat>, localRange: seq<nat>, parameters: nat, arguments: nat)
    returns (visits: seq<Visit>, ok: bool)
    requires ValidNdRange(globalRange, localRange)
    ensures !ok <==> parameters - arguments != 1 && Product(globalRange) > 0
    ensures !ok ==> visits == []
    ensures ok ==> EveryIndexOnce(GlobalIds(visits), globalRange)
    ensures ok ==> |visits| == Product(globalRange)
    ensures ok ==> Ordered(visits, GroupRange(globalRange, localRange), localRange)
  {
    hide Product, Unrank, Ordered, Item.LinearId, EveryIndexOnce, Join;
    var groupRange := GroupRange(globalRange, localRange);
    TiledSize(groupRange, localRange, globalRange);
    TuplesAreRanked(groupRange);
    TuplesAreRanked(localRange);
    var localTuples, groupTuples := Tuples(localRange), Tuples(groupRange);
    ghost var p := Product(localRange);
    visits, ok := [], true;
    assert Ordered(visits, groupRange, localRange) by { OrderedEmpty(groupRange, localRange); }
    for i := 0 to |groupTuples|
      invariant |visits| == i * p && Ordered(visits, groupRange, localRange)
      invariant i > 0 ==> parameters - arguments == 1
    {
      for j := 0 to |localTuples|
        invariant |visits| == i * p + j && Ordered(visits, groupRange, localRange)
        invariant i > 0 || j > 0 ==> parameters - arguments == 1
      {
        if parameters - arguments != 1 {
          assert i == 0 && j == 0;
          CellInGrid(0, 0, |groupTuples|, |localTuples|);
          return visits, false;
        }
        OrderedNext(visits, groupRange, localRange, i, j);
        var v := CallKernel(globalRange, localRange, groupRange, groupTuples[i], localTuples[j]);
        visits := visits + [v];
      }
    }
    OrderedCoversOnce(visits, groupRange, localRange, globalRange);
  }

  /** `range(e)` is empty for a negative extent. */
  function Ranges(extents: seq<int>): (r: seq<nat>)
    ensures |r| == |extents|
  {
    seq(|extents|, k requires 0 <= k < |extents| => if extents[k] < 0 then 0 else extents[k])
  }

  predicate Negative(extents: seq<int>) {
    exists k :: 0 <= k < |extents| && extents[k] < 0
  }

  lemma NegativeIsEmpty(extents: seq<int>)
    ensures Negative(extents) ==> Product(Ranges(extents)) == 0
    ensures Negative(extents) || Ranges(extents) == extents
  {
    if Negative(extents) {
      var k :| 0 <= k < |extents| && extents[k] < 0;
      ZeroExtent(Ranges(extents), k);
    }
  }

  lemma {:induction false} ZeroExtent(extents: seq<nat>, k: nat)
    requires k < |extents| && extents[k] == 0
    ensures Product(extents) == 0
  {
    if k > 0 { ZeroExtent(extents[1..], k - 1); }
  }

  /** The launcher for every nd-range that can be made: with a negative extent
      there is nothing to visit. */
  method LaunchNdRange(globalRange: seq<int>, localRange: seq<int>, parameters: nat, arguments: nat)
    returns (visits: seq<Visit>, ok: bool)
    requires 1 <= |globalRange| == |localRange| <= 3
    requires forall k :: 0 <= k < |globalRange| ==> Divides(globalRange, localRange, k)
    ensures Negative(globalRange) || Negative(localRange) ==> visits == [] && ok
    ensures !Negative(globalRange) && !Negative(localRange) ==>
              var global, local: seq<nat> := Ranges(globalRange), Ranges(localRange);
              global == globalRange && local == localRange && ValidNdRange(global, local)
              && (!ok <==> parameters - arguments != 1 && Product(global) > 0)
              && (!ok ==> visits == [])
              && (ok ==> EveryIndexOnce(GlobalIds(visits), global) && |visits| == Product(global)
                         && Ordered(visits, GroupRange(global, local), local))
  {
    NegativeIsEmpty(globalRange);
    NegativeIsEmpty(localRange);
    if Negative(globalRange) || Negative(localRange) {
      var groupRange := seq(|globalRange|, k requires 0 <= k < |globalRange| && Divides(globalRange, localRange, k)
                                             => globalRange[k] / localRange[k]);
      var groupTuples, localTuples := Tuples(Ranges(groupRange)), Tuples(Ranges(localRange));
      TuplesAreRanked(Ranges(groupRange));
      TuplesAreRanked(Ranges(localRange));
      NegativeGroups(globalRange, localRange, groupRange);
      assert |groupTuples| == 0 || |localTuples| == 0;
      return [], true;
    }
    forall k | 0 <= k < |localRange| ensures localRange[k] > 0 && globalRange[k] % localRange[k] == 0 {
      assert Divides(globalRange, localRange, k);
    }
    visits, ok := LaunchGroups(Ranges(globalRange), Ranges(localRange), parameters, arguments);
  }

  lemma NegativeGroups(globalRange: seq<int>, localRange: seq<int>, groupRange: seq<int>)
    requires |globalRange| == |localRange| == |groupRange|
    requires forall k :: 0 <= k < |globalRange| ==>
                           Divides(globalRange, localRange, k) && groupRange[k] == globalRange[k] / localRange[k]
    requires Negative(globalRange) || Negative(localRange)
    ensures Product(Ranges(groupRange)) == 0 || Product(Ranges(localRange)) == 0
  {
    NegativeIsEmpty(localRange);
    if !Negative(localRange) {
      var k :| 0 <= k < |globalRange| && globalRange[k] < 0;
      assert Divides(globalRange, localRange, k);
      assert groupRange[k] < 0;
      NegativeIsEmpty(groupRange);
    }
  }

  lemma OrderedAt(visits: seq<Visit>, groupRange: seq<nat>, localRange: seq<nat>, globalRange: seq<nat>, n: nat)
    requires Tiles(groupRange, localRange, globalRange) && Dims(localRange)
    requires Ordered(visits, groupRange, localRange) && n < |visits|
    ensures var v := visits[n];
            InShape(v.groupId, groupRange) && InShape(v.localId, localRange)
            && InShape(v.globalId, globalRange) && v.globalId == Join(v.groupId, v.localId, localRange)
            && (forall k :: 0 <= k < |v.globalId| ==> v.globalId[k] == v.groupId[k] * localRange[k] + v.localId[k])
            && RowMajor(v.groupId, groupRange) == n / Product(localRange)
            && RowMajor(v.localId, localRange) == n % Product(localRange)
            && (v.leader <==> n % Product(localRange) == 0)
  {
    hide RowMajor, Product, Unrank;
    var p := Product(localRange);
    UnrankRowMajor(n / p, groupRange);
    UnrankRowMajor(n % p, localRange);
    var v := visits[n];
    JoinInShape(v.groupId, v.localId, groupRange, localRange, globalRange);
    LinearIdIsRowMajor(Item(localRange, v.localId));
  }

  lemma SameVisit(visits: seq<Visit>, groupRange: seq<nat>, localRange: seq<nat>, globalRange: seq<nat>, m: nat, n: nat)
    requires Tiles(groupRange, localRange, globalRange) && Dims(localRange)
    requires Ordered(visits, groupRange, localRange) && m < |visits| && n < |visits|
    requires visits[m].globalId == visits[n].globalId
    ensures m == n
  {
    hide RowMajor, Product;
    OrderedAt(visits, groupRange, localRange, globalRange, m);
    OrderedAt(visits, groupRange, localRange, globalRange, n);
    JoinInjective(visits[m].groupId, visits[m].localId, visits[n].groupId, visits[n].localId, localRange);
    SamePlace(m, n, Product(localRange));
  }

  lemma VisitOf(visits: seq<Visit>, groupRange: seq<nat>, localRange: seq<nat>, globalRange: seq<nat>, idx: seq<nat>)
    returns (n: nat)
    requires Tiles(groupRange, localRange, globalRange) && Dims(localRange)
    requires Ordered(visits, groupRange, localRange) && |visits| == Product(globalRange)
    requires InShape(idx, globalRange)
    ensures n < |visits| && visits[n].globalId == idx
  {
    hide RowMajor, Product;
    var group, local := Split(idx, groupRange, localRange, globalRange);
    TiledSize(groupRange, localRange, globalRange);
    RowMajorUnrank(group, groupRange);
    RowMajorUnrank(local, localRange);
    var g, l, p := RowMajor(group, groupRange), RowMajor(local, localRange), Product(localRange);
    CellInGrid(g, l, Product(groupRange), p);
    DivModUnique(g, l, p);
    n := g * p + l;
  }

  lemma OrderedCoversOnce(visits: seq<Visit>, groupRange: seq<nat>, localRange: seq<nat>, globalRange: seq<nat>)
    requires Tiles(groupRange, localRange, globalRange) && Dims(localRange)
    requires Ordered(visits, groupRange, localRange) && |visits| == Product(globalRange)
    ensures EveryIndexOnce(GlobalIds(visits), globalRange)
  {
    hide Product, Ordered;
    var ids := GlobalIds(visits);
    forall n | 0 <= n < |ids| ensures InShape(ids[n], globalRange) {
      OrderedAt(visits, groupRange, localRange, globalRange, n);
    }
    forall m, n | 0 <= m < n < |ids| ensures ids[m] != ids[n] {
      if ids[m] == ids[n] { SameVisit(visits, groupRange, localRange, globalRange, m, n); }
    }
    forall idx | InShape(idx, globalRange) ensures idx in ids {
      var n := VisitOf(visits, groupRange, localRange, globalRange, idx);
      assert ids[n] == idx;
    }
  }

  /** Every work-group has exactly one leader, its first item. */
  lemma OneLeaderPerGroup(visits: seq<Visit>, globalRange: seq<nat>, localRange: seq<nat>, gidx: seq<nat>)
    requires ValidNdRange(globalRange, localRange) && |visits| == Product(globalRange)
    requires Ordered(visits, GroupRange(globalRange, localRange), localRange)
    requires InShape(gidx, GroupRange(globalRange, localRange))
    ensures var first := RowMajor(gidx, GroupRange(globalRange, localRange)) * Product(localRange);
            first < |visits|
            && forall n :: 0 <= n < |visits| ==> (visits[n].groupId == gidx && visits[n].leader <==> n == first)
  {
    hide RowMajor, Product, Ordered;
    var groupRange, p := GroupRange(globalRange, localRange), Product(localRange);
    var g := RowMajor(gidx, groupRange);
    TiledSize(groupRange, localRange, globalRange);
    RowMajorUnrank(gidx, groupRange);
    CellInGrid(g, 0, Product(groupRange), p);
    DivModUnique(g, 0, p);
    forall n | 0 <= n < |visits|
      ensures visits[n].groupId == gidx && visits[n].leader <==> n == g * p
    {
      OrderedAt(visits, groupRange, localRange, globalRange, n);
      if visits[n].groupId == gidx && visits[n].leader { SamePlace(n, g * p, p); }
      if n == g * p { RowMajorInjective(visits[n].groupId, gidx, groupRange); }
    }
  }

  /** The linear ids of items that visit every index once are the numbers below
      the size of the range, each once. */
  lemma LinearIdsArePermutation(ids: seq<seq<nat>>, extent: seq<nat>, id: nat)
    requires Dims(extent) && EveryIndexOnce(ids, extent) && id < Product(extent)
    ensures exists n :: 0 <= n < |ids| && Item(extent, ids[n]).LinearId() == id
                        && forall m :: 0 <= m < |ids| && m != n ==> Item(extent, ids[m]).LinearId() != id
    ensures forall n :: 0 <= n < |ids| ==> Item(extent, ids[n]).LinearId() < Product(extent)
  {
    hide RowMajor, Product, Unrank, Item.LinearId;
    UnrankRowMajor(id, extent);
    var idx := Unrank(id, extent);
    var n :| 0 <= n < |ids| && ids[n] == idx;
    forall m | 0 <= m < |ids|
      ensures Item(extent, ids[m]).LinearId() < Product(extent)
      ensures Item(extent, ids[m]).LinearId() == id <==> m == n
    {
      LinearIdIsRowMajor(Item(extent, ids[m]));
      RowMajorUnrank(ids[m], extent);
      if RowMajor(ids[m], extent) == id {
        RowMajorInjective(ids[m], idx, extent);
      }
      if m == n { assert ids[m] == idx; }
    }
  }

  datatype RangeLaunch = Launched(items: seq<Item>) | LocalAccessorArgument | ArgumentMismatch

  /** A plain range is visited in the order of the linear ids. */
  method LaunchRange(extent: seq<int>, isLocalAccessor: seq<bool>, parameters: nat) returns (r: RangeLaunch)
    requires 1 <= |extent| <= 3
    ensures r == LocalAccessorArgument <==> true in isLocalAccessor
    ensures r == ArgumentMismatch <==>
            true !in isLocalAccessor && parameters - |isLocalAccessor| != 1 && Product(Ranges(extent)) > 0
    ensures Product(Ranges(extent)) > 0 ==> Ranges(extent) == extent
    ensures r.Launched? ==> |r.items| == Product(Ranges(extent))
    ensures r.Launched? ==> forall n :: 0 <= n < |r.items| ==>
                                          r.items[n].extent == extent && r.items[n].Valid()
                                          && InShape(r.items[n].index, r.items[n].extent) && r.items[n].LinearId() == n
  {
    hide Product, Unrank, Item.LinearId;
    NegativeIsEmpty(extent);
    var range := Ranges(extent);
    TuplesAreRanked(range);
    var tuples := Tuples(range);
    for i := 0 to |isLocalAccessor|
      invariant true !in isLocalAccessor[..i]
    {
      if isLocalAccessor[i] { return LocalAccessorArgument; }
    }
    assert isLocalAccessor[..|isLocalAccessor|] == isLocalAccessor;
    var items: seq<Item> := [];
    for n := 0 to |tuples|
      invariant |items| == n && (n > 0 ==> parameters - |isLocalAccessor| == 1)
      invariant forall m :: 0 <= m < n ==> items[m].extent == range && items[m].Valid()
                                           && InShape(items[m].index, range) && items[m].LinearId() == m
    {
      var it := Item(range, tuples[n]);
      if parameters - |isLocalAccessor| != 1 { return ArgumentMismatch; }
      UnrankRowMajor(n, range);
      LinearIdIsRowMajor(it);
      items := items + [it];
    }
    return Launched(items);
  }
}
