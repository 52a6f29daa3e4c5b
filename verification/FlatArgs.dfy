/** Flattening kernel arguments into the slots counted for them in advance. */
module FlatArgs {

  /** Kernel arguments: plain values, complex numbers, arrays and local accessors. */
  datatype ArgType = Scalar | Complex64 | Complex128 | UsmArray(ndim: nat) | LocalAccessor(ndim: nat)

  // ----- the device struct of an array -----

  datatype Field = Whole | RealPart | ImagPart | NItems | ItemSize | Data | Shape(dim: nat) | Stride(dim: nat)

  datatype Member = Plain(field: Field) | UniTuple(elements: seq<Field>)

  function Shapes(ndim: nat): seq<Field> { seq(ndim, i requires 0 <= i < ndim => Shape(i)) }

  function Strides(ndim: nat): seq<Field> { seq(ndim, i requires 0 <= i < ndim => Stride(i)) }

  function DeviceMembers(ndim: nat): seq<Member> {
    [Plain(NItems), Plain(ItemSize), Plain(Data), UniTuple(Shapes(ndim)), UniTuple(Strides(ndim))]
  }

  function MemberFields(m: Member): seq<Field> {
    match m
    case Plain(f) => [f]
    case UniTuple(elements) => elements
  }

  /** The fields of a struct in declaration order. */
  function StructFields(members: seq<Member>): seq<Field> {
    if members == [] then []
    else StructFields(members[..|members| - 1]) + MemberFields(members[|members| - 1])
  }

  /** What one argument must contribute. */
  function FieldsOf(ty: ArgType): seq<Field> {
    match ty
    case Scalar => [Whole]
    case UsmArray(ndim) => StructFields(DeviceMembers(ndim))
    case LocalAccessor(ndim) => StructFields(DeviceMembers(ndim))
    case _ => [RealPart, ImagPart]
  }

  datatype KernelArg = KernelArg(arg: nat, field: Field)

  function Tagged(arg: nat, fields: seq<Field>): seq<KernelArg> {
    seq(|fields|, i requires 0 <= i < |fields| => KernelArg(arg, fields[i]))
  }

  function Flattened(argtys: seq<ArgType>): seq<KernelArg> {
    if argtys == [] then []
    else
      var n := |argtys| - 1;
      Flattened(argtys[..n]) + Tagged(n, FieldsOf(argtys[n]))
  }

  // ----- counting -----

  method FlattenedMemberCount(members: seq<Member>) returns (n: nat)
    ensures n == |StructFields(members)|
  {
    n := 0;
    for i := 0 to |members|
      invariant n == |StructFields(members[..i])|
    {
      assert members[..i + 1][..i] == members[..i];
      match members[i]
      case UniTuple(elements) => n := n + |elements|;
      case Plain(_) => n := n + 1;
    }
    assert members[..|members|] == members;
  }

  method NumFlattenedKernelArgs(argtys: seq<ArgType>) returns (n: nat)
    ensures n == |Flattened(argtys)|
  {
    n := 0;
    for i := 0 to |argtys|
      invariant n == |Flattened(argtys[..i])|
    {
      assert argtys[..i + 1][..i] == argtys[..i];
      match argtys[i]
      case UsmArray(ndim) =>
        var count := FlattenedMemberCount(DeviceMembers(ndim));
        n := n + count;
      case LocalAccessor(ndim) =>
        var count := FlattenedMemberCount(DeviceMembers(ndim));
        n := n + count;
      case Scalar => n := n + 1;
      case _ => n := n + 2;
    }
    assert argtys[..|argtys|] == argtys;
  }

  // ----- building -----

  lemma DeviceFields(ndim: nat)
    ensures StructFields(DeviceMembers(ndim)) == [NItems, ItemSize, Data] + Shapes(ndim) + Strides(ndim)
  {
    hide StructFields, Shapes, Strides;
    var m := DeviceMembers(ndim);
    StructSnoc(m, 0);
    StructSnoc(m, 1);
    StructSnoc(m, 2);
    StructSnoc(m, 3);
    StructSnoc(m, 4);
    assert m[..5] == m;
  }

  lemma StructSnoc(members: seq<Member>, k: nat)
    requires k < |members|
    ensures StructFields(members[..k + 1]) == StructFields(members[..k]) + MemberFields(members[k])
    ensures StructFields(members[..0]) == []
  {
    assert members[..k + 1][..k] == members[..k];
  }

  class Builder {
    var args: seq<KernelArg>
    var count: nat

    constructor ()
      ensures args == [] && count == 0
    {
      args, count := [], 0;
    }

    method Push(field: Field)
      modifies this`args
      ensures args == old(args) + [KernelArg(count, field)]
    {
      args := args + [KernelArg(count, field)];
    }

    /** An array or a local accessor: its three scalar fields, then shape and strides. */
    method BuildArrayArg(ndim: nat)
      modifies this`args
      ensures args == old(args) + Tagged(count, StructFields(DeviceMembers(ndim)))
    {
      DeviceFields(ndim);
      hide StructFields;
      Push(NItems);
      Push(ItemSize);
      Push(Data);
      ghost var first := args;
      for i := 0 to ndim
        invariant args == first + Tagged(count, Shapes(ndim)[..i])
      {
        Push(Shape(i));
      }
      ghost var second := args;
      for i := 0 to ndim
        invariant args == second + Tagged(count, Strides(ndim)[..i])
      {
        Push(Stride(i));
      }
      assert Shapes(ndim)[..ndim] == Shapes(ndim) && Strides(ndim)[..ndim] == Strides(ndim);
      assert first == old(args) + Tagged(count, [NItems, ItemSize, Data]);
    }

    /** A local accessor without dimensions has no size and is an error. */
    method AddArgument(ty: ArgType) returns (ok: bool)
      modifies this
      ensures ok <==> ty != LocalAccessor(0)
      ensures ok ==> args == old(args) + Tagged(old(count), FieldsOf(ty)) && count == old(count) + 1
      ensures ty == Complex64 || ty == Complex128 ==>
                args == old(args) + [KernelArg(old(count), RealPart), KernelArg(old(count), ImagPart)]
    {
      hide StructFields;
      match ty {
        case LocalAccessor(ndim) =>
          if ndim == 0 { return false; }
          BuildArrayArg(ndim);
        case UsmArray(ndim) => BuildArrayArg(ndim);
        case Scalar => Push(Whole);
        case _ =>
          Push(RealPart);
          Push(ImagPart);
      }
      count := count + 1;
      return true;
    }
  }

  /** The arrays allocated for the counted number of arguments are filled exactly. */
  method PopulateKernelArgs(argtys: seq<ArgType>) returns (ok: bool, slots: array<KernelArg>)
    ensures ok <==> LocalAccessor(0) !in argtys
    ensures ok ==> slots[..] == Flattened(argtys)
  {
    hide FieldsOf, Tagged;
    var n := NumFlattenedKernelArgs(argtys);
    slots := new KernelArg[n](_ => KernelArg(0, Whole));
    var builder := new Builder();
    for i := 0 to |argtys|
      invariant builder.args == Flattened(argtys[..i]) && builder.count == i
      invariant LocalAccessor(0) !in argtys[..i]
    {
      assert argtys[..i + 1][..i] == argtys[..i];
      var added := builder.AddArgument(argtys[i]);
      if !added { return false, slots; }
    }
    assert argtys[..|argtys|] == argtys;
    FillSlots(builder.args, slots);
    ok := true;
  }

  method FillSlots(args: seq<KernelArg>, slots: array<KernelArg>)
    requires slots.Length == |args|
    modifies slots
    ensures slots[..] == args
  {
    for k := 0 to |args|
      invariant forall i :: 0 <= i < k ==> slots[i] == args[i]
    {
      slots[k] := args[k];
    }
  }

  /** Where a field of an argument ends up: after all fields of the arguments
      before it, in the order of its own struct. */
  lemma {:induction false} FieldSlot(argtys: seq<ArgType>, arg: nat, k: nat)
    requires arg < |argtys| && k < |FieldsOf(argtys[arg])|
    ensures var slot := |Flattened(argtys[..arg])| + k;
            slot < |Flattened(argtys)| && Flattened(argtys)[slot] == KernelArg(arg, FieldsOf(argtys[arg])[k])
    decreases |argtys|
  {
    hide FieldsOf;
    var n := |argtys| - 1;
    if arg == n {
      assert Tagged(n, FieldsOf(argtys[n]))[k] == KernelArg(n, FieldsOf(argtys[n])[k]);
    } else {
      FieldSlot(argtys[..n], arg, k);
      assert argtys[..n][..arg] == argtys[..arg];
    }
  }

  /** How many slots one argument takes. */
  function Width(ty: ArgType): nat {
    match ty
    case Scalar => 1
    case Complex64 => 2
    case Complex128 => 2
    case UsmArray(ndim) => 3 + 2 * ndim
    case LocalAccessor(ndim) => 3 + 2 * ndim
  }

  function FirstSlot(argtys: seq<ArgType>, arg: nat): nat
    requires arg <= |argtys|
  {
    if arg == 0 then 0 else FirstSlot(argtys, arg - 1) + Width(argtys[arg - 1])
  }

  lemma {:induction false} SlotsBefore(argtys: seq<ArgType>, arg: nat)
    requires arg <= |argtys|
    ensures |Flattened(argtys[..arg])| == FirstSlot(argtys, arg)
  {
    if arg > 0 {
      SlotsBefore(argtys, arg - 1);
      assert argtys[..arg][..arg - 1] == argtys[..arg - 1];
      FieldsMean(argtys[arg - 1]);
    }
  }

  lemma FieldsMean(ty: ArgType)
    ensures |FieldsOf(ty)| == Width(ty)
    ensures ty.Scalar? ==> FieldsOf(ty) == [Whole]
    ensures ty.Complex64? || ty.Complex128? ==> FieldsOf(ty) == [RealPart, ImagPart]
    ensures ty.UsmArray? || ty.LocalAccessor? ==>
              FieldsOf(ty) == [NItems, ItemSize, Data] + Shapes(ty.ndim) + Strides(ty.ndim)
  {
    hide StructFields;
    if ty.UsmArray? || ty.LocalAccessor? { DeviceFields(ty.ndim); }
  }

  lemma SlotAt(argtys: seq<ArgType>, arg: nat, k: nat)
    requires arg < |argtys| && k < Width(argtys[arg])
    ensures |FieldsOf(argtys[arg])| == Width(argtys[arg])
    ensures FirstSlot(argtys, arg) + Width(argtys[arg]) <= |Flattened(argtys)|
    ensures Flattened(argtys)[FirstSlot(argtys, arg) + k] == KernelArg(arg, FieldsOf(argtys[arg])[k])
  {
    hide Flattened, FieldsOf;
    SlotsBefore(argtys, arg);
    FieldsMean(argtys[arg]);
    FieldSlot(argtys, arg, k);
    FieldSlot(argtys, arg, Width(argtys[arg]) - 1);
  }

  /** The slots of every argument, one by one: a plain value; the real before the
      imaginary part; item count, item size and data, then shape, then strides. */
  lemma ArgumentSlots(argtys: seq<ArgType>, arg: nat)
    requires arg < |argtys|
    ensures var slots, first, ty := Flattened(argtys), FirstSlot(argtys, arg), argtys[arg];
            first + Width(ty) <= |slots|
            && (ty.Scalar? ==> slots[first] == KernelArg(arg, Whole))
            && (ty.Complex64? || ty.Complex128? ==>
                  slots[first] == KernelArg(arg, RealPart) && slots[first + 1] == KernelArg(arg, ImagPart))
            && (ty.UsmArray? || ty.LocalAccessor? ==>
                  slots[first] == KernelArg(arg, NItems) && slots[first + 1] == KernelArg(arg, ItemSize)
                  && slots[first + 2] == KernelArg(arg, Data)
                  && (forall d :: 0 <= d < ty.ndim ==> slots[first + 3 + d] == KernelArg(arg, Shape(d)))
                  && (forall d :: 0 <= d < ty.ndim ==> slots[first + 3 + ty.ndim + d] == KernelArg(arg, Stride(d))))
  {
    hide Flattened, FieldsOf, FirstSlot;
    var ty := argtys[arg];
    FieldsMean(ty);
    SlotAt(argtys, arg, 0);
    SlotAt(argtys, arg, Width(ty) - 1);
    if ty.UsmArray? || ty.LocalAccessor? {
      SlotAt(argtys, arg, 1);
      SlotAt(argtys, arg, 2);
      forall d | 0 <= d < ty.ndim
        ensures Flattened(argtys)[FirstSlot(argtys, arg) + 3 + d] == KernelArg(arg, Shape(d))
        ensures Flattened(argtys)[FirstSlot(argtys, arg) + 3 + ty.ndim + d] == KernelArg(arg, Stride(d))
      {
        SlotAt(argtys, arg, 3 + d);
        SlotAt(argtys, arg, 3 + ty.ndim + d);
      }
    }
  }
}
