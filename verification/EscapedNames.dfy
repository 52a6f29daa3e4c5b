/** What the escapes in symbol names spell, and which names they keep apart: an
    escape is the UTF-8 encoding of its character in hexadecimal, no escape begins
    another, and so only underscores and leading digits can make two names one.
    At the end stand some symbols letter by letter, for every kind of type and
    name that the printer knows. */
module EscapedNames {
  import opened Options
  import opened Mangler

  // ----- reading an escaped character -----

  /** The value of a hexadecimal digit, in lower case. */
  function HexValue(c: char): Option<nat> {
    match c
    case '0' => Some(0)
    case '1' => Some(1)
    case '2' => Some(2)
    case '3' => Some(3)
    case '4' => Some(4)
    case '5' => Some(5)
    case '6' => Some(6)
    case '7' => Some(7)
    case '8' => Some(8)
    case '9' => Some(9)
    case 'a' => Some(10)
    case 'b' => Some(11)
    case 'c' => Some(12)
    case 'd' => Some(13)
    case 'e' => Some(14)
    case 'f' => Some(15)
    case _ => None
  }

  /** The bytes spelled by a sequence of `_xx`. */
  function Bytes(s: string): Option<seq<nat>> {
    if s == "" then Some([])
    else if |s| < 3 || s[0] != '_' then None
    else
      var hi, lo, rest := HexValue(s[1]), HexValue(s[2]), Bytes(s[3..]);
      if hi.None? || lo.None? || rest.None? then None else Some([16 * hi.value + lo.value] + rest.value)
  }

  predicate Tail(b: nat) { 0x80 <= b < 0xC0 }

  /** The code point that a sequence of bytes encodes, by section 3 of RFC 3629. */
  function CodePoint(bs: seq<nat>): Option<nat> {
    if |bs| == 1 && bs[0] < 0x80 then Some(bs[0])
    else if |bs| == 2 && 0xC0 <= bs[0] < 0xE0 && Tail(bs[1]) then
      var n := (bs[0] - 0xC0) * 0x40 + (bs[1] - 0x80);
      if n >= 0x80 then Some(n) else None
    else if |bs| == 3 && 0xE0 <= bs[0] < 0xF0 && Tail(bs[1]) && Tail(bs[2]) then
      var n := (bs[0] - 0xE0) * 0x1000 + (bs[1] - 0x80) * 0x40 + (bs[2] - 0x80);
      if n >= 0x800 && !(0xD800 <= n < 0xE000) then Some(n) else None
    else if |bs| == 4 && 0xF0 <= bs[0] < 0xF8 && Tail(bs[1]) && Tail(bs[2]) && Tail(bs[3]) then
      var n := (bs[0] - 0xF0) * 0x4_0000 + (bs[1] - 0x80) * 0x1000 + (bs[2] - 0x80) * 0x40 + (bs[3] - 0x80);
      if 0x1_0000 <= n < 0x11_0000 then Some(n) else None
    else None
  }

  lemma HexDigitValue(n: nat)
    requires n < 16
    ensures HexValue(HexDigit(n)) == Some(n)
  {}

  lemma BytesOfHexByte(n: nat, s: string, bs: seq<nat>)
    requires n < 256 && Bytes(s) == Some(bs)
    ensures Bytes(HexByte(n) + s) == Some([n] + bs)
  {
    HexDigitValue(n / 16);
    HexDigitValue(n % 16);
    assert (HexByte(n) + s)[3..] == s;
  }

  type Byte = n: nat | n < 256

  function Spell(bs: seq<Byte>): string {
    if bs == [] then "" else HexByte(bs[0]) + Spell(bs[1..])
  }

  lemma {:induction false} BytesOfSpell(bs: seq<Byte>)
    ensures Bytes(Spell(bs)) == Some(bs)
  {
    hide HexByte;
    if bs != [] {
      BytesOfSpell(bs[1..]);
      BytesOfHexByte(bs[0], Spell(bs[1..]), bs[1..]);
      assert [bs[0]] + bs[1..] == bs;
    }
  }

  /** The bytes of a code point, as few as it needs. */
  function Utf8(n: nat): seq<Byte>
    requires n < 0x11_0000
  {
    if n < 0x80 then [n]
    else if n < 0x800 then [0xC0 + n / 0x40, 0x80 + n % 0x40]
    else if n < 0x1_0000 then [0xE0 + n / 0x1000, 0x80 + n / 0x40 % 0x40, 0x80 + n % 0x40]
    else [0xF0 + n / 0x4_0000, 0x80 + n / 0x1000 % 0x40, 0x80 + n / 0x40 % 0x40, 0x80 + n % 0x40]
  }

  lemma SixBits(n: nat)
    ensures n == n / 0x40 * 0x40 + n % 0x40
    ensures n / 0x40 == n / 0x1000 * 0x40 + n / 0x40 % 0x40
    ensures n / 0x1000 == n / 0x4_0000 * 0x40 + n / 0x1000 % 0x40
  {}

  lemma Utf8Decodes(n: nat)
    requires n < 0x11_0000 && !(0xD800 <= n < 0xE000)
    ensures CodePoint(Utf8(n)) == Some(n)
  {
    SixBits(n);
  }

  lemma SpellFew(bs: seq<Byte>)
    requires 1 <= |bs| <= 4
    ensures Spell(bs) == HexByte(bs[0]) + (if |bs| > 1 then HexByte(bs[1]) else "")
                         + (if |bs| > 2 then HexByte(bs[2]) else "") + if |bs| > 3 then HexByte(bs[3]) else ""
  {
    hide HexByte;
    if |bs| > 1 {
      assert bs[1..][0] == bs[1];
      if |bs| > 2 {
        assert bs[1..][1..][0] == bs[2];
        if |bs| > 3 { assert bs[1..][1..][1..][0] == bs[3]; }
      }
    }
  }

  lemma EscapeCharSpells(c: char)
    requires !IsPlainChar(c)
    ensures EscapeChar(c) == Spell(Utf8(c as int))
  {
    hide HexByte, IsPlainChar, Spell;
    SpellFew(Utf8(c as int));
  }

  /** Among the ASCII characters only letters, digits and the underscore stand for
      themselves. */
  lemma PlainAscii(c: char)
    requires c as int < 0x80
    ensures EscapeChar(c) == [c] <==>
            var n := c as int; 48 <= n <= 57 || 65 <= n <= 90 || n == 95 || 97 <= n <= 122
  {
    hide EscapeChar;
    Unfold(c);
  }

  /** An escaped character spells its encoding in UTF-8, for every length. */
  lemma EscapeCharIsUtf8(c: char)
    requires !IsPlainChar(c)
    ensures var bs := Bytes(EscapeChar(c)); bs.Some? && CodePoint(bs.value) == Some(c as int)
  {
    hide IsPlainChar, EscapeChar, Bytes, Spell;
    EscapeCharSpells(c);
    BytesOfSpell(Utf8(c as int));
    Utf8Decodes(c as int);
  }

  lemma Unfold(c: char)
    ensures if IsPlainChar(c) then EscapeChar(c) == [c] else |EscapeChar(c)| >= 3 && EscapeChar(c)[0] == '_'
  {}

  lemma EscapeCharInjective(c: char, d: char)
    requires EscapeChar(c) == EscapeChar(d)
    ensures c == d
  {
    hide EscapeChar, Bytes, CodePoint;
    Unfold(c);
    Unfold(d);
    if !IsPlainChar(c) && !IsPlainChar(d) {
      EscapeCharIsUtf8(c);
      EscapeCharIsUtf8(d);
      assert c as int == d as int;
    }
  }

  // ----- names without underscores -----

  lemma {:induction false} SpellStarts(bs: seq<Byte>)
    ensures |Spell(bs)| == 3 * |bs|
    ensures bs != [] ==> Spell(bs)[..3] == HexByte(bs[0])
  {
    if bs != [] {
      SpellStarts(bs[1..]);
      assert |HexByte(bs[0])| == 3;
    }
  }

  lemma HexByteInjective(m: Byte, n: Byte)
    requires HexByte(m) == HexByte(n)
    ensures m == n
  {
    hide HexByte;
    BytesOfHexByte(m, "", []);
    BytesOfHexByte(n, "", []);
    assert ([m] + [])[0] == ([n] + [])[0];
  }

  /** The first byte tells how many there are. */
  lemma Utf8Length(m: nat, n: nat)
    requires m < 0x11_0000 && n < 0x11_0000 && Utf8(m)[0] == Utf8(n)[0]
    ensures |Utf8(m)| == |Utf8(n)|
  {}

  lemma EscapeLength(c: char, d: char, s: string)
    requires !IsPlainChar(c) && !IsPlainChar(d)
    requires EscapeChar(c) <= s && EscapeChar(d) <= s
    ensures |EscapeChar(c)| == |EscapeChar(d)|
  {
    hide EscapeChar, Spell, HexByte, IsPlainChar;
    EscapeCharSpells(c);
    EscapeCharSpells(d);
    var p, q := Utf8(c as int), Utf8(d as int);
    SpellStarts(p);
    SpellStarts(q);
    assert HexByte(p[0]) == s[..3] == HexByte(q[0]);
    HexByteInjective(p[0], q[0]);
    Utf8Length(c as int, d as int);
  }

  /** No escape is the beginning of another. */
  lemma EscapeCharPrefix(c: char, d: char, u: string, v: string)
    requires c != '_' && d != '_' && EscapeChar(c) + u == EscapeChar(d) + v
    ensures c == d && u == v
  {
    hide EscapeChar;
    var s := EscapeChar(c) + u;
    Unfold(c);
    Unfold(d);
    assert s[0] == EscapeChar(c)[0] == EscapeChar(d)[0];
    if !IsPlainChar(c) { EscapeLength(c, d, s); }
    assert EscapeChar(c) == s[..|EscapeChar(c)|] == EscapeChar(d);
    EscapeCharInjective(c, d);
    assert u == s[|EscapeChar(c)|..] == v;
  }

  /** The escape character aside, escaping loses nothing. */
  lemma {:induction false} EscapeInjective(s: string, t: string)
    requires '_' !in s && '_' !in t && Escape(s) == Escape(t)
    ensures s == t
  {
    hide EscapeChar;
    if s != "" { Unfold(s[0]); }
    if t != "" { Unfold(t[0]); }
    if s != "" && t != "" {
      EscapeCharPrefix(s[0], t[0], Escape(s[1..]), Escape(t[1..]));
      EscapeInjective(s[1..], t[1..]);
      assert s == [s[0]] + s[1..] && t == [t[0]] + t[1..];
    }
  }

  // ----- signatures without underscores -----

  predicate CleanPart(s: string) { '_' !in s && !StartsWithDigit(s) }

  predicate CleanParts(parts: seq<string>) { forall i :: 0 <= i < |parts| ==> CleanPart(parts[i]) }

  predicate CleanPlain(p: Plain)
    decreases p, 0
  {
    p.Named? ==> CleanParts(Split(p.ident)) && CleanArgs(p.params)
  }

  predicate CleanArg(a: Arg)
    decreases a, 1
  {
    match a
    case Value(p) => CleanPlain(p)
    case Pointer(_, p) => CleanPlain(p)
  }

  predicate CleanArgs(args: seq<Arg>)
    decreases args, 0
  {
    args == [] || (CleanArg(args[0]) && CleanArgs(args[1..]))
  }

  /** No part of a name and no tag holds an underscore or begins with a digit;
      any other characters may occur. */
  predicate CleanSignature(s: Signature) {
    CleanParts(Split(s.ident)) && CleanParts(s.tags) && CleanArgs(s.args)
  }

  lemma CleanPartKept(s: string)
    requires CleanPart(s)
    ensures CanonPart(s) == Escape(s)
  {
    hide EscapeChar;
    if s != "" { Unfold(s[0]); }
  }

  lemma SamePart(s: string, t: string)
    requires CleanPart(s) && CleanPart(t) && CanonPart(s) == CanonPart(t)
    ensures s == t
  {
    hide CanonPart, Escape;
    CleanPartKept(s);
    CleanPartKept(t);
    EscapeInjective(s, t);
  }

  lemma SameParts(p: seq<string>, q: seq<string>)
    requires CleanParts(p) && CleanParts(q) && CanonParts(p) == CanonParts(q)
    ensures p == q
  {
    hide CanonPart, CleanPart;
    forall i | 0 <= i < |p| ensures p[i] == q[i] {
      assert CanonParts(p)[i] == CanonParts(q)[i];
      SamePart(p[i], q[i]);
    }
  }

  lemma SameIdent(s: string, t: string)
    requires CleanParts(Split(s)) && CleanParts(Split(t)) && CanonIdent(s) == CanonIdent(t)
    ensures s == t
  {
    hide CanonParts, Split, Join, CleanParts, WfParts;
    CanonPartsPrint(Split(s));
    CanonPartsPrint(Split(t));
    SplitJoin(CanonParts(Split(s)));
    SplitJoin(CanonParts(Split(t)));
    SameParts(Split(s), Split(t));
    JoinSplit(s);
    JoinSplit(t);
  }

  lemma {:induction false} SamePlain(p: Plain, q: Plain)
    requires CleanPlain(p) && CleanPlain(q) && CanonPlain(p) == CanonPlain(q)
    ensures p == q
    decreases p, 0
  {
    hide CanonIdent, CleanParts, Split;
    if p.Named? {
      SameIdent(p.ident, q.ident);
      SameArgs(p.params, q.params);
    }
  }

  lemma {:induction false} SameArg(a: Arg, b: Arg)
    requires CleanArg(a) && CleanArg(b) && CanonArg(a) == CanonArg(b)
    ensures a == b
    decreases a, 1
  {
    hide CanonPlain, CleanPlain;
    match a
    case Value(p) => SamePlain(p, b.v);
    case Pointer(_, p) => SamePlain(p, b.pointee);
  }

  lemma {:induction false} SameArgs(a: seq<Arg>, b: seq<Arg>)
    requires CleanArgs(a) && CleanArgs(b) && CanonArgs(a) == CanonArgs(b)
    ensures a == b
    decreases a, 0
  {
    hide CanonArg, CleanArg;
    if a != [] {
      assert CanonArgs(a)[0] == CanonArgs(b)[0] && CanonArgs(a)[1..] == CanonArgs(b)[1..];
      SameArg(a[0], b[0]);
      SameArgs(a[1..], b[1..]);
      assert a == [a[0]] + a[1..] && b == [b[0]] + b[1..];
    }
  }

  /** Symbols keep all such signatures apart, whatever characters they need escaped. */
  lemma CleanSymbols(s: Signature, t: Signature)
    requires CleanSignature(s) && CleanSignature(t)
    ensures Mangle(s) == Mangle(t) <==> s == t
  {
    hide Mangle, CanonIdent, CanonParts, CanonArgs, CleanParts, CleanArgs, Split;
    SameSymbol(s, t);
    if Canonical(s) == Canonical(t) {
      SameIdent(s.ident, t.ident);
      SameParts(s.tags, t.tags);
      SameArgs(s.args, t.args);
    }
  }

  // ----- symbols letter by letter -----

  function Taking(a: Arg): Signature { Signature("f", [], [a]) }

  lemma PlainName(s: string)
    requires WfPart(s) && forall i :: 0 <= i < |s| ==> s[i] != '.'
    ensures Split(s) == [s] && EncodeParts([s]) == Decimal(|s|) + s
    ensures MangleIdent(s, "") == Decimal(|s|) + s
  {
    SplitOfOne(s);
    EscapePlain(s);
    assert [s][1..] == [];
    assert EncodeParts([]) == "";
    assert Decimal(|s|) + s + "" == Decimal(|s|) + s;
  }

  lemma SymbolTaking(a: Arg)
    ensures Mangle(Taking(a)) == "_Z1f" + MangleArg(a)
  {
    hide MangleArg;
    PlainName("f");
    assert Decimal(1) == "1";
    assert [a][1..] == [];
    assert MangleArgs([]) == "" && MangleArgs([a]) == MangleArg(a) + "";
    assert EncodeTags([]) == "";
  }

  /** The letters of the built-in types: those of the C types that stand for them. */
  lemma BuiltinSymbol(b: Builtin)
    ensures Mangle(Taking(Value(Basic(b)))) == "_Z1f" +
            match b {
              case Void => "v"
              case Boolean => "b"
              case Int8 => "a"
              case UInt8 => "h"
              case Int16 => "s"
              case UInt16 => "t"
              case Int32 => "i"
              case UInt32 => "j"
              case Int64 => "x"
              case UInt64 => "y"
              case Float16 => "Dh"
              case Float32 => "f"
              case Float64 => "d"
            }
  {
    hide Mangle;
    SymbolTaking(Value(Basic(b)));
  }

  /** Pointers with and without an address space, and numbers. */
  lemma PointerSymbols(p: Plain)
    ensures Mangle(Taking(Pointer(None, p))) == "_Z1fP" + ManglePlain(p)
    ensures Mangle(Taking(Pointer(Some(0), p))) == "_Z1fPU3AS0" + ManglePlain(p)
    ensures Mangle(Taking(Pointer(Some(1), p))) == "_Z1fPU3AS1" + ManglePlain(p)
    ensures Mangle(Taking(Pointer(Some(3), p))) == "_Z1fPU3AS3" + ManglePlain(p)
    ensures Mangle(Taking(Pointer(Some(4), p))) == "_Z1fPU3AS4" + ManglePlain(p)
    ensures Mangle(Taking(Value(IntLit(-12)))) == "_Z1fLi-12E"
  {
    hide Mangle, MangleIdent, ManglePlain;
    SymbolTaking(Pointer(None, p));
    SpaceSymbol(0, p);
    SpaceSymbol(1, p);
    SpaceSymbol(3, p);
    SpaceSymbol(4, p);
    SymbolTaking(Value(IntLit(-12)));
    assert ManglePlain(IntLit(-12)) == MangleInt(-12) by { Number(-12); }
    assert Decimal(1) == "1" && Decimal(12) == "12";
  }

  lemma Number(n: int)
    ensures ManglePlain(IntLit(n)) == MangleInt(n)
  {}

  lemma SpaceSymbol(space: nat, p: Plain)
    requires space < 10
    ensures Mangle(Taking(Pointer(Some(space), p))) == "_Z1fPU3AS" + ['0' + space as char] + ManglePlain(p)
  {
    hide Mangle, MangleIdent, ManglePlain;
    SymbolTaking(Pointer(Some(space), p));
    var name := "AS" + ['0' + space as char];
    assert Decimal(space) == ['0' + space as char] && Decimal(3) == "3";
    assert name == "AS" + Decimal(space);
    PlainName(name);
  }

  lemma NameWithParams(s: string, extras: string)
    requires WfPart(s)
    ensures MangleIdent(s, extras) == Decimal(|s|) + s + extras
  {
    assert '.' !in s;
    PlainName(s);
  }

  lemma PartPrinted(s: string)
    requires WfPart(s)
    ensures LenEncoded(Escape(s)) == Decimal(|s|) + s
  {
    EscapePlain(s);
  }

  lemma TwoPrinted(a: string, b: string)
    ensures EncodeParts([a, b]) == LenEncoded(Escape(a)) + LenEncoded(Escape(b))
    ensures Join([a, b]) == a + "." + b
  {
    hide LenEncoded, Escape;
    assert [a, b][1..] == [b] && [b][1..] == [];
    assert EncodeParts([b]) == LenEncoded(Escape(b)) + "";
  }

  lemma TwoParts(a: string, b: string, extras: string)
    requires WfPart(a) && WfPart(b)
    ensures MangleIdent(a + "." + b, extras) == "N" + (Decimal(|a|) + a + (Decimal(|b|) + b)) + extras + "E"
  {
    hide Split, LenEncoded, Escape, Decimal, EncodeParts, Join, IsPlainChar;
    TwoPrinted(a, b);
    hide WfPart;
    SplitJoin([a, b]);
    PartPrinted(a);
    PartPrinted(b);
  }

  lemma ParamsPrinted(elem: Builtin, n: nat)
    requires n < 10
    ensures MangleArgs([Value(Basic(elem)), Value(IntLit(n))]) == Code(elem) + ("Li" + ['0' + n as char] + "E")
  {
    hide Code;
    var params := [Value(Basic(elem)), Value(IntLit(n))];
    assert params[1..] == [Value(IntLit(n))] && params[1..][1..] == [];
    assert Decimal(n) == ['0' + n as char];
    assert ManglePlain(IntLit(n)) == "Li" + ['0' + n as char] + "E";
    assert MangleArgs([]) == "";
    assert MangleArgs(params[1..]) == ManglePlain(IntLit(n)) + "";
  }

  /** A type with parameters: an array of so many dimensions. */
  lemma ArraySymbol(elem: Builtin, n: nat)
    requires n < 10
    ensures Mangle(Taking(Value(Named("array", [Value(Basic(elem)), Value(IntLit(n))]))))
            == "_Z1f" + ("5array" + ("I" + (Code(elem) + ("Li" + ['0' + n as char] + "E")) + "E"))
  {
    hide Mangle, MangleIdent, MangleArgs, Code;
    ParamsPrinted(elem, n);
    var params := [Value(Basic(elem)), Value(IntLit(n))];
    SymbolTaking(Value(Named("array", params)));
    assert Decimal(5) == "5";
    NameWithParams("array", "I" + MangleArgs(params) + "E");
    assert "5" + "array" == "5array";
  }

  lemma TagPrinted()
    ensures EncodeTags(["v1"]) == "B2v1"
  {
    PartPrinted("v1");
    assert Decimal(2) == "2";
    assert ["v1"][1..] == [];
    assert EncodeTags([]) == "";
  }

  /** A tagged name in a namespace. */
  lemma NamespaceSymbol()
    ensures Mangle(Signature("m.f", ["v1"], [])) == "_ZN1m1fB2v1E"
  {
    hide MangleIdent, EncodeTags;
    assert Decimal(1) == "1";
    hide Decimal;
    TagPrinted();
    TwoParts("m", "f", "B2v1");
    assert "m" + "." + "f" == "m.f";
    assert "1" + "m" + ("1" + "f") == "1m1f";
    assert MangleIdent("m.f", "B2v1") == "N1m1fB2v1E";
    assert MangleArgs([]) == "";
  }

  /** A length of two digits. */
  lemma LongNameSymbol(s: string)
    requires WfPart(s) && '.' !in s && 10 <= |s| < 100
    ensures Mangle(Signature(s, [], [])) == "_Z" + ['0' + (|s| / 10) as char, '0' + (|s| % 10) as char] + s
  {
    assert Decimal(|s|) == Decimal(|s| / 10) + ['0' + (|s| % 10) as char];
    hide MangleIdent, Decimal;
    PlainName(s);
    assert MangleArgs([]) == "" && EncodeTags([]) == "";
  }

  /** A name with characters to escape, as lambdas have. */
  lemma EscapedSymbol()
    ensures Mangle(Signature("<f>", [], [])) == "_Z7_3cf_3e"
  {
    SplitOfOne("<f>");
    assert "<f>"[1..] == "f>" && "f>"[1..] == ">" && ">"[1..] == "";
    assert EscapeChar('<') == "_3c" && EscapeChar('>') == "_3e" && EscapeChar('f') == "f";
    assert Escape(">") == "_3e" + "";
    assert Escape("f>") == "f" + "_3e";
    assert Escape("<f>") == "_3c" + "f_3e";
    assert ["<f>"][1..] == [];
    assert EncodeParts([]) == "" && Decimal(7) == "7";
    assert EncodeTags([]) == "" && MangleArgs([]) == "";
  }
}
