/** Itanium-style symbol names: the printer, a reader for what it prints, and when
    reading gives back what was printed.  Some signatures share a symbol; every
    signature has a canonical form, which is what its symbol is read back as, and
    two signatures share a symbol exactly if they have the same canonical form. */
module Mangler {
  import opened Options

  // ----- what is mangled -----

  datatype Builtin =
    | Void | Boolean | UInt8 | Int8 | UInt16 | Int16 | UInt32 | Int32 | UInt64 | Int64 | Float16 | Float32 | Float64

  /** A type or value.  A bare string is Named with no parameters, as is a type without
      template parameters: the two are printed alike. */
  datatype Plain = Basic(b: Builtin) | Named(ident: string, params: seq<Arg>) | IntLit(n: int)

  /** A pointer is printed as such at this level only; pointers to pointers reach the
      printer as Named types. */
  datatype Arg = Value(v: Plain) | Pointer(space: Option<nat>, pointee: Plain)

  datatype Signature = Signature(ident: string, tags: seq<string>, args: seq<Arg>)

  // ----- characters and numbers -----

  predicate IsDigit(c: char) { '0' <= c <= '9' }

  /** [a-z0-9_] ignoring case; case folding adds four letters outside ASCII. */
  predicate IsPlainChar(c: char) {
    'a' <= c <= 'z' || 'A' <= c <= 'Z' || IsDigit(c) || c == '_'
    || c == '\U{0130}' || c == '\U{0131}' || c == '\U{017F}' || c == '\U{212A}'
  }

  function HexDigit(n: nat): char
    requires n < 16
  {
    if n < 10 then '0' + n as char else 'a' + (n - 10) as char
  }

  function HexByte(n: nat): string
    requires n < 256
  {
    ['_', HexDigit(n / 16), HexDigit(n % 16)]
  }

  /** The character's UTF-8 bytes, each as '_' and two hexadecimal digits. */
  function EscapeChar(c: char): string {
    var n := c as int;
    if IsPlainChar(c) then [c]
    else if n < 0x80 then HexByte(n)
    else if n < 0x800 then HexByte(0xC0 + n / 0x40) + HexByte(0x80 + n % 0x40)
    else if n < 0x1_0000 then HexByte(0xE0 + n / 0x1000) + HexByte(0x80 + n / 0x40 % 0x40) + HexByte(0x80 + n % 0x40)
    else HexByte(0xF0 + n / 0x4_0000) + HexByte(0x80 + n / 0x1000 % 0x40) + HexByte(0x80 + n / 0x40 % 0x40) + HexByte(0x80 + n % 0x40)
  }

  function Escape(s: string): string {
    if s == "" then "" else EscapeChar(s[0]) + Escape(s[1..])
  }

  function Decimal(n: nat): (s: string)
    ensures s != "" && IsDigit(s[0])
  {
    if n < 10 then ['0' + n as char] else Decimal(n / 10) + ['0' + (n % 10) as char]
  }

  // ----- the printer -----

  function Code(b: Builtin): string {
    match b
    case Void => "v"
    case Boolean => "b"
    case UInt8 => "h"
    case Int8 => "a"
    case UInt16 => "t"
    case Int16 => "s"
    case UInt32 => "j"
    case Int32 => "i"
    case UInt64 => "y"
    case Int64 => "x"
    case Float16 => "Dh"
    case Float32 => "f"
    case Float64 => "d"
  }

  function FixLeadDigit(s: string): string { if s != "" && IsDigit(s[0]) then "_" + s else s }

  function LenEncoded(s: string): string {
    var t := FixLeadDigit(s);
    Decimal(|t|) + t
  }

  /** The parts between dots; always at least one. */
  function Split(s: string): (parts: seq<string>)
    ensures |parts| > 0
  {
    if s == "" then [""]
    else
      var rest := Split(s[1..]);
      if s[0] == '.' then [""] + rest else [[s[0]] + rest[0]] + rest[1..]
  }

  function Join(parts: seq<string>): string
    requires |parts| > 0
  {
    if |parts| == 1 then parts[0] else parts[0] + "." + Join(parts[1..])
  }

  function EncodeParts(parts: seq<string>): string {
    if parts == [] then "" else LenEncoded(Escape(parts[0])) + EncodeParts(parts[1..])
  }

  function EncodeTags(tags: seq<string>): string {
    if tags == [] then "" else "B" + LenEncoded(Escape(tags[0])) + EncodeTags(tags[1..])
  }

  function MangleIdent(ident: string, extras: string): string {
    var parts := Split(ident);
    if |parts| > 1 then "N" + EncodeParts(parts) + extras + "E" else EncodeParts(parts) + extras
  }

  function MangleInt(n: int): string { "L" + "i" + (if n < 0 then "-" + Decimal(-n) else Decimal(n)) + "E" }

  function ManglePlain(p: Plain): string
    decreases p, 0
  {
    match p
    case Basic(b) => Code(b)
    case Named(ident, params) => MangleIdent(ident, if params == [] then "" else "I" + MangleArgs(params) + "E")
    case IntLit(n) => MangleInt(n)
  }

  function MangleArg(a: Arg): string
    decreases a, 1
  {
    match a
    case Value(p) => ManglePlain(p)
    case Pointer(None, p) => "P" + ManglePlain(p)
    case Pointer(Some(n), p) => "P" + "U" + MangleIdent("AS" + Decimal(n), "") + ManglePlain(p)
  }

  function MangleArgs(args: seq<Arg>): string
    decreases args, 0
  {
    if args == [] then "" else MangleArg(args[0]) + MangleArgs(args[1..])
  }

  function Mangle(s: Signature): string {
    "_Z" + MangleIdent(s.ident, EncodeTags(s.tags)) + MangleArgs(s.args)
  }

  // ----- well-formed signatures -----

  /** Nothing to escape and no leading digit. */
  predicate WfPart(s: string) {
    (s == "" || !IsDigit(s[0])) && forall i :: 0 <= i < |s| ==> IsPlainChar(s[i])
  }

  predicate WfParts(parts: seq<string>) { forall i :: 0 <= i < |parts| ==> WfPart(parts[i]) }

  predicate WfIdent(s: string) { WfParts(Split(s)) }

  predicate WfPlain(p: Plain)
    decreases p, 0
  {
    p.Named? ==> WfIdent(p.ident) && WfArgs(p.params)
  }

  predicate WfArg(a: Arg)
    decreases a, 1
  {
    match a
    case Value(p) => WfPlain(p)
    case Pointer(_, p) => WfPlain(p)
  }

  predicate WfArgs(args: seq<Arg>)
    decreases args, 0
  {
    args == [] || (WfArg(args[0]) && WfArgs(args[1..]))
  }

  predicate WfSignature(s: Signature) { WfIdent(s.ident) && WfParts(s.tags) && WfArgs(s.args) }

  // ----- the reader -----

  datatype Parsed<+T> = Fail | Ok(value: T, rest: string)

  predicate Starts(s: string, c: char) { s != "" && s[0] == c }
  predicate StartsWithDigit(s: string) { s != "" && IsDigit(s[0]) }

  function ParseDigits(s: string, acc: nat): (r: Parsed<nat>)
    ensures r.Ok? && |r.rest| <= |s|
  {
    if StartsWithDigit(s) then ParseDigits(s[1..], acc * 10 + (s[0] as int - '0' as int)) else Ok(acc, s)
  }

  /** A decimal number: at least one digit, and none behind a leading zero. */
  function ParseNat(s: string): (r: Parsed<nat>)
    ensures r.Ok? ==> |r.rest| < |s|
  {
    if Starts(s, '0') then Ok(0, s[1..])
    else if StartsWithDigit(s) then ParseDigits(s[1..], s[0] as int - '0' as int) else Fail
  }

  function ParsePart(s: string): (r: Parsed<string>)
    ensures r.Ok? ==> |r.rest| < |s| && WfPart(r.value)
  {
    var n := ParseNat(s);
    if n.Ok? && n.value <= |n.rest| && WfPart(n.rest[..n.value]) then Ok(n.rest[..n.value], n.rest[n.value..]) else Fail
  }

  /** Parts up to the first character that starts none. */
  function ParseParts(s: string): (r: Parsed<seq<string>>)
    ensures r.Ok? ==> |r.rest| <= |s| && WfParts(r.value)
    decreases |s|
  {
    if !StartsWithDigit(s) then Ok([], s)
    else
      var p := ParsePart(s);
      if p.Fail? then Fail
      else
        var q := ParseParts(p.rest);
        if q.Fail? then Fail else Ok([p.value] + q.value, q.rest)
  }

  function ParseTags(s: string): (r: Parsed<seq<string>>)
    ensures r.Ok? ==> |r.rest| <= |s| && WfParts(r.value)
    decreases |s|
  {
    if !Starts(s, 'B') then Ok([], s)
    else
      var p := ParsePart(s[1..]);
      if p.Fail? then Fail
      else
        var q := ParseTags(p.rest);
        if q.Fail? then Fail else Ok([p.value] + q.value, q.rest)
  }

  function ParseCode(s: string): (r: Parsed<Builtin>)
    ensures r.Ok? ==> |r.rest| < |s|
  {
    if s == "" then Fail
    else
      match s[0]
      case 'v' => Ok(Void, s[1..])
      case 'b' => Ok(Boolean, s[1..])
      case 'h' => Ok(UInt8, s[1..])
      case 'a' => Ok(Int8, s[1..])
      case 't' => Ok(UInt16, s[1..])
      case 's' => Ok(Int16, s[1..])
      case 'j' => Ok(UInt32, s[1..])
      case 'i' => Ok(Int32, s[1..])
      case 'y' => Ok(UInt64, s[1..])
      case 'x' => Ok(Int64, s[1..])
      case 'f' => Ok(Float32, s[1..])
      case 'd' => Ok(Float64, s[1..])
      case 'D' => if Starts(s[1..], 'h') then Ok(Float16, s[2..]) else Fail
      case _ => Fail
  }

  /** "Li" number "E" */
  function ParseInt(s: string): (r: Parsed<int>)
    ensures r.Ok? ==> |r.rest| < |s|
  {
    if !Starts(s, 'L') || !Starts(s[1..], 'i') then Fail
    else
      var negative := Starts(s[2..], '-');
      var n := ParseNat(if negative then s[3..] else s[2..]);
      if n.Ok? && Starts(n.rest, 'E') then Ok(if negative then 0 - n.value else n.value, n.rest[1..]) else Fail
  }

  /** One identifier: a single part, or "N" and several; open says whether "E" is due. */
  function ParseName(s: string): (r: Parsed<(string, bool)>)
    ensures r.Ok? ==> |r.rest| < |s| && WfIdent(r.value.0)
  {
    if Starts(s, 'N') then
      var p := ParseParts(s[1..]);
      if p.Ok? && |p.value| > 1 then
        SplitJoin(p.value);
        Ok((Join(p.value), true), p.rest)
      else Fail
    else
      var p := ParsePart(s);
      if p.Ok? then
        SplitJoin([p.value]);
        Ok((p.value, false), p.rest)
      else Fail
  }

  function ParseClose(s: string, open: bool): (r: Parsed<()>)
    ensures r.Ok? ==> |r.rest| <= |s|
  {
    if !open then Ok((), s) else if Starts(s, 'E') then Ok((), s[1..]) else Fail
  }

  function ParsePlain(s: string): (r: Parsed<Plain>)
    ensures r.Ok? ==> |r.rest| < |s| && WfPlain(r.value)
    decreases |s|, 0
  {
    if Starts(s, 'L') then
      var n := ParseInt(s);
      if n.Ok? then Ok(IntLit(n.value), n.rest) else Fail
    else if StartsWithDigit(s) || Starts(s, 'N') then
      var name := ParseName(s);
      if name.Fail? then Fail
      else
        var params := if Starts(name.rest, 'I') then ParseParams(name.rest[1..]) else Ok([], name.rest);
        if params.Fail? then Fail
        else
          var close := ParseClose(params.rest, name.value.1);
          if close.Fail? then Fail else Ok(Named(name.value.0, params.value), close.rest)
    else
      var c := ParseCode(s);
      if c.Ok? then Ok(Basic(c.value), c.rest) else Fail
  }

  function ParseSpace(s: string): (r: Parsed<Option<nat>>)
    ensures r.Ok? ==> |r.rest| <= |s|
  {
    if !Starts(s, 'U') then Ok(None, s)
    else
      var p := ParsePart(s[1..]);
      if p.Ok? && |p.value| > 2 && p.value[..2] == "AS" then
        var n := ParseNat(p.value[2..]);
        if n.Ok? && n.rest == "" then Ok(Some(n.value), p.rest) else Fail
      else Fail
  }

  function ParseArg(s: string): (r: Parsed<Arg>)
    ensures r.Ok? ==> |r.rest| < |s| && WfArg(r.value)
    decreases |s|, 1
  {
    if Starts(s, 'P') then
      var space := ParseSpace(s[1..]);
      if space.Fail? then Fail
      else
        var p := ParsePlain(space.rest);
        if p.Ok? then Ok(Pointer(space.value, p.value), p.rest) else Fail
    else
      var p := ParsePlain(s);
      if p.Ok? then Ok(Value(p.value), p.rest) else Fail
  }

  /** Template parameters up to and including "E". */
  function ParseParams(s: string): (r: Parsed<seq<Arg>>)
    ensures r.Ok? ==> |r.rest| < |s| && WfArgs(r.value)
    decreases |s|, 2
  {
    if Starts(s, 'E') then Ok([], s[1..])
    else
      var a := ParseArg(s);
      if a.Fail? then Fail
      else
        var q := ParseParams(a.rest);
        if q.Fail? then Fail else Ok([a.value] + q.value, q.rest)
  }

  function ParseArgs(s: string): (r: Option<seq<Arg>>)
    ensures r.Some? ==> WfArgs(r.value)
    decreases |s|
  {
    if s == "" then Some([])
    else
      var a := ParseArg(s);
      if a.Fail? then None
      else
        var q := ParseArgs(a.rest);
        if q.None? then None else Some([a.value] + q.value)
  }

  function Demangle(s: string): (r: Option<Signature>)
    ensures r.Some? ==> WfSignature(r.value)
  {
    if |s| < 2 || s[..2] != "_Z" then None
    else
      var name := ParseName(s[2..]);
      if name.Fail? then None
      else
        var tags := ParseTags(name.rest);
        if tags.Fail? then None
        else
          var close := ParseClose(tags.rest, name.value.1);
          if close.Fail? then None
          else
            var args := ParseArgs(close.rest);
            if args.None? then None else Some(Signature(name.value.0, tags.value, args.value))
  }

  // ----- dots -----

  lemma {:induction false} JoinSplit(s: string)
    ensures Join(Split(s)) == s
  {
    if s != "" {
      JoinSplit(s[1..]);
      var rest := Split(s[1..]);
      if s[0] == '.' {
        assert ([""] + rest)[1..] == rest;
      } else {
        assert ([[s[0]] + rest[0]] + rest[1..])[1..] == rest[1..];
        assert [s[0]] + s[1..] == s;
        assert |rest| > 1 ==> [s[0]] + (rest[0] + "." + Join(rest[1..])) == ([s[0]] + rest[0]) + "." + Join(rest[1..]);
      }
    }
  }

  lemma {:induction false} SplitDotless(s: string, t: string)
    requires forall i :: 0 <= i < |s| ==> s[i] != '.'
    ensures Split(s + t) == [s + Split(t)[0]] + Split(t)[1..]
  {
    var u := Split(t);
    if s == "" {
      assert s + t == t;
      assert s + u[0] == u[0];
      assert u == [u[0]] + u[1..];
    } else {
      SplitDotless(s[1..], t);
      assert (s + t)[1..] == s[1..] + t;
      var rest := Split(s[1..] + t);
      assert rest[0] == s[1..] + u[0] && rest[1..] == u[1..];
      assert Split(s + t) == [[s[0]] + rest[0]] + rest[1..];
      assert [s[0]] + (s[1..] + u[0]) == s + u[0];
    }
  }

  lemma {:induction false} SplitJoin(parts: seq<string>)
    requires |parts| > 0 && WfParts(parts)
    ensures Split(Join(parts)) == parts
    ensures WfIdent(Join(parts))
  {
    var p := parts[0];
    assert forall i :: 0 <= i < |p| ==> IsPlainChar(p[i]);
    if |parts| == 1 {
      SplitDotless(p, "");
      assert p + "" == p;
    } else {
      SplitJoin(parts[1..]);
      var t := "." + Join(parts[1..]);
      SplitDotless(p, t);
      assert t[1..] == Join(parts[1..]);
      assert Split(t) == [""] + parts[1..];
      assert Join(parts) == p + t;
      assert p + "" == p && Split(t)[0] == "" && Split(t)[1..] == parts[1..];
    }
  }

  // ----- reading back numbers and parts -----

  lemma {:induction false} ReadDigits(n: nat, s: string)
    ensures ParseDigits(Decimal(n) + s, 0) == ParseDigits(s, n)
  {
    if n < 10 {
      assert (Decimal(n) + s)[1..] == s;
    } else {
      var d := ['0' + (n % 10) as char];
      ReadDigits(n / 10, d + s);
      assert Decimal(n) + s == Decimal(n / 10) + (d + s);
      assert (d + s)[1..] == s;
    }
  }

  lemma {:induction false} NoLeadingZero(n: nat)
    requires n > 0
    ensures Decimal(n)[0] != '0'
  {
    if n >= 10 { NoLeadingZero(n / 10); }
  }

  lemma ReadNat(n: nat, s: string)
    requires n > 0 ==> !StartsWithDigit(s)
    ensures ParseNat(Decimal(n) + s) == Ok(n, s)
  {
    var t := Decimal(n) + s;
    assert t[0] == Decimal(n)[0];
    if n == 0 {
      assert t[1..] == s;
      return;
    }
    NoLeadingZero(n);
    ReadDigits(n, s);
    assert ParseDigits(t, 0) == ParseDigits(t[1..], t[0] as int - '0' as int);
  }

  lemma {:induction false} EscapePlain(s: string)
    requires forall i :: 0 <= i < |s| ==> IsPlainChar(s[i])
    ensures Escape(s) == s
  {
    if s != "" { EscapePlain(s[1..]); }
  }

  lemma ReadPart(p: string, s: string)
    requires WfPart(p)
    ensures ParsePart(LenEncoded(Escape(p)) + s) == Ok(p, s)
    ensures StartsWithDigit(LenEncoded(Escape(p)) + s)
  {
    EscapePlain(p);
    var t := Decimal(|p|) + (p + s);
    assert LenEncoded(p) + s == t;
    if p != "" { assert (p + s)[0] == p[0]; }
    ReadNat(|p|, p + s);
    assert (p + s)[..|p|] == p && (p + s)[|p|..] == s;
    assert t[0] == Decimal(|p|)[0];
  }

  lemma {:induction false} ReadParts(parts: seq<string>, s: string)
    requires WfParts(parts) && !StartsWithDigit(s)
    ensures ParseParts(EncodeParts(parts) + s) == Ok(parts, s)
  {
    hide ParsePart, LenEncoded, Escape, WfPart;
    if parts == [] {
      assert EncodeParts(parts) + s == s;
    } else {
      var rest := EncodeParts(parts[1..]) + s;
      ReadParts(parts[1..], s);
      ReadPart(parts[0], rest);
      assert EncodeParts(parts) + s == LenEncoded(Escape(parts[0])) + rest;
      assert [parts[0]] + parts[1..] == parts;
    }
  }

  lemma {:induction false} ReadTags(tags: seq<string>, s: string)
    requires WfParts(tags) && !Starts(s, 'B')
    ensures ParseTags(EncodeTags(tags) + s) == Ok(tags, s)
  {
    hide ParsePart, LenEncoded, Escape, WfPart;
    if tags == [] {
      assert EncodeTags(tags) + s == s;
    } else {
      var rest := EncodeTags(tags[1..]) + s;
      ReadTags(tags[1..], s);
      ReadPart(tags[0], rest);
      assert EncodeTags(tags) + s == "B" + (LenEncoded(Escape(tags[0])) + rest);
      assert ("B" + (LenEncoded(Escape(tags[0])) + rest))[1..] == LenEncoded(Escape(tags[0])) + rest;
      assert [tags[0]] + tags[1..] == tags;
    }
  }

  /** What closes an identifier: "E" if it has several parts. */
  function Closing(ident: string): string { if |Split(ident)| > 1 then "E" else "" }

  /** The identifier itself, without extras and closing. */
  function Opening(ident: string): string {
    var parts := Split(ident);
    if |parts| > 1 then "N" + EncodeParts(parts) else EncodeParts(parts)
  }

  lemma MangleIdentShape(ident: string, extras: string)
    ensures MangleIdent(ident, extras) == Opening(ident) + extras + Closing(ident)
  {
    var parts := Split(ident);
    if |parts| > 1 {
      assert "N" + EncodeParts(parts) + extras + "E" == ("N" + EncodeParts(parts)) + extras + "E";
    } else {
      assert EncodeParts(parts) + extras == EncodeParts(parts) + extras + "";
    }
  }

  lemma ReadName(ident: string, s: string)
    requires WfIdent(ident) && (|Split(ident)| > 1 ==> !StartsWithDigit(s))
    ensures ParseName(Opening(ident) + s) == Ok((ident, |Split(ident)| > 1), s)
    ensures StartsWithDigit(Opening(ident) + s) || Starts(Opening(ident) + s, 'N')
  {
    hide ParsePart, LenEncoded, Escape, WfPart, ParseParts, Split, IsPlainChar;
    var parts := Split(ident);
    JoinSplit(ident);
    if |parts| > 1 {
      ReadParts(parts, s);
      var t := "N" + (EncodeParts(parts) + s);
      assert Opening(ident) + s == t;
      assert t[1..] == EncodeParts(parts) + s;
    } else {
      SinglePart(parts);
      ReadPart(parts[0], s);
      assert parts[0] == ident;
    }
  }

  lemma SinglePart(parts: seq<string>)
    requires |parts| == 1
    ensures EncodeParts(parts) == LenEncoded(Escape(parts[0]))
  {
    assert EncodeParts(parts[1..]) == "";
  }

  lemma ReadClose(ident: string, s: string)
    ensures ParseClose(Closing(ident) + s, |Split(ident)| > 1) == Ok((), s)
  {
    if |Split(ident)| <= 1 { assert Closing(ident) + s == s; }
  }

  // ----- reading back types and symbols -----

  lemma ReadCode(b: Builtin, s: string)
    ensures ParsePlain(Code(b) + s) == Ok(Basic(b), s)
  {
  }

  lemma ReadInt(n: int, s: string)
    ensures ParseInt(MangleInt(n) + s) == Ok(n, s)
    ensures Starts(MangleInt(n) + s, 'L')
  {
    hide Decimal, ParseNat;
    var k := if n < 0 then -n else n;
    var digits := Decimal(k) + ("E" + s);
    ReadNat(k, "E" + s);
    assert ("E" + s)[1..] == s;
    assert digits[0] == Decimal(k)[0];
    var t := (if n < 0 then "Li-" else "Li") + digits;
    assert MangleInt(n) + s == t;
    assert t[1..][0] == 'i';
    if n < 0 {
      assert t[2..][0] == '-' && t[3..] == digits;
    } else {
      assert t[2..] == digits;
    }
  }

  /** What can come first in a printed argument: never "I" or "E". */
  predicate ArgStart(s: string) {
    s != "" && s[0] != 'I' && s[0] != 'E'
  }

  lemma PlainStart(p: Plain)
    requires WfPlain(p)
    ensures ArgStart(ManglePlain(p))
  {
    if p.Named? {
      var extras := if p.params == [] then "" else "I" + MangleArgs(p.params) + "E";
      MangleIdentShape(p.ident, extras);
      OpeningStart(p.ident);
    }
  }

  lemma OpeningStart(ident: string)
    requires WfIdent(ident)
    ensures ArgStart(Opening(ident))
  {
    var parts := Split(ident);
    if |parts| == 1 {
      SinglePart(parts);
      ReadPart(parts[0], "");
      assert Opening(ident) + "" == Opening(ident);
    }
  }

  lemma ArgsFollow(args: seq<Arg>, s: string)
    requires WfArgs(args) && !Starts(s, 'I')
    ensures !Starts(MangleArgs(args) + s, 'I')
  {
    if args == [] {
      assert MangleArgs(args) + s == s;
    } else {
      ArgStarts(args[0]);
      assert (MangleArgs(args) + s)[0] == MangleArg(args[0])[0];
    }
  }

  lemma ArgStarts(a: Arg)
    requires WfArg(a)
    ensures ArgStart(MangleArg(a))
  {
    if a.Value? { PlainStart(a.v); }
  }

  lemma {:induction false} ReadPlain(p: Plain, s: string)
    requires WfPlain(p) && !Starts(s, 'I')
    ensures ParsePlain(ManglePlain(p) + s) == Ok(p, s)
    decreases p, 0
  {
    match p
    case Basic(b) => ReadCode(b, s);
    case IntLit(n) =>
      hide MangleInt, ParseInt;
      ReadInt(n, s);
    case Named(ident, params) =>
      if params == [] {
        ReadNamed(ident, "", params, s);
      } else {
        ReadParams(params, Closing(ident) + s);
        ReadNamed(ident, "I" + MangleArgs(params) + "E", params, s);
      }
  }

  lemma ReadNamed(ident: string, extras: string, params: seq<Arg>, s: string)
    requires WfIdent(ident) && WfArgs(params) && !Starts(s, 'I')
    requires extras == if params == [] then "" else "I" + MangleArgs(params) + "E"
    requires params != [] ==> ParseParams(MangleArgs(params) + "E" + (Closing(ident) + s)) == Ok(params, Closing(ident) + s)
    ensures ParsePlain(MangleIdent(ident, extras) + s) == Ok(Named(ident, params), s)
  {
    hide ParseParams, ParseName, ParsePlain, MangleArgs, Opening, WfIdent, ParseClose, MangleIdent, WfArgs;
    var rest := Closing(ident) + s;
    var t := extras + rest;
    hide Closing, LenEncoded, Split;
    NamedShape(ident, extras, s);
    ClosingFollows(ident, s);
    if params == [] { assert t == rest; }
    ReadName(ident, t);
    ReadClose(ident, s);
    NotLiteral(ident, t);
    if params != [] { assert t[1..] == MangleArgs(params) + "E" + rest; }
    NamedIsRead(Opening(ident) + t, ident, |Split(ident)| > 1, t, params, rest, s);
  }

  lemma NamedShape(ident: string, extras: string, s: string)
    ensures MangleIdent(ident, extras) + s == Opening(ident) + (extras + (Closing(ident) + s))
  {
    hide Opening, Closing, MangleIdent;
    MangleIdentShape(ident, extras);
    assert Opening(ident) + extras + Closing(ident) + s == Opening(ident) + (extras + (Closing(ident) + s));
  }

  lemma ClosingFollows(ident: string, s: string)
    requires !Starts(s, 'I')
    ensures !Starts(Closing(ident) + s, 'I')
    ensures |Split(ident)| > 1 ==> !StartsWithDigit(Closing(ident) + s)
  {
    if |Split(ident)| <= 1 { assert Closing(ident) + s == s; }
  }

  /** The reader's path through a name, its parameters and its closing. */
  lemma NamedIsRead(u: string, ident: string, open: bool, t: string, params: seq<Arg>, rest: string, s: string)
    requires (StartsWithDigit(u) || Starts(u, 'N')) && !Starts(u, 'L') && ParseName(u) == Ok((ident, open), t)
    requires if Starts(t, 'I') then ParseParams(t[1..]) == Ok(params, rest) else params == [] && t == rest
    requires ParseClose(rest, open) == Ok((), s)
    ensures ParsePlain(u) == Ok(Named(ident, params), s)
  {
    hide ParseName, ParseClose, ParseInt, ParseCode;
  }

  lemma NotLiteral(ident: string, t: string)
    requires StartsWithDigit(Opening(ident) + t) || Starts(Opening(ident) + t, 'N')
    ensures !Starts(Opening(ident) + t, 'L')
  {
  }

  lemma {:induction false} ReadParams(args: seq<Arg>, s: string)
    requires WfArgs(args)
    ensures ParseParams(MangleArgs(args) + "E" + s) == Ok(args, s)
    decreases args, 0
  {
    if args == [] {
      assert MangleArgs(args) + "E" + s == "E" + s;
      assert ("E" + s)[1..] == s;
    } else {
      hide ParseArg, ParseParams, MangleArg, ArgStart;
      var rest := MangleArgs(args[1..]) + "E" + s;
      assert rest == MangleArgs(args[1..]) + ("E" + s);
      ArgsFollow(args[1..], "E" + s);
      ReadArg(args[0], rest);
      ReadParams(args[1..], s);
      NoParamsEnd(args[0], rest);
      assert MangleArgs(args) + "E" + s == MangleArg(args[0]) + rest;
      NextParam(MangleArg(args[0]) + rest, args[0], rest, args[1..], s);
      assert [args[0]] + args[1..] == args;
    }
  }

  lemma NoParamsEnd(a: Arg, rest: string)
    requires WfArg(a)
    ensures !Starts(MangleArg(a) + rest, 'E')
  {
    ArgStarts(a);
    assert (MangleArg(a) + rest)[0] == MangleArg(a)[0];
  }

  lemma NextParam(t: string, a: Arg, rest: string, args: seq<Arg>, s: string)
    requires !Starts(t, 'E') && ParseArg(t) == Ok(a, rest) && ParseParams(rest) == Ok(args, s)
    ensures ParseParams(t) == Ok([a] + args, s)
  {
    hide ParseArg;
  }

  lemma {:induction false} ReadArg(a: Arg, s: string)
    requires WfArg(a) && !Starts(s, 'I')
    ensures ParseArg(MangleArg(a) + s) == Ok(a, s)
    decreases a, 1
  {
    if a.Value? {
      ReadPlain(a.v, s);
      PlainIsNoPointer(a.v);
      assert (ManglePlain(a.v) + s)[0] == ManglePlain(a.v)[0];
    } else {
      ReadPlain(a.pointee, s);
      ReadPointer(a.space, a.pointee, s);
    }
  }

  lemma ReadPointer(space: Option<nat>, p: Plain, s: string)
    requires WfPlain(p) && ParsePlain(ManglePlain(p) + s) == Ok(p, s)
    ensures ParseArg(MangleArg(Pointer(space, p)) + s) == Ok(Pointer(space, p), s)
  {
    hide ParsePlain, ManglePlain, ParseSpace, WfPlain, MangleArg, SpaceCode;
    PlainIsNoPointer(p);
    var rest := ManglePlain(p) + s;
    assert rest[0] == ManglePlain(p)[0];
    PointerShape(space, p);
    var t := "P" + (SpaceCode(space) + rest);
    assert MangleArg(Pointer(space, p)) + s == t;
    ReadSpace(space, rest);
    assert t[1..] == SpaceCode(space) + rest;
  }

  lemma PointerShape(space: Option<nat>, p: Plain)
    ensures MangleArg(Pointer(space, p)) == "P" + SpaceCode(space) + ManglePlain(p)
  {
    hide ManglePlain, MangleIdent;
    if space == None {
      assert "P" + "" + ManglePlain(p) == "P" + ManglePlain(p);
    } else {
      var c := MangleIdent("AS" + Decimal(space.value), "");
      assert "P" + "U" + c == "P" + ("U" + c);
    }
  }

  function SpaceCode(space: Option<nat>): string {
    match space
    case None => ""
    case Some(n) => "U" + MangleIdent("AS" + Decimal(n), "")
  }

  lemma PlainIsNoPointer(p: Plain)
    requires WfPlain(p)
    ensures ManglePlain(p) != "" && ManglePlain(p)[0] != 'P' && ManglePlain(p)[0] != 'U'
  {
    if p.Named? {
      var extras := if p.params == [] then "" else "I" + MangleArgs(p.params) + "E";
      MangleIdentShape(p.ident, extras);
      ReadName(p.ident, "E");
      OpeningStart(p.ident);
      assert (Opening(p.ident) + "E")[0] == Opening(p.ident)[0];
    }
  }

  lemma ReadSpace(space: Option<nat>, s: string)
    requires !Starts(s, 'U')
    ensures ParseSpace(SpaceCode(space) + s) == Ok(space, s)
  {
    match space
    case None => assert SpaceCode(space) + s == s;
    case Some(n) =>
      var part := "AS" + Decimal(n);
      DecimalDigits(n);
      assert WfPart(part);
      SplitDotless(part, "");
      assert part + "" == part;
      assert Split(part) == [part];
      SinglePart([part]);
      var code := LenEncoded(Escape(part));
      assert MangleIdent(part, "") == code;
      ReadPart(part, s);
      assert SpaceCode(space) + s == "U" + (code + s);
      assert ("U" + (code + s))[1..] == code + s;
      ReadNat(n, "");
      assert Decimal(n) + "" == Decimal(n) && part[2..] == Decimal(n) && part[..2] == "AS";
  }

  lemma {:induction false} DecimalDigits(n: nat)
    ensures forall i :: 0 <= i < |Decimal(n)| ==> IsDigit(Decimal(n)[i])
  {
    if n >= 10 { DecimalDigits(n / 10); }
  }

  lemma {:induction false} ReadArgs(args: seq<Arg>)
    requires WfArgs(args)
    ensures ParseArgs(MangleArgs(args)) == Some(args)
  {
    if args != [] {
      var rest := MangleArgs(args[1..]);
      ArgsFollow(args[1..], "");
      assert rest + "" == rest;
      ReadArg(args[0], rest);
      ReadArgs(args[1..]);
      ArgStarts(args[0]);
      assert [args[0]] + args[1..] == args;
    }
  }

  /** Nothing printed for arguments can be taken for an ABI tag. */
  lemma ArgsAreNoTag(args: seq<Arg>, s: string)
    requires WfArgs(args) && !Starts(s, 'B')
    ensures !Starts(MangleArgs(args) + s, 'B')
  {
    if args == [] {
      assert MangleArgs(args) + s == s;
    } else {
      ArgIsNoTag(args[0]);
      assert (MangleArgs(args) + s)[0] == MangleArg(args[0])[0];
    }
  }

  lemma ArgIsNoTag(a: Arg)
    requires WfArg(a)
    ensures MangleArg(a) != "" && MangleArg(a)[0] != 'B'
  {
    if a.Value? && a.v.Named? {
      var p := a.v;
      var extras := if p.params == [] then "" else "I" + MangleArgs(p.params) + "E";
      MangleIdentShape(p.ident, extras);
      ReadName(p.ident, "E");
      OpeningStart(p.ident);
      assert (Opening(p.ident) + "E")[0] == Opening(p.ident)[0];
    }
  }

  lemma ReadSignature(s: Signature)
    requires WfSignature(s)
    ensures Demangle(Mangle(s)) == Some(s)
  {
    hide ParseName, ParseTags, ParseArgs, Opening, MangleArgs, EncodeTags, MangleIdent;
    var args := MangleArgs(s.args);
    var rest := Closing(s.ident) + args;
    var t := EncodeTags(s.tags) + rest;
    var u := Opening(s.ident) + t;
    MangleIdentShape(s.ident, EncodeTags(s.tags));
    assert Mangle(s) == "_Z" + u;
    assert ("_Z" + u)[..2] == "_Z" && ("_Z" + u)[2..] == u;
    if |Split(s.ident)| > 1 { TagsStart(s.tags, rest); }
    ArgsAreNoTag(s.args, "");
    assert args + "" == args;
    assert !Starts(rest, 'B') by {
      if |Split(s.ident)| <= 1 { assert rest == args; }
    }
    ReadName(s.ident, t);
    ReadTags(s.tags, rest);
    ReadClose(s.ident, args);
    ReadArgs(s.args);
  }

  lemma TagsStart(tags: seq<string>, s: string)
    requires !StartsWithDigit(s) || tags != []
    ensures !StartsWithDigit(EncodeTags(tags) + s)
  {
    if tags == [] {
      assert EncodeTags(tags) + s == s;
    } else {
      assert (EncodeTags(tags) + s)[0] == 'B';
    }
  }

  // ----- which signatures share a symbol -----

  /** What the printer makes of a part of a name. */
  function CanonPart(s: string): string { FixLeadDigit(Escape(s)) }

  function CanonParts(parts: seq<string>): (r: seq<string>)
    ensures |r| == |parts|
  {
    seq(|parts|, i requires 0 <= i < |parts| => CanonPart(parts[i]))
  }

  function CanonIdent(ident: string): string { Join(CanonParts(Split(ident))) }

  function CanonPlain(p: Plain): Plain
    decreases p, 0
  {
    match p
    case Named(ident, params) => Named(CanonIdent(ident), CanonArgs(params))
    case _ => p
  }

  function CanonArg(a: Arg): Arg
    decreases a, 1
  {
    match a
    case Value(p) => Value(CanonPlain(p))
    case Pointer(space, p) => Pointer(space, CanonPlain(p))
  }

  function CanonArgs(args: seq<Arg>): (r: seq<Arg>)
    ensures |r| == |args|
    decreases args, 0
  {
    if args == [] then [] else [CanonArg(args[0])] + CanonArgs(args[1..])
  }

  /** The signature with every part and tag, at every level, as it is printed. */
  function Canonical(s: Signature): Signature {
    Signature(CanonIdent(s.ident), CanonParts(s.tags), CanonArgs(s.args))
  }

  lemma {:induction false} EscapedIsPlain(s: string)
    ensures forall i :: 0 <= i < |Escape(s)| ==> IsPlainChar(Escape(s)[i])
  {
    if s != "" {
      EscapedIsPlain(s[1..]);
      EscapedCharIsPlain(s[0]);
    }
  }

  lemma EscapedCharIsPlain(c: char)
    ensures forall i :: 0 <= i < |EscapeChar(c)| ==> IsPlainChar(EscapeChar(c)[i])
  {
    forall n | 0 <= n < 256 ensures IsPlainChar(HexByte(n)[0]) && IsPlainChar(HexByte(n)[1]) && IsPlainChar(HexByte(n)[2]) {
      HexIsPlain(n / 16);
      HexIsPlain(n % 16);
    }
  }

  lemma HexIsPlain(n: nat)
    requires n < 16
    ensures IsPlainChar(HexDigit(n))
  {}

  lemma CanonPartIsWf(s: string)
    ensures WfPart(CanonPart(s))
  {
    EscapedIsPlain(s);
    var t := Escape(s);
    assert forall i :: 1 <= i < |"_" + t| ==> ("_" + t)[i] == t[i - 1];
  }

  /** Printing a part and printing its canonical form is the same. */
  lemma CanonPartPrints(s: string)
    ensures LenEncoded(Escape(CanonPart(s))) == LenEncoded(Escape(s))
  {
    CanonPartIsWf(s);
    EscapePlain(CanonPart(s));
  }

  lemma {:induction false} CanonPartsPrint(parts: seq<string>)
    ensures WfParts(CanonParts(parts))
    ensures EncodeParts(CanonParts(parts)) == EncodeParts(parts) && EncodeTags(CanonParts(parts)) == EncodeTags(parts)
  {
    hide CanonPart, LenEncoded, Escape, WfPart;
    forall i | 0 <= i < |parts| ensures WfPart(CanonPart(parts[i])) { CanonPartIsWf(parts[i]); }
    if parts != [] {
      CanonPartPrints(parts[0]);
      CanonPartsPrint(parts[1..]);
      assert CanonParts(parts)[1..] == CanonParts(parts[1..]);
    }
  }

  lemma CanonIdentPrints(ident: string, extras: string)
    ensures WfIdent(CanonIdent(ident)) && MangleIdent(CanonIdent(ident), extras) == MangleIdent(ident, extras)
  {
    hide CanonParts, Split, Join, EncodeParts, WfParts;
    CanonPartsPrint(Split(ident));
    SplitJoin(CanonParts(Split(ident)));
  }

  lemma {:induction false} CanonPlainPrints(p: Plain)
    ensures WfPlain(CanonPlain(p)) && ManglePlain(CanonPlain(p)) == ManglePlain(p)
    decreases p, 0
  {
    hide CanonIdent, MangleIdent, WfIdent;
    if p.Named? {
      CanonArgsPrint(p.params);
      CanonIdentPrints(p.ident, if p.params == [] then "" else "I" + MangleArgs(p.params) + "E");
    }
  }

  lemma {:induction false} CanonArgPrints(a: Arg)
    ensures WfArg(CanonArg(a)) && MangleArg(CanonArg(a)) == MangleArg(a)
    decreases a, 1
  {
    match a
    case Value(p) => CanonPlainPrints(p);
    case Pointer(_, p) => CanonPlainPrints(p);
  }

  lemma {:induction false} CanonArgsPrint(args: seq<Arg>)
    ensures WfArgs(CanonArgs(args)) && MangleArgs(CanonArgs(args)) == MangleArgs(args)
    decreases args, 0
  {
    hide CanonPlain, ManglePlain, WfPlain;
    if args != [] {
      CanonArgPrints(args[0]);
      CanonArgsPrint(args[1..]);
      assert CanonArgs(args)[1..] == CanonArgs(args[1..]);
    }
  }

  /** The symbol is that of the canonical signature, which is well-formed. */
  lemma CanonicalPrints(s: Signature)
    ensures WfSignature(Canonical(s)) && Mangle(Canonical(s)) == Mangle(s)
  {
    hide CanonIdent, CanonParts, CanonArgs, MangleIdent, MangleArgs, EncodeTags, WfIdent, WfParts, WfArgs;
    CanonIdentPrints(s.ident, EncodeTags(s.tags));
    CanonPartsPrint(s.tags);
    CanonArgsPrint(s.args);
  }

  /** Reading any symbol back gives the canonical signature; that is the signature
      itself exactly if it has nothing to escape and no leading digit. */
  lemma RoundTrip(s: Signature)
    ensures Demangle(Mangle(s)) == Some(Canonical(s))
    ensures Canonical(s) == s <==> WfSignature(s)
    ensures Demangle(Mangle(s)) == Some(s) <==> WfSignature(s)
  {
    CanonicalPrints(s);
    ReadSignature(Canonical(s));
    if WfSignature(s) { ReadSignature(s); }
  }

  /** Two signatures share a symbol exactly if they have one canonical form. */
  lemma SameSymbol(s: Signature, t: Signature)
    ensures Mangle(s) == Mangle(t) <==> Canonical(s) == Canonical(t)
  {
    hide Mangle, Canonical, Demangle;
    CanonicalPrints(s);
    CanonicalPrints(t);
    RoundTrip(s);
    RoundTrip(t);
  }

  /** So two well-formed signatures never do. */
  lemma MangleIsInjective(s: Signature, t: Signature)
    requires WfSignature(s) && WfSignature(t) && Mangle(s) == Mangle(t)
    ensures s == t
  {
    hide Mangle, Canonical, Demangle, WfSignature;
    SameSymbol(s, t);
    RoundTrip(s);
    RoundTrip(t);
  }

  lemma CanonOfOne(s: string)
    requires forall i :: 0 <= i < |s| ==> s[i] != '.'
    ensures Canonical(Signature(s, [], [])) == Signature(CanonPart(s), [], [])
    ensures WfSignature(Signature(s, [], [])) <==> WfPart(s)
  {
    hide CanonPart, WfPart;
    SplitOfOne(s);
    assert CanonParts([s]) == [CanonPart(s)];
    assert Join([CanonPart(s)]) == CanonPart(s);
  }

  /** The underscore put before a leading digit makes two names one ... */
  lemma LeadingDigitCollides()
    ensures Mangle(Signature("1a", [], [])) == Mangle(Signature("_1a", [], []))
    ensures !WfSignature(Signature("1a", [], []))
  {
    hide Mangle, Canonical, Split, WfSignature;
    CanonOfOne("1a");
    CanonOfOne("_1a");
    SameSymbol(Signature("1a", [], []), Signature("_1a", [], []));
    EscapePlain("1a");
    EscapePlain("_1a");
    assert "_" + "1a" == "_1a";
  }

  /** ... and so does the escape character, which is not escaped itself. */
  lemma EscapeCollides()
    ensures Mangle(Signature("a b", [], [])) == Mangle(Signature("a_20b", [], []))
    ensures !WfSignature(Signature("a b", [], []))
  {
    hide Mangle, Canonical, Split, WfSignature, Escape;
    CanonOfOne("a b");
    CanonOfOne("a_20b");
    SameSymbol(Signature("a b", [], []), Signature("a_20b", [], []));
    EscapeOfSpace();
    EscapePlain("a_20b");
    assert !IsPlainChar("a b"[1]);
  }

  lemma EscapeOfSpace()
    ensures Escape("a b") == "a_20b"
  {
    assert "a b"[1..] == " b" && " b"[1..] == "b";
    EscapePlain("b");
    assert EscapeChar(' ') == "_20";
    assert EscapeChar('a') == "a";
    assert Escape(" b") == "_20" + "b";
    assert Escape("a b") == "a" + ("_20" + "b");
  }

  lemma SplitOfOne(s: string)
    requires forall i :: 0 <= i < |s| ==> s[i] != '.'
    ensures Split(s) == [s]
  {
    SplitDotless(s, "");
    assert s + "" == s;
  }
}
