/**
 * The way of a name from the kernel to JavaScript and back: escaped, written
 * as a JSON string, decoded to UTF-16, parsed by JSON.parse, shown through
 * nameToBytes, and sent back as UTF-8 to be unescaped.
 */
module NameBridge {
  import opened Bytes
  import opened Utf8
  import opened NameCodec
  import opened JsonWriter

  /** A UTF-16 code unit; a JavaScript string is a sequence of them. */
  type unit = x: int | 0 <= x < 0x1_0000

  // ---- UTF-16 ------------------------------------------------------------------------

  predicate IsHigh(u: unit) { 0xD800 <= u < 0xDC00 }
  predicate IsLow(u: unit) { 0xDC00 <= u < 0xE000 }

  function Units(c: scalar): (u: seq<unit>)
    ensures 1 <= |u| <= 2
  {
    if c < 0x1_0000 then [c]
    else [0xD800 + (c - 0x1_0000) / 1024, 0xDC00 + (c - 0x1_0000) % 1024]
  }

  function UnitsAll(cs: seq<scalar>): seq<unit> {
    if cs == [] then [] else Units(cs[0]) + UnitsAll(cs[1..])
  }

  /** How many units the code point at the start of s takes, as `for (const ch of s)` steps. */
  function PointLen(s: seq<unit>): (n: nat)
    requires s != []
    ensures 1 <= n <= |s|
  {
    if |s| >= 2 && IsHigh(s[0]) && IsLow(s[1]) then 2 else 1
  }

  /** codePointAt(0): a lone surrogate is its own code point. */
  function PointAt(s: seq<unit>): int
    requires s != []
  {
    var high: int, low: int := s[0], if |s| >= 2 then s[1] else 0;
    if PointLen(s) == 2 then 0x1_0000 + (high - 0xD800) * 1024 + (low - 0xDC00) else high
  }

  lemma PointOfUnits(c: scalar, rest: seq<unit>)
    ensures PointLen(Units(c) + rest) == |Units(c)| && PointAt(Units(c) + rest) == c
  {
  }

  /** UTF-8 text handed to JavaScript by UTF8ToString. */
  function ToJs(s: seq<byte>): seq<unit>
    requires Valid(s)
  {
    UnitsAll(DecodeAll(s))
  }

  // ---- JavaScript to UTF-8 -------------------------------------------------------------

  /** A code point as TextEncoder and stringToUTF8 write it: a lone surrogate becomes U+FFFD. */
  function EncodePoint(c: int): seq<byte>
    requires 0 <= c < 0x11_0000
  {
    if 0xD800 <= c < 0xE000 then [0xEF, 0xBF, 0xBD] else Encode(c)
  }

  function FromJs(s: seq<unit>): seq<byte> {
    if s == [] then [] else EncodePoint(PointAt(s)) + FromJs(s[PointLen(s)..])
  }

  /** isEscape */
  predicate IsEscapePoint(c: int) { 0xEF80 <= c <= 0xEFFF }

  /** The bytes one code point of a shown name stands for. */
  function PointBytes(c: int): seq<byte>
    requires 0 <= c < 0x11_0000
  {
    if IsEscapePoint(c) then [c - 0xEF00] else EncodePoint(c)
  }

  function NameBytes(s: seq<unit>): seq<byte> {
    if s == [] then [] else PointBytes(PointAt(s)) + NameBytes(s[PointLen(s)..])
  }

  /** nameToBytes of names.ts. */
  method NameToBytes(name: seq<unit>) returns (out: seq<byte>)
    ensures out == NameBytes(name)
  {
    out := [];
    var i := 0;
    while i < |name|
      invariant 0 <= i <= |name| && out + NameBytes(name[i..]) == NameBytes(name)
      decreases |name| - i
    {
      var rest := name[i..];
      var cp := PointAt(rest);
      assert rest[PointLen(rest)..] == name[i + PointLen(rest)..];
      assert out + NameBytes(rest) == out + PointBytes(cp) + NameBytes(name[i + PointLen(rest)..]);
      if IsEscapePoint(cp) {
        out := out + [cp - 0xEF00];
      } else {
        out := out + EncodePoint(cp);
      }
      i := i + PointLen(rest);
    }
    assert name[i..] == [];
  }

  /** Text that came out of ToJs goes back to the same bytes. */
  lemma {:induction false} FromJsToJs(cs: seq<scalar>)
    ensures FromJs(UnitsAll(cs)) == EncodeAll(cs)
  {
    if cs != [] {
      var rest := UnitsAll(cs[1..]);
      PointOfUnits(cs[0], rest);
      assert (Units(cs[0]) + rest)[|Units(cs[0])|..] == rest;
      FromJsToJs(cs[1..]);
    }
  }

  // ---- nameToBytes agrees with anyfs_name_unescape -----------------------------------------

  lemma EscapePointAlone(c: scalar)
    requires !IsEscapePoint(c)
    ensures !IsEscape(Encode(c))
  {
    SplitJoin(c);
    SplitJoin(c / 64);
  }

  lemma EscapePointBytes(c: scalar, rest: seq<byte>)
    ensures IsEscape(Encode(c) + rest) <==> IsEscapePoint(c)
    ensures Unescape(Encode(c) + rest) == PointBytes(c) + Unescape(rest)
  {
    var e := Encode(c);
    SeqLenOfEncode(c, rest);
    SeqLenOfEncode(c, []);
    assert e + [] == e;
    assert IsEscape(e + rest) <==> IsEscapePoint(c) by {
      SplitJoin(c);
      SplitJoin(c / 64);
    }
    if IsEscapePoint(c) {
      assert (e + rest)[3..] == rest;
    } else {
      assert IsEscape(e) <==> IsEscape(e + []);
      EscapePointAlone(c);
      UnescapeCopied(e, rest);
      assert e[..Span(e)] == e;
    }
  }

  /** The code-point decoder and the byte decoder agree on every text. */
  lemma {:induction false} DecodersAgree(cs: seq<scalar>)
    ensures NameBytes(UnitsAll(cs)) == Unescape(EncodeAll(cs))
  {
    if cs != [] {
      var rest := UnitsAll(cs[1..]);
      PointOfUnits(cs[0], rest);
      assert (Units(cs[0]) + rest)[|Units(cs[0])|..] == rest;
      EscapePointBytes(cs[0], EncodeAll(cs[1..]));
      DecodersAgree(cs[1..]);
    }
  }

  lemma NameToBytesAgrees(s: seq<byte>)
    requires Valid(s)
    ensures NameBytes(ToJs(s)) == Unescape(s)
  {
    DecodeAllEncodes(s);
    DecodersAgree(DecodeAll(s));
  }

  // ---- JSON.parse of a string literal (section 7 of RFC 8259), on code units ---------------------

  function HexValue(u: unit): (r: Option<int>)
    ensures r.Some? ==> 0 <= r.value < 16
  {
    if 0x30 <= u <= 0x39 then Some(u - 0x30)
    else if 0x41 <= u <= 0x46 then Some(u - 0x37)
    else if 0x61 <= u <= 0x66 then Some(u - 0x57)
    else None
  }

  /** Two hexadecimal digits. */
  function Hex2(a: unit, b: unit): (r: Option<byte>) {
    if HexValue(a).Some? && HexValue(b).Some? then Some(HexValue(a).value * 16 + HexValue(b).value) else None
  }

  /** Four hexadecimal digits. */
  function Hex4(s: seq<unit>): (r: Option<unit>)
    requires |s| >= 4
  {
    var high, low := Hex2(s[0], s[1]), Hex2(s[2], s[3]);
    if high.Some? && low.Some? then
      var h: int := high.value;
      Some(h * 256 + low.value)
    else None
  }

  /** The character a two-unit escape stands for. */
  function Simple(u: unit): Option<unit> {
    if u == 0x22 || u == 0x5C || u == 0x2F then Some(u)
    else if u == 0x62 then Some(0x08)
    else if u == 0x66 then Some(0x0C)
    else if u == 0x6E then Some(0x0A)
    else if u == 0x72 then Some(0x0D)
    else if u == 0x74 then Some(0x09)
    else None
  }

  datatype Parsed = Parsed(value: seq<unit>, rest: seq<unit>)

  function Cons(u: unit, r: Option<Parsed>): Option<Parsed> {
    if r.Some? then Some(Parsed([u] + r.value.value, r.value.rest)) else None
  }

  /** The characters up to the closing quotation mark, and what follows it. */
  function ParseChars(s: seq<unit>): Option<Parsed> {
    if s == [] then None
    else if s[0] == 0x22 then Some(Parsed([], s[1..]))
    else if s[0] == 0x5C then
      if |s| >= 6 && s[1] == 0x75 then
        (if Hex4(s[2..]).Some? then Cons(Hex4(s[2..]).value, ParseChars(s[6..])) else None)
      else if |s| >= 2 && Simple(s[1]).Some? then Cons(Simple(s[1]).value, ParseChars(s[2..]))
      else None
    else if s[0] < 0x20 then None
    else Cons(s[0], ParseChars(s[1..]))
  }

  function ParseString(s: seq<unit>): Option<Parsed> {
    if s != [] && s[0] == 0x22 then ParseChars(s[1..]) else None
  }

  // ---- Parsing undoes writing ---------------------------------------------------------------

  /** What the writer's output for one character is to JavaScript. */
  function JsonUnits(c: scalar): seq<unit> {
    if c < 0x80 then JsonByte(c) else Units(c)
  }

  function JsonUnitsAll(cs: seq<scalar>): seq<unit> {
    if cs == [] then [] else JsonUnits(cs[0]) + JsonUnitsAll(cs[1..])
  }

  /** ASCII text: bytes, scalar values and code units coincide. */
  lemma {:induction false} AsciiText(a: seq<byte>)
    requires forall i | 0 <= i < |a| :: a[i] < 0x80
    ensures Valid(a) && DecodeAll(a) == a && UnitsAll(a) == a
  {
    if a != [] { AsciiText(a[1..]); }
  }

  lemma {:induction false} UnitsAllConcat(a: seq<scalar>, b: seq<scalar>)
    ensures UnitsAll(a + b) == UnitsAll(a) + UnitsAll(b)
  {
    if a == [] {
      assert a + b == b;
    } else {
      assert (a + b)[1..] == a[1..] + b;
      UnitsAllConcat(a[1..], b);
    }
  }

  /** The JSON form of one character is UTF-8, and reads as its JSON code units. */
  lemma JsonOfPoint(c: scalar)
    ensures Valid(JsonBody(Encode(c))) && ToJs(JsonBody(Encode(c))) == JsonUnits(c)
  {
    var e := Encode(c);
    if c < 0x80 {
      assert e[1..] == [];
      assert JsonBody(e) == JsonByte(c);
      AsciiText(JsonByte(c));
    } else {
      JsonBodyPlain(e);
      EncodeAllValid([c]);
      assert EncodeAll([c]) == e;
      assert UnitsAll([c]) == Units(c);
    }
  }

  lemma {:induction false} JsonOfText(cs: seq<scalar>)
    ensures Valid(JsonBody(EncodeAll(cs))) && ToJs(JsonBody(EncodeAll(cs))) == JsonUnitsAll(cs)
  {
    if cs != [] {
      var head, tail := JsonBody(Encode(cs[0])), JsonBody(EncodeAll(cs[1..]));
      JsonBodyConcat(Encode(cs[0]), EncodeAll(cs[1..]));
      JsonOfPoint(cs[0]);
      JsonOfText(cs[1..]);
      ValidConcat(head, tail);
      UnitsAllConcat(DecodeAll(head), DecodeAll(tail));
    }
  }

  /** A control character: the six-unit escape. */
  lemma ParseHex(c: scalar, rest: seq<unit>)
    requires c < 0x20 && |JsonByte(c)| == 6
    ensures ParseChars(JsonByte(c) + rest) == Cons(c, ParseChars(rest))
  {
    var j, t := JsonByte(c), JsonByte(c) + rest;
    assert t[6..] == rest;
    assert HexValue(Hex(c / 16)) == Some(c / 16) && HexValue(Hex(c % 16)) == Some(c % 16);
    assert t[2..][0] == j[2] && t[2..][1] == j[3] && t[2..][2] == j[4] && t[2..][3] == j[5];
    assert Hex4(t[2..]) == Some(c);
  }

  /** A two-unit escape or a plain ASCII character. */
  lemma ParseShort(c: scalar, rest: seq<unit>)
    requires c < 0x80 && |JsonByte(c)| < 6
    ensures ParseChars(JsonByte(c) + rest) == Cons(c, ParseChars(rest))
  {
    var j, t := JsonByte(c), JsonByte(c) + rest;
    assert t[|j|..] == rest && t[0] == j[0];
    if |j| == 2 {
      assert t[1] == j[1] && j[1] != 0x75 && Simple(j[1]) == Some(c);
    }
  }

  lemma ParseUnit(u: unit, rest: seq<unit>)
    requires u >= 0x80
    ensures ParseChars([u] + rest) == Cons(u, ParseChars(rest))
  {
    assert ([u] + rest)[1..] == rest;
  }

  lemma ParseOne(c: scalar, rest: seq<unit>, tail: Parsed)
    requires ParseChars(rest) == Some(tail)
    ensures ParseChars(JsonUnits(c) + rest) == Some(Parsed(Units(c) + tail.value, tail.rest))
  {
    if c < 0x80 {
      if |JsonByte(c)| == 6 { ParseHex(c, rest); } else { ParseShort(c, rest); }
    } else if c < 0x1_0000 {
      ParseUnit(c, rest);
    } else {
      var j := Units(c);
      ParseUnit(j[1], rest);
      ParseUnit(j[0], [j[1]] + rest);
      assert j + rest == [j[0]] + ([j[1]] + rest);
      assert [j[0]] + ([j[1]] + tail.value) == j + tail.value;
    }
  }

  lemma {:induction false} ParseWritten(cs: seq<scalar>, rest: seq<unit>)
    ensures ParseChars(JsonUnitsAll(cs) + [0x22] + rest) == Some(Parsed(UnitsAll(cs), rest))
  {
    var t := JsonUnitsAll(cs) + [0x22] + rest;
    if cs == [] {
      assert t == [0x22] + rest && t[1..] == rest;
    } else {
      var t' := JsonUnitsAll(cs[1..]) + [0x22] + rest;
      ParseWritten(cs[1..], rest);
      assert t == JsonUnits(cs[0]) + t';
      ParseOne(cs[0], t', Parsed(UnitsAll(cs[1..]), rest));
    }
  }

  /** JSON.parse of the literal jw_escape_str writes for UTF-8 text gives that text back. */
  lemma JsonRoundTrip(s: seq<byte>)
    requires Valid(s)
    ensures Valid(JsonText(s))
    ensures ParseString(ToJs(JsonText(s))) == Some(Parsed(ToJs(s), []))
  {
    var cs := DecodeAll(s);
    DecodeAllEncodes(s);
    JsonOfText(cs);
    var q: seq<byte> := [QUOTE];
    AsciiText(q);
    ValidConcat(JsonBody(s), q);
    ValidConcat(q, JsonBody(s) + q);
    assert JsonText(s) == q + (JsonBody(s) + q);
    UnitsAllConcat(DecodeAll(JsonBody(s)), q);
    UnitsAllConcat(q, DecodeAll(JsonBody(s) + q));
    var js := ToJs(JsonText(s));
    assert js == q + (JsonUnitsAll(cs) + q);
    assert js[1..] == JsonUnitsAll(cs) + [0x22] + [];
    ParseWritten(cs, []);
  }

  // ---- The whole bridge ---------------------------------------------------------------------

  /**
   * Every name survives: what JSON.parse yields for the written name shows the
   * original bytes, and the string sent back unescapes to them.
   */
  lemma NameSurvives(name: seq<byte>)
    ensures var e := Escape(name);
      && Valid(e) && Valid(JsonText(e))
      && ParseString(ToJs(JsonText(e))) == Some(Parsed(ToJs(e), []))
      && NameBytes(ToJs(e)) == name
      && FromJs(ToJs(e)) == e && Unescape(FromJs(ToJs(e))) == name
  {
    var e := Escape(name);
    EscapeValid(name);
    JsonRoundTrip(e);
    NameToBytesAgrees(e);
    RoundTrip(name);
    DecodeAllEncodes(e);
    FromJsToJs(DecodeAll(e));
  }

  /** jw_kv_name keeps a name exactly when its escape fits the fixed buffer, as any name up to 256 bytes does. */
  lemma KvNameKeepsName(v: seq<byte>)
    ensures Unescape(NameValue(v)) == v <==> |Escape(v)| < NAME_ESC_CAP
    ensures |v| <= 256 ==> Unescape(NameValue(v)) == v
  {
    RoundTrip(v);
    EscapeValid(v);
  }

  /** Bytes that are nowhere part of UTF-8 triple in length. */
  lemma {:induction false} EscapeOfHigh(v: seq<byte>)
    requires forall i | 0 <= i < |v| :: v[i] == 0xFF
    ensures |Escape(v)| == 3 * |v|
  {
    if v != [] {
      EscapeOfHigh(v[1..]);
      assert SeqLen(v) == 0 && Piece(v) == EscapeEach(v[..1]);
      EscapeEachValid(v[..1]);
    }
  }

  /** A name of 257 bytes 0xFF is dropped. */
  lemma LongNameIsDropped(v: seq<byte>)
    requires |v| == 257 && forall i | 0 <= i < |v| :: v[i] == 0xFF
    ensures NameValue(v) == [] && Unescape(NameValue(v)) != v
  {
    EscapeOfHigh(v);
    KvNameKeepsName(v);
  }

  // ---- Paths across the C boundary ------------------------------------------------------------

  const PATH_IN_CAP: nat := 16384

  /** path_in: the path as the kernel sees it, or false (NULL) exactly when it does not fit. */
  method PathIn(path: seq<byte>, tmp: array<byte>) returns (ok: bool)
    requires CString(path) && tmp.Length == PATH_IN_CAP
    modifies tmp
    ensures var u := Unescape(path[..|path| - 1]);
      && (ok <==> |u| < PATH_IN_CAP)
      && (ok ==> tmp[..|u|] == u && tmp[|u|] == 0)
  {
    var r := NameUnescape(path, tmp, PATH_IN_CAP);
    ok := r >= 0;
  }

  /**
   * escape_out: buf then holds the escape of its first n bytes, or else minus
   * the size for that is returned. Its own scratch buffer is never too small.
   */
  method EscapeOut(buf: array<byte>, n: nat, cap: nat) returns (r: int)
    requires n <= buf.Length && cap <= buf.Length && 0 !in buf[..n]
    modifies buf
    ensures var e := old(Escape(buf[..n]));
      if |e| < cap then r == |e| && buf[..|e|] == e && buf[|e|] == 0 else r == -(|e| + 1)
  {
    var raw := buf[..n] + [0];
    assert raw[..|raw| - 1] == buf[..n];
    assert CString(raw) by {
      forall i | 0 <= i < n ensures raw[i] != 0 { assert raw[i] in buf[..n]; }
    }
    var esc := new byte[3 * n + 1];
    EscapeValid(buf[..n]);
    r := NameEscape(raw, esc, 3 * n + 1);
    if r < cap {
      var text := esc[..r + 1];
      forall k | 0 <= k < r + 1 { buf[k] := text[k]; }
      assert buf[..r] == text[..r];
    } else {
      r := -(r + 1);
    }
  }
}
