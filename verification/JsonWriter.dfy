/**
 * jsonw.h: a JSON writer into a fixed buffer that keeps counting after it is
 * full, so that jw_finish can report the size the output needs.
 */
module JsonWriter {
  import opened Bytes
  import opened Utf8
  import opened NameCodec

  const QUOTE: byte := 0x22
  const BACKSLASH: byte := 0x5C

  /** A hexadecimal digit, lower case. */
  function Hex(d: int): byte
    requires 0 <= d < 16
  {
    if d < 10 then 0x30 + d else 0x57 + d
  }

  /** What jw_escape_str writes for one byte. */
  function JsonByte(c: byte): seq<byte> {
    if c == QUOTE || c == BACKSLASH then [BACKSLASH, c]
    else if c == 0x0A then [BACKSLASH, 0x6E]
    else if c == 0x0D then [BACKSLASH, 0x72]
    else if c == 0x09 then [BACKSLASH, 0x74]
    else if c < 0x20 then [BACKSLASH, 0x75, 0x30, 0x30, Hex(c / 16), Hex(c % 16)]
    else [c]
  }

  function JsonBody(s: seq<byte>): seq<byte> {
    if s == [] then [] else JsonByte(s[0]) + JsonBody(s[1..])
  }

  /** The JSON string literal for s. */
  function JsonText(s: seq<byte>): seq<byte> {
    [QUOTE] + JsonBody(s) + [QUOTE]
  }

  lemma {:induction false} JsonBodyConcat(a: seq<byte>, b: seq<byte>)
    ensures JsonBody(a + b) == JsonBody(a) + JsonBody(b)
  {
    if a == [] {
      assert a + b == b;
    } else {
      assert (a + b)[1..] == a[1..] + b;
      JsonBodyConcat(a[1..], b);
    }
  }

  lemma JsonBodySnoc(s: seq<byte>, i: nat, pre: seq<byte>)
    requires i < |s|
    ensures pre + JsonBody(s[..i + 1]) == pre + JsonBody(s[..i]) + JsonByte(s[i])
  {
    assert s[..i + 1] == s[..i] + [s[i]];
    JsonBodyConcat(s[..i], [s[i]]);
  }

  /** Bytes outside the escapes are written as they are. */
  lemma {:induction false} JsonBodyPlain(s: seq<byte>)
    requires forall i | 0 <= i < |s| :: s[i] >= 0x20 && s[i] != QUOTE && s[i] != BACKSLASH
    ensures JsonBody(s) == s
  {
    if s != [] { JsonBodyPlain(s[1..]); }
  }

  /** 256 bytes, all escaped, and a terminator. */
  const NAME_ESC_CAP: nat := 3 * 256 + 1

  /** The value jw_kv_name writes: the escaped name, or "" if that does not fit. */
  function NameValue(v: seq<byte>): seq<byte> {
    if |Escape(v)| < NAME_ESC_CAP then Escape(v) else []
  }

  lemma NameValueIsEscape(v: seq<byte>)
    requires |v| <= 256
    ensures NameValue(v) == Escape(v)
  {
    EscapeValid(v);
  }

  function Comma(trailing: bool): seq<byte> {
    if trailing then [0x2C] else []
  }

  /** What jw_finish leaves of a text: all of it and a terminator if cap allows, else minus the need. */
  predicate Finished(text: seq<byte>, cap: nat, r: int, buf: seq<byte>) {
    if cap >= |text| + 1 then r == |text| && |text| < |buf| && buf[..|text|] == text && buf[|text|] == 0
    else r == -(|text| + 1)
  }

  /** No NUL stands in a written literal, whatever bytes it is for. */
  lemma {:induction false} JsonBodyNulFree(s: seq<byte>)
    ensures 0 !in JsonBody(s)
  {
    if s != [] { JsonBodyNulFree(s[1..]); }
  }

  lemma JsonTextNulFree(s: seq<byte>)
    ensures 0 !in JsonText(s)
  {
    JsonBodyNulFree(s);
  }

  class JsonW {
    var buf: array<byte>
    var cap: nat
    var len: nat
    var overflow: bool
    ghost var text: seq<byte>   // everything written so far, whether it fitted or not

    ghost predicate Valid()
      reads this, buf
    {
      && cap <= buf.Length && len == |text|
      && (overflow <==> len > 0 && len >= cap)
      && (forall i | 0 <= i < len :: i + 1 < cap ==> buf[i] == text[i])
    }

    /** jw_init */
    constructor (b: array<byte>, c: nat)
      requires c <= b.Length
      ensures Valid() && buf == b && cap == c && text == []
    {
      buf, cap, len, overflow, text := b, c, 0, false, [];
    }

    method Putc(c: byte)
      requires Valid()
      modifies this`len, this`overflow, this`text, buf
      ensures Valid() && text == old(text) + [c]
    {
      if len + 1 < cap {
        buf[len] := c;
      } else {
        overflow := true;
      }
      len := len + 1;
      text := text + [c];
    }

    method Puts(s: seq<byte>)
      requires Valid()
      modifies this`len, this`overflow, this`text, buf
      ensures Valid() && text == old(text) + s
    {
      var i := 0;
      while i < |s|
        invariant 0 <= i <= |s| && Valid() && text == old(text) + s[..i]
      {
        Putc(s[i]);
        i := i + 1;
      }
    }

    /** The body of the loop of jw_escape_str. */
    method PutEscaped(c: byte)
      requires Valid()
      modifies this`len, this`overflow, this`text, buf
      ensures Valid() && text == old(text) + JsonByte(c)
    {
      if c == QUOTE || c == BACKSLASH {
        Putc(BACKSLASH);
        Putc(c);
      } else if c == 0x0A {
        Putc(BACKSLASH);
        Putc(0x6E);
      } else if c == 0x0D {
        Putc(BACKSLASH);
        Putc(0x72);
      } else if c == 0x09 {
        Putc(BACKSLASH);
        Putc(0x74);
      } else if c < 0x20 {
        Puts([BACKSLASH, 0x75, 0x30, 0x30, Hex(c / 16), Hex(c % 16)]);
      } else {
        Putc(c);
      }
    }

    method PutBody(s: seq<byte>)
      requires Valid()
      modifies this`len, this`overflow, this`text, buf
      ensures Valid() && text == old(text) + JsonBody(s)
    {
      var i := 0;
      while i < |s|
        invariant 0 <= i <= |s| && Valid() && text == old(text) + JsonBody(s[..i])
      {
        PutEscaped(s[i]);
        JsonBodySnoc(s, i, old(text));
        i := i + 1;
      }
      assert s[..i] == s;
    }

    method EscapeStr(s: seq<byte>)
      requires Valid()
      modifies this`len, this`overflow, this`text, buf
      ensures Valid() && text == old(text) + JsonText(s)
    {
      Putc(QUOTE);
      PutBody(s);
      Putc(QUOTE);
    }

    method KvStr(k: seq<byte>, v: seq<byte>, trailing: bool)
      requires Valid()
      modifies this`len, this`overflow, this`text, buf
      ensures Valid() && text == old(text) + JsonText(k) + [0x3A] + JsonText(v) + Comma(trailing)
    {
      EscapeStr(k);
      Putc(0x3A);
      EscapeStr(v);
      if trailing { Putc(0x2C); }
    }

    /** jw_kv_name of anyfs_ts.c, with its own escape buffer. */
    method KvName(k: seq<byte>, v: seq<byte>, trailing: bool)
      requires Valid() && CString(v)
      modifies this`len, this`overflow, this`text, buf
      ensures Valid()
      ensures text == old(text) + JsonText(k) + [0x3A] + JsonText(NameValue(v[..|v| - 1])) + Comma(trailing)
    {
      var e := new byte[NAME_ESC_CAP];
      var r := NameEscape(v, e, NAME_ESC_CAP);
      KvStr(k, if r < 0 then [] else e[..r], trailing);
    }

    /**
     * jw_finish: the whole output with its terminator if cap >= length + 1,
     * otherwise minus the size that would have been enough. Neither the length
     * nor the reported need depends on cap.
     */
    method Finish() returns (r: int)
      requires Valid()
      modifies buf
      ensures text == old(text) && Finished(text, cap, r, buf[..])
    {
      if overflow || len + 1 > cap { return -(len + 1); }
      buf[len] := 0;
      return len;
    }
  }
}
