/**
 * Strict UTF-8 as section 4 of RFC 3629 defines it: the byte-level recogniser
 * of anyfs_name.c on one side, the encoder of Unicode scalar values on the
 * other, and the proof that they describe the same strings.
 */
module Utf8 {
  import opened Bytes

  /** A Unicode scalar value: a code point that is not a surrogate. */
  type scalar = x: int | 0 <= x < 0xD800 || 0xE000 <= x < 0x11_0000

  /** Byte i of a C string: the terminator stands past the end. */
  function At(s: seq<byte>, i: nat): byte {
    if i < |s| then s[i] else 0
  }

  /** (b & 0xC0) == 0x80. */
  predicate IsCont(b: byte) { 0x80 <= b < 0xC0 }

  /** utf8_seq: the length of the strict sequence at the start of s, or 0. */
  function SeqLen(s: seq<byte>): (n: nat)
    requires s != []
    ensures n <= |s| && n <= 4
    ensures forall i | 0 < i < n :: IsCont(s[i])
  {
    var c := s[0];
    if c < 0x80 then 1
    else if 0xC2 <= c <= 0xDF then (if IsCont(At(s, 1)) then 2 else 0)
    else if 0xE0 <= c <= 0xEF then
      var lo := if c == 0xE0 then 0xA0 else 0x80;
      var hi := if c == 0xED then 0x9F else 0xBF;
      if lo <= At(s, 1) <= hi && IsCont(At(s, 2)) then 3 else 0
    else if 0xF0 <= c <= 0xF4 then
      var lo := if c == 0xF0 then 0x90 else 0x80;
      var hi := if c == 0xF4 then 0x8F else 0xBF;
      if lo <= At(s, 1) <= hi && IsCont(At(s, 2)) && IsCont(At(s, 3)) then 4 else 0
    else 0
  }

  /** utf8_seq splits s completely. */
  predicate Valid(s: seq<byte>) {
    s == [] || (SeqLen(s) > 0 && Valid(s[SeqLen(s)..]))
  }

  /** b & 0x3F of a continuation byte. */
  function Low(b: byte): int { b - 0x80 }

  /** Append six bits. */
  function Join(high: int, low: int): int { high * 64 + low }

  /** The UTF-8 form of one scalar value. */
  function Encode(c: scalar): (e: seq<byte>)
    ensures 1 <= |e| <= 4
  {
    if c < 0x80 then [c]
    else if c < 0x800 then [0xC0 + c / 64, 0x80 + c % 64]
    else if c < 0x1_0000 then [0xE0 + c / 64 / 64, 0x80 + c / 64 % 64, 0x80 + c % 64]
    else [0xF0 + c / 64 / 64 / 64, 0x80 + c / 64 / 64 % 64, 0x80 + c / 64 % 64, 0x80 + c % 64]
  }

  function EncodeAll(cs: seq<scalar>): seq<byte> {
    if cs == [] then [] else Encode(cs[0]) + EncodeAll(cs[1..])
  }

  /** The scalar value a recognised sequence stands for. */
  function Decode(s: seq<byte>): (c: scalar)
    requires s != [] && SeqLen(s) > 0
  {
    var lead: int, n := s[0], SeqLen(s);
    if n == 1 then lead
    else if n == 2 then Join(lead - 0xC0, Low(s[1]))
    else if n == 3 then Join(Join(lead - 0xE0, Low(s[1])), Low(s[2]))
    else Join(Join(Join(lead - 0xF0, Low(s[1])), Low(s[2])), Low(s[3]))
  }

  function DecodeAll(s: seq<byte>): seq<scalar>
    requires Valid(s)
  {
    if s == [] then [] else [Decode(s)] + DecodeAll(s[SeqLen(s)..])
  }

  // ---- One sequence ---------------------------------------------------------------

  lemma JoinSplit(high: int, low: int)
    requires 0 <= low < 64
    ensures Join(high, low) / 64 == high && Join(high, low) % 64 == low
  {
  }

  lemma SplitJoin(c: int)
    ensures Join(c / 64, c % 64) == c
  {
  }

  lemma SeqLenOfEncode(c: scalar, rest: seq<byte>)
    ensures SeqLen(Encode(c) + rest) == |Encode(c)|
    ensures Decode(Encode(c) + rest) == c
  {
    SplitJoin(c);
    SplitJoin(c / 64);
    SplitJoin(c / 64 / 64);
  }

  lemma EncodeOfDecode(s: seq<byte>)
    requires s != [] && SeqLen(s) > 0
    ensures Encode(Decode(s)) == s[..SeqLen(s)]
  {
    var lead: int, n := s[0], SeqLen(s);
    if n == 2 {
      JoinSplit(lead - 0xC0, Low(s[1]));
    } else if n == 3 {
      JoinSplit(lead - 0xE0, Low(s[1]));
      JoinSplit(Join(lead - 0xE0, Low(s[1])), Low(s[2]));
    } else if n == 4 {
      JoinSplit(lead - 0xF0, Low(s[1]));
      JoinSplit(Join(lead - 0xF0, Low(s[1])), Low(s[2]));
      JoinSplit(Join(Join(lead - 0xF0, Low(s[1])), Low(s[2])), Low(s[3]));
    }
  }

  /** A recognised sequence is recognised whatever follows it. */
  lemma SeqLenPrefix(s: seq<byte>, rest: seq<byte>)
    requires s != [] && SeqLen(s) > 0
    ensures SeqLen(s + rest) == SeqLen(s) && Decode(s + rest) == Decode(s)
  {
  }

  /** A recognised sequence is valid on its own. */
  lemma SeqLenValid(s: seq<byte>)
    requires s != [] && SeqLen(s) > 0
    ensures Valid(s[..SeqLen(s)])
  {
    EncodeOfDecode(s);
    var e := Encode(Decode(s));
    SeqLenOfEncode(Decode(s), []);
    assert e + [] == e && e[|e|..] == [];
  }

  // ---- Whole strings ----------------------------------------------------------------

  /** A valid prefix can be split off. */
  lemma {:induction false} ValidConcat(a: seq<byte>, b: seq<byte>)
    requires Valid(a)
    ensures Valid(a + b) <==> Valid(b)
    ensures Valid(b) ==> DecodeAll(a + b) == DecodeAll(a) + DecodeAll(b)
  {
    if a == [] {
      assert a + b == b;
    } else {
      var n := SeqLen(a);
      SeqLenPrefix(a, b);
      assert (a + b)[n..] == a[n..] + b;
      ValidConcat(a[n..], b);
    }
  }

  /** Encoded text is accepted, and decodes to what was encoded. */
  lemma {:induction false} EncodeAllValid(cs: seq<scalar>)
    ensures Valid(EncodeAll(cs)) && DecodeAll(EncodeAll(cs)) == cs
  {
    if cs != [] {
      var rest := EncodeAll(cs[1..]);
      SeqLenOfEncode(cs[0], rest);
      assert (Encode(cs[0]) + rest)[|Encode(cs[0])|..] == rest;
      EncodeAllValid(cs[1..]);
    }
  }

  /** Accepted text is the encoding of what it decodes to. */
  lemma {:induction false} DecodeAllEncodes(s: seq<byte>)
    requires Valid(s)
    ensures EncodeAll(DecodeAll(s)) == s
  {
    if s != [] {
      EncodeOfDecode(s);
      DecodeAllEncodes(s[SeqLen(s)..]);
    }
  }

  /** utf8_seq splits a string completely exactly when it encodes some scalar values. */
  lemma ValidIsUtf8(s: seq<byte>)
    ensures Valid(s) <==> exists cs: seq<scalar> :: EncodeAll(cs) == s
  {
    if Valid(s) { DecodeAllEncodes(s); }
    if cs: seq<scalar> :| EncodeAll(cs) == s { EncodeAllValid(cs); }
  }

  /** A C string: its bytes and the terminator. */
  predicate CString(src: seq<byte>) {
    |src| > 0 && src[|src| - 1] == 0 && forall i | 0 <= i < |src| - 1 :: src[i] != 0
  }

  /** valid_utf8 of anyfs_legacy.c, a second recogniser with its own table and loops. */
  method ValidUtf8(src: seq<byte>) returns (ok: bool)
    requires CString(src)
    ensures ok <==> Valid(src[..|src| - 1])
  {
    var i := 0;
    ghost var text := src[..|src| - 1];
    while src[i] != 0
      invariant 0 <= i < |src|
      invariant Valid(text) <==> Valid(text[i..])
      decreases |src| - i
    {
      var c := src[i];
      var n := if c < 0x80 then 1
               else if 0xC2 <= c <= 0xDF then 2
               else if 0xE0 <= c <= 0xEF then 3
               else if 0xF0 <= c <= 0xF4 then 4 else 0;
      ghost var rest := text[i..];
      assert forall k: nat | i + k < |src| :: At(rest, k) == src[i + k];
      if n == 0 { return false; }
      if n >= 3 {
        var lo := if c == 0xE0 then 0xA0 else if c == 0xF0 then 0x90 else 0x80;
        var hi := if c == 0xED then 0x9F else if c == 0xF4 then 0x8F else 0xBF;
        assert src[i + 1] == At(rest, 1);
        if src[i + 1] < lo || src[i + 1] > hi { return false; }
      }
      var k := 1;
      while k < n
        invariant 1 <= k <= n && i + k < |src|
        invariant forall j: nat | 1 <= j < k :: IsCont(At(rest, j))
      {
        assert src[i + k] == At(rest, k);
        if !IsCont(src[i + k]) { return false; }
        k := k + 1;
      }
      assert SeqLen(rest) == n;
      assert text[i + n..] == rest[n..];
      i := i + n;
    }
    assert text[i..] == [];
    return true;
  }
}
