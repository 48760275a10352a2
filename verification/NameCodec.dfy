/**
 * File names on their way to JavaScript: every byte outside strict UTF-8, and
 * every byte of a character that is itself an escape, becomes U+EF00 + byte.
 */
module NameCodec {
  import opened Bytes
  import opened Utf8

  /** is_escape_char, for the two three-byte patterns of the reserved range. */
  predicate IsEscape(s: seq<byte>) {
    At(s, 0) == 0xEE && (At(s, 1) == 0xBE || At(s, 1) == 0xBF) && IsCont(At(s, 2))
  }

  /** The escape character of one byte. */
  function EscapeByte(b: byte): seq<byte> {
    [0xEE, if b >= 0xC0 then 0xBF else 0xBE, 0x80 + b % 64]
  }

  function EscapeEach(bs: seq<byte>): seq<byte> {
    if bs == [] then [] else EscapeByte(bs[0]) + EscapeEach(bs[1..])
  }

  /** The sequence at the start of s is copied as it is. */
  predicate Copied(s: seq<byte>)
    requires s != []
  {
    SeqLen(s) > 0 && !(SeqLen(s) == 3 && IsEscape(s))
  }

  /** How many bytes the sequence at the start of s covers, one if it is not UTF-8. */
  function Span(s: seq<byte>): (n: nat)
    requires s != []
    ensures 1 <= n <= |s|
  {
    if SeqLen(s) == 0 then 1 else SeqLen(s)
  }

  /** The output for the sequence at the start of s. */
  function Piece(s: seq<byte>): seq<byte>
    requires s != []
  {
    if Copied(s) then s[..Span(s)] else EscapeEach(s[..Span(s)])
  }

  /** What anyfs_name_escape writes for s. */
  function Escape(s: seq<byte>): seq<byte> {
    if s == [] then [] else Piece(s) + Escape(s[Span(s)..])
  }

  /** What anyfs_name_unescape writes for s; it tests for an escape at every byte. */
  function Unescape(s: seq<byte>): seq<byte> {
    if s == [] then []
    else if IsEscape(s) then [(if s[1] == 0xBF then 0xC0 else 0x80) + s[2] % 64] + Unescape(s[3..])
    else [s[0]] + Unescape(s[1..])
  }

  // ---- Unescape over pieces ---------------------------------------------------------

  lemma {:induction false} UnescapeConts(q: seq<byte>, rest: seq<byte>)
    requires forall i | 0 <= i < |q| :: q[i] != 0xEE
    ensures Unescape(q + rest) == q + Unescape(rest)
  {
    if q == [] {
      assert q + rest == rest;
    } else {
      assert (q + rest)[1..] == q[1..] + rest;
      UnescapeConts(q[1..], rest);
    }
  }

  lemma CopiedIsNoEscape(s: seq<byte>, rest: seq<byte>, p: seq<byte>)
    requires s != [] && Copied(s) && p == s[..Span(s)]
    ensures !IsEscape(p + rest) && p[0] == s[0] && forall i | 0 < i < |p| :: IsCont(p[i])
  {
    assert forall i: nat | i < |p| :: At(p + rest, i) == At(s, i);
  }

  /** Bytes with no escape among them come through as they are. */
  lemma UnescapePlain(p: seq<byte>, rest: seq<byte>)
    requires p != [] && !IsEscape(p + rest) && forall i | 0 < i < |p| :: IsCont(p[i])
    ensures Unescape(p + rest) == p + Unescape(rest)
  {
    var q, u := p[1..], p + rest;
    UnescapeConts(q, rest);
    assert u[1..] == q + rest;
    assert Unescape(u) == [p[0]] + (q + Unescape(rest));
  }

  /** A copied sequence is not taken for an escape at any of its bytes. */
  lemma UnescapeCopied(s: seq<byte>, rest: seq<byte>)
    requires s != [] && Copied(s)
    ensures Unescape(s[..Span(s)] + rest) == s[..Span(s)] + Unescape(rest)
  {
    var p := s[..Span(s)];
    CopiedIsNoEscape(s, rest, p);
    UnescapePlain(p, rest);
  }

  lemma UnescapeByte(b: byte, rest: seq<byte>)
    requires b >= 0x80
    ensures Unescape(EscapeByte(b) + rest) == [b] + Unescape(rest)
  {
    var e := EscapeByte(b);
    assert (e + rest)[..3] == e && (e + rest)[3..] == rest;
    assert IsEscape(e + rest);
    assert (0x80 + b % 64) % 64 == b % 64;
  }

  lemma {:induction false} UnescapeEach(bs: seq<byte>, rest: seq<byte>)
    requires forall i | 0 <= i < |bs| :: bs[i] >= 0x80
    ensures Unescape(EscapeEach(bs) + rest) == bs + Unescape(rest)
  {
    if bs == [] {
      assert EscapeEach(bs) + rest == rest;
    } else {
      assert EscapeEach(bs) + rest == EscapeByte(bs[0]) + (EscapeEach(bs[1..]) + rest);
      UnescapeByte(bs[0], EscapeEach(bs[1..]) + rest);
      UnescapeEach(bs[1..], rest);
    }
  }

  /** Every escaped byte has its high bit set: plain ASCII is always copied. */
  lemma EscapedBytesAreHigh(s: seq<byte>)
    requires s != [] && !Copied(s)
    ensures forall i | 0 <= i < Span(s) :: s[i] >= 0x80
  {
  }

  // ---- What the codec promises --------------------------------------------------------

  lemma UnescapePiece(s: seq<byte>, rest: seq<byte>)
    requires s != []
    ensures Unescape(Piece(s) + rest) == s[..Span(s)] + Unescape(rest)
  {
    if Copied(s) {
      UnescapeCopied(s, rest);
    } else {
      EscapedBytesAreHigh(s);
      UnescapeEach(s[..Span(s)], rest);
    }
  }

  /** One step of Escape, with what Unescape makes of it. */
  lemma EscapeStep(s: seq<byte>, a: seq<byte>, p: seq<byte>, rest: seq<byte>, e: seq<byte>)
    requires s != [] && a == s[..Span(s)] && p == Piece(s) && rest == s[Span(s)..] && e == Escape(rest)
    ensures s == a + rest && Escape(s) == p + e && Unescape(p + e) == a + Unescape(e)
  {
    UnescapePiece(s, e);
  }

  /** Unescaping an escaped name gives the name, whatever its bytes. */
  lemma {:induction false} RoundTrip(s: seq<byte>)
    ensures Unescape(Escape(s)) == s
  {
    if s != [] {
      var rest := s[Span(s)..];
      EscapeStep(s, s[..Span(s)], Piece(s), rest, Escape(rest));
      RoundTrip(rest);
    }
  }

  lemma {:induction false} EscapeEachValid(bs: seq<byte>)
    ensures Valid(EscapeEach(bs)) && |EscapeEach(bs)| == 3 * |bs|
  {
    if bs != [] {
      var e := EscapeByte(bs[0]);
      assert SeqLen(e) == 3 && e[3..] == [];
      ValidConcat(e, EscapeEach(bs[1..]));
      EscapeEachValid(bs[1..]);
    }
  }

  /** The escaped form is strict UTF-8 and at most three times as long. */
  lemma {:induction false} EscapeValid(s: seq<byte>)
    ensures Valid(Escape(s)) && |Escape(s)| <= 3 * |s|
  {
    if s != [] {
      var n := Span(s);
      var piece := Piece(s);
      if Copied(s) {
        SeqLenValid(s);
      } else {
        EscapeEachValid(s[..n]);
      }
      EscapeValid(s[n..]);
      ValidConcat(piece, Escape(s[n..]));
    }
  }

  lemma {:induction false} EscapeEachNulFree(bs: seq<byte>)
    ensures 0 !in EscapeEach(bs)
  {
    if bs != [] { EscapeEachNulFree(bs[1..]); }
  }

  /** No NUL appears that was not there: escaping keeps a C string one. */
  lemma {:induction false} EscapeNulFree(s: seq<byte>)
    requires 0 !in s
    ensures 0 !in Escape(s)
  {
    if s != [] {
      EscapeNulFree(s[Span(s)..]);
      EscapeEachNulFree(s[..Span(s)]);
    }
  }

  /** Different names stay different. */
  lemma EscapeInjective(a: seq<byte>, b: seq<byte>)
    requires Escape(a) == Escape(b)
    ensures a == b
  {
    RoundTrip(a);
    RoundTrip(b);
  }

  // ---- The C functions -------------------------------------------------------------------

  /** The result both functions leave: the text and its terminator if it fits, else "" and -1. */
  predicate Wrote(r: int, out: array?<byte>, cap: nat, text: seq<byte>)
    requires out != null ==> cap <= out.Length
    reads if out == null then {} else {out}
  {
    if out == null || cap == 0 then r == -1
    else if |text| < cap then r == |text| && out[..|text|] == text && out[|text|] == 0
    else r == -1 && out[0] == 0
  }

  /** The inner loop: escape each byte of src[i..end], or report that it does not fit. */
  method EscapeRun(src: seq<byte>, i: nat, end: nat, out: array<byte>, cap: nat, o: nat)
    returns (ok: bool, o': nat)
    requires i <= end <= |src| && o < cap <= out.Length
    modifies out
    ensures ok ==> o' < cap && out[..o'] == old(out[..o]) + EscapeEach(src[i..end])
    ensures !ok ==> o + |EscapeEach(src[i..end])| >= cap
  {
    var j := i;
    ghost var done: seq<byte> := [];
    o' := o;
    while j < end
      invariant i <= j <= end && o <= o' < cap
      invariant out[..o'] == old(out[..o]) + done
      invariant done + EscapeEach(src[j..end]) == EscapeEach(src[i..end])
    {
      var b := src[j];
      assert src[j..end][1..] == src[j + 1..end];
      if o' + 3 >= cap { return false, o'; }
      out[o'], out[o' + 1], out[o' + 2] := 0xEE, if b >= 0xC0 then 0xBF else 0xBE, 0x80 + b % 64;
      done := done + EscapeByte(b);
      j, o' := j + 1, o' + 3;
    }
    assert EscapeEach(src[j..end]) == [];
    return true, o';
  }

  /** memcpy of a whole sequence. */
  method Copy(src: seq<byte>, i: nat, n: nat, out: array<byte>, o: nat)
    requires i + n <= |src| && o + n <= out.Length
    modifies out
    ensures out[..o + n] == old(out[..o]) + src[i..i + n]
  {
    forall k | 0 <= k < n { out[o + k] := src[i + k]; }
  }

  /** One turn of the outer loop: the sequence at src[i], copied or escaped byte by byte. */
  method EscapeTurn(src: seq<byte>, i: nat, out: array<byte>, cap: nat, o: nat)
    returns (ok: bool, i': nat, o': nat)
    requires CString(src) && i < |src| - 1 && o < cap <= out.Length
    modifies out
    ensures i' == i + Span(src[i..|src| - 1])
    ensures ok ==> o' < cap && out[..o'] == old(out[..o]) + Piece(src[i..|src| - 1])
    ensures !ok ==> o + |Piece(src[i..|src| - 1])| >= cap
  {
    var rest := src[i..|src| - 1];
    var n := SeqLen(rest);
    assert rest[..Span(rest)] == src[i..i + Span(rest)];
    if n > 0 && !(n == 3 && IsEscape(rest)) {
      if o + n >= cap { return false, i + n, o; }
      Copy(src, i, n, out, o);
      return true, i + n, o + n;
    }
    n := if n == 0 then 1 else n;
    ok, o' := EscapeRun(src, i, i + n, out, cap, o);
    i' := i + n;
  }

  /** The outer loop, into a buffer with room for at least the terminator. */
  method EscapeInto(src: seq<byte>, out: array<byte>, cap: nat) returns (ok: bool, o: nat)
    requires CString(src) && 0 < cap <= out.Length
    modifies out
    ensures ok ==> o < cap && out[..o] == Escape(src[..|src| - 1])
    ensures !ok ==> |Escape(src[..|src| - 1])| >= cap
  {
    var i := 0;
    o := 0;
    ghost var done: seq<byte> := [];
    while src[i] != 0
      invariant 0 <= i < |src| && 0 <= o < cap
      invariant out[..o] == done
      invariant done + Escape(src[i..|src| - 1]) == Escape(src[..|src| - 1])
      decreases |src| - i
    {
      ghost var rest := src[i..|src| - 1];
      ok, i, o := EscapeTurn(src, i, out, cap, o);
      assert rest[Span(rest)..] == src[i..|src| - 1];
      ghost var more := Piece(rest);
      assert done + Escape(rest) == (done + more) + Escape(src[i..|src| - 1]);
      if !ok { return; }
      done := done + more;
    }
    assert Escape(src[i..|src| - 1]) == [];
    return true, o;
  }

  /** anyfs_name_escape. */
  method NameEscape(src: seq<byte>, out: array?<byte>, cap: nat) returns (r: int)
    requires CString(src) && (out != null ==> cap <= out.Length)
    modifies if out == null then {} else {out}
    ensures Wrote(r, out, cap, Escape(src[..|src| - 1]))
  {
    if out == null || cap == 0 { return -1; }
    var ok, o := EscapeInto(src, out, cap);
    if !ok {
      out[0] := 0;
      return -1;
    }
    out[o] := 0;
    return o;
  }

  /** The byte at src[i], or the escape there, and how many bytes it covers. */
  method UnescapeTurn(src: seq<byte>, i: nat, ghost rest: seq<byte>) returns (b: byte, next: nat)
    requires CString(src) && i < |src| - 1 && rest == src[i..|src| - 1]
    ensures i < next < |src| && Unescape(rest) == [b] + Unescape(src[next..|src| - 1])
  {
    if IsEscape(src[i..|src| - 1]) {
      b := (if src[i + 1] == 0xBF then 0xC0 else 0x80) + src[i + 2] % 64;
      next := i + 3;
      assert rest[3..] == src[next..|src| - 1];
    } else {
      b := src[i];
      next := i + 1;
      assert rest[1..] == src[next..|src| - 1];
    }
  }

  lemma AppendOne(done: seq<byte>, b: byte, rest: seq<byte>)
    ensures done + ([b] + rest) == done + [b] + rest
  {}

  /** anyfs_name_unescape. */
  method NameUnescape(src: seq<byte>, out: array?<byte>, cap: nat) returns (r: int)
    requires CString(src) && (out != null ==> cap <= out.Length)
    modifies if out == null then {} else {out}
    ensures Wrote(r, out, cap, Unescape(src[..|src| - 1]))
  {
    if out == null || cap == 0 { return -1; }
    ghost var all := Unescape(src[..|src| - 1]);
    ghost var done: seq<byte> := [];
    var i: nat, o: nat := 0, 0;
    while src[i] != 0
      invariant i < |src| && o < cap && |done| == o && out[..o] == done
      invariant done + Unescape(src[i..|src| - 1]) == all
      decreases |src| - i
    {
      var b, next := UnescapeTurn(src, i, src[i..|src| - 1]);
      AppendOne(done, b, Unescape(src[next..|src| - 1]));
      if o + 1 >= cap {
        out[0] := 0;
        return -1;
      }
      out[o] := b;
      done := done + [b];
      i, o := next, o + 1;
    }
    assert src[i..|src| - 1] == [] && done + [] == done;
    out[o] := 0;
    return o;
  }
}
