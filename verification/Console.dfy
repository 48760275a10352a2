/**
 * Console output on Windows: a write is cut before a last character that may
 * lack bytes, and what was cut off is kept back until more is written.
 */
module Console {
  import opened Bytes
  import opened Utf8

  /** How many bytes a sequence with this lead byte has; 1 for anything that is not a lead. */
  function Need(c: byte): nat {
    if 0xF0 <= c <= 0xF4 then 4
    else if 0xE0 <= c < 0xF0 then 3
    else if 0xC2 <= c < 0xE0 then 2
    else 1
  }

  /** How many continuation bytes end s, counted up to `limit`. */
  function Trailing(s: seq<byte>, limit: nat): (n: nat)
    ensures n <= limit && n <= |s|
    ensures forall i | |s| - n <= i < |s| :: IsCont(s[i])
    ensures n < limit && n < |s| ==> !IsCont(s[|s| - n - 1])
  {
    if limit == 0 || s == [] || !IsCont(s[|s| - 1]) then 0
    else 1 + Trailing(s[..|s| - 1], limit - 1)
  }

  /** Where to cut: before a last sequence that still lacks bytes, else at the end. */
  function Complete(s: seq<byte>): (n: nat)
    ensures |s| - 3 <= n <= |s|
  {
    var cont := Trailing(s, 3);
    if cont == |s| then |s|
    else
      var need := Need(s[|s| - cont - 1]);
      if need > 1 && cont + 1 < need then |s| - cont - 1 else |s|
  }

  /** anyfs_u8_complete_prefix: scan back over at most three continuation bytes. */
  method CompletePrefix(s: seq<byte>) returns (n: nat)
    ensures n == Complete(s)
  {
    var i, cont := |s|, 0;
    while i > 0 && cont < 3 && IsCont(s[i - 1])
      invariant 0 <= i <= |s| && i + cont == |s| && cont <= 3
      invariant cont + Trailing(s[..i], 3 - cont) == Trailing(s, 3)
    {
      assert s[..i][..i - 1] == s[..i - 1];
      i, cont := i - 1, cont + 1;
    }
    assert cont == Trailing(s, 3);
    if i == 0 { return |s|; }
    var need := Need(s[i - 1]);
    if need > 1 && cont + 1 < need { return i - 1; }
    return |s|;
  }

  /** One console stream; `held` is the incomplete tail. */
  class Stream {
    var held: seq<byte>

    constructor ()
      ensures held == []
    {
      held := [];
    }

    /** write_console: what goes to the console now, and what is held back. */
    method Write(s: seq<byte>) returns (piece: seq<byte>)
      modifies this
      ensures piece + held == old(held) + s
      ensures |held| <= 3
      ensures piece == (old(held) + s)[..Complete(old(held) + s)]
      ensures held == (old(held) + s)[Complete(old(held) + s)..]
    {
      var buf := held + s;
      var done := CompletePrefix(buf);
      held := buf[done..];
      piece := buf[..done];
    }
  }

  // ---- Any way of cutting a stream -----------------------------------------------------------

  /** The tail held after writing the given chunks one by one. */
  function Held(chunks: seq<seq<byte>>): seq<byte> {
    if chunks == [] then []
    else
      var buf := Held(chunks[..|chunks| - 1]) + chunks[|chunks| - 1];
      buf[Complete(buf)..]
  }

  /** The pieces those writes emit. */
  function Pieces(chunks: seq<seq<byte>>): seq<seq<byte>> {
    if chunks == [] then []
    else
      var buf := Held(chunks[..|chunks| - 1]) + chunks[|chunks| - 1];
      Pieces(chunks[..|chunks| - 1]) + [buf[..Complete(buf)]]
  }

  /** The writes of a stream, one by one. */
  method WriteAll(s: Stream, chunks: seq<seq<byte>>) returns (pieces: seq<seq<byte>>)
    requires s.held == []
    modifies s
    ensures pieces == Pieces(chunks) && s.held == Held(chunks)
  {
    pieces := [];
    for i := 0 to |chunks|
      invariant pieces == Pieces(chunks[..i]) && s.held == Held(chunks[..i])
    {
      assert chunks[..i + 1][..i] == chunks[..i];
      var piece := s.Write(chunks[i]);
      pieces := pieces + [piece];
    }
    assert chunks[..|chunks|] == chunks;
  }

  function Flatten(parts: seq<seq<byte>>): seq<byte> {
    if parts == [] then [] else Flatten(parts[..|parts| - 1]) + parts[|parts| - 1]
  }

  /** Nothing is lost or reordered, for any bytes and any cut; at most three bytes are held. */
  lemma {:induction false} StreamConserved(chunks: seq<seq<byte>>)
    ensures Flatten(Pieces(chunks)) + Held(chunks) == Flatten(chunks)
    ensures |Held(chunks)| <= 3 && |Pieces(chunks)| == |chunks|
  {
    if chunks != [] {
      var n := |chunks| - 1;
      StreamConserved(chunks[..n]);
      var buf := Held(chunks[..n]) + chunks[n];
      assert Pieces(chunks)[..n] == Pieces(chunks[..n]);
      assert buf == buf[..Complete(buf)] + buf[Complete(buf)..];
      assert Flatten(Pieces(chunks[..n])) + buf == Flatten(chunks);
    }
  }

  // ---- Well-formed streams --------------------------------------------------------------------

  /** How many bytes the whole sequences at the start of s take. */
  function Whole(s: seq<byte>): (n: nat)
    ensures n <= |s|
  {
    if s == [] || SeqLen(s) == 0 then 0 else SeqLen(s) + Whole(s[SeqLen(s)..])
  }

  lemma SplitOn(s: seq<byte>, k: nat, rest: seq<byte>, w: nat, n: nat)
    requires k <= |s| && rest == s[k..] && w <= |rest| && n == k + w
    ensures s[..n] == s[..k] + rest[..w] && s[n..] == rest[w..]
  {}

  lemma {:induction false} WholeSplits(s: seq<byte>)
    ensures Valid(s[..Whole(s)])
    ensures Whole(s) < |s| ==> SeqLen(s[Whole(s)..]) == 0
  {
    if s != [] && SeqLen(s) > 0 {
      var k := SeqLen(s);
      var rest := s[k..];
      WholeSplits(rest);
      SeqLenValid(s);
      SplitOn(s, k, rest, Whole(rest), Whole(s));
      ValidConcat(s[..k], rest[..Whole(rest)]);
    }
  }

  /** A proper prefix of one sequence: a lead byte and too few continuation bytes. */
  predicate Partial(t: seq<byte>) {
    && 0 < |t| < Need(t[0])
    && forall i | 0 < i < |t| :: IsCont(t[i])
  }

  /** What is left of a well-formed stream after whole sequences is nothing, or part of one. */
  lemma PartialTail(t: seq<byte>, rest: seq<byte>)
    requires Valid(t + rest) && t != [] && SeqLen(t) == 0
    ensures Partial(t)
  {
    var n := SeqLen(t + rest);
    assert forall i: nat | i < |t| :: At(t + rest, i) == At(t, i);
    assert |t| < n;
    assert forall i | 0 < i < |t| :: IsCont((t + rest)[i]);
  }

  /** Whole sequences are whole in every longer stream. */
  lemma {:induction false} WholePrefix(s: seq<byte>, rest: seq<byte>)
    requires Valid(s + rest)
    ensures Valid(s[Whole(s)..] + rest)
    ensures Whole(s) < |s| ==> Partial(s[Whole(s)..])
  {
    var w := Whole(s);
    WholeSplits(s);
    assert s + rest == s[..w] + (s[w..] + rest);
    ValidConcat(s[..w], s[w..] + rest);
    if w < |s| { PartialTail(s[w..], rest); }
  }

  lemma {:induction false} TrailingIs(s: seq<byte>, n: nat)
    requires n < |s| && n <= 3 && !IsCont(s[|s| - n - 1])
    requires forall i | |s| - n <= i < |s| :: IsCont(s[i])
    ensures Trailing(s, 3) == n
  {
  }

  /** The last byte but its continuation bytes, in a string of whole sequences. */
  lemma {:induction false} LastSequence(s: seq<byte>)
    requires Valid(s) && s != []
    ensures var cont := Trailing(s, 3); cont < |s| && cont + 1 == Need(s[|s| - cont - 1])
  {
    var k := SeqLen(s);
    if k == |s| {
      TrailingIs(s, k - 1);
    } else {
      LastSequence(s[k..]);
      var c := Trailing(s[k..], 3);
      TrailingIs(s, c);
    }
  }

  /** On a prefix of a well-formed stream the cut is exactly after the last whole sequence. */
  lemma CutIsWhole(s: seq<byte>, rest: seq<byte>)
    requires Valid(s + rest)
    ensures Complete(s) == Whole(s)
  {
    var w := Whole(s);
    WholeSplits(s);
    WholePrefix(s, rest);
    if w == |s| {
      assert s[..w] == s;
      if s != [] { LastSequence(s); }
    } else {
      var t := s[w..];
      assert !IsCont(t[0]);
      TrailingIs(s, |t| - 1);
    }
  }

  /** One write inside a well-formed stream. */
  lemma CutKeepsUtf8(buf: seq<byte>, rest: seq<byte>)
    requires Valid(buf + rest)
    ensures Valid(buf[..Complete(buf)]) && Valid(buf[Complete(buf)..] + rest)
    ensures rest == [] ==> Complete(buf) == |buf|
  {
    CutIsWhole(buf, rest);
    WholePrefix(buf, rest);
    WholeSplits(buf);
    if rest == [] { assert buf[Complete(buf)..] + rest == buf[Complete(buf)..]; }
  }

  /**
   * If the whole stream is well-formed UTF-8, then however it is cut every
   * emitted piece is well-formed, and nothing is held at the end.
   */
  lemma {:induction false} PiecesWellFormed(chunks: seq<seq<byte>>, rest: seq<byte>)
    requires Valid(Flatten(chunks) + rest)
    ensures forall i | 0 <= i < |Pieces(chunks)| :: Valid(Pieces(chunks)[i])
    ensures Valid(Held(chunks) + rest)
    ensures rest == [] ==> Held(chunks) == []
  {
    if chunks == [] {
      assert Flatten(chunks) + rest == rest && Held(chunks) + rest == rest;
    } else {
      var n := |chunks| - 1;
      var before, chunk := chunks[..n], chunks[n];
      assert Flatten(chunks) + rest == Flatten(before) + (chunk + rest);
      PiecesWellFormed(before, chunk + rest);
      assert Held(before) + (chunk + rest) == (Held(before) + chunk) + rest;
      CutKeepsUtf8(Held(before) + chunk, rest);
    }
  }
}
