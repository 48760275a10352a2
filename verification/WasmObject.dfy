/**
 * Relocatable wasm object files as the tools see them: eight header bytes,
 * then sections, one of which ("linking") holds subsections in the same
 * length-prefixed form.
 */
module WasmObject {
  import opened Bytes
  import opened Leb128
  import Utf8

  // ---- Length-prefixed chunks -------------------------------------------------------

  /** A section or subsection, with its size field kept byte for byte. */
  datatype Chunk = Chunk(id: byte, size: seq<byte>, body: seq<byte>)

  /** The size field encodes the length of the body. */
  predicate Sized(c: Chunk) { ReadUleb(c.size) == Got(|c.body|, |c.size|) }

  predicate AllSized(cs: seq<Chunk>) { forall i | 0 <= i < |cs| :: Sized(cs[i]) }

  function Raw(c: Chunk): seq<byte> { [c.id] + c.size + c.body }

  function Flatten(cs: seq<Chunk>): seq<byte> {
    if cs == [] then [] else Raw(cs[0]) + Flatten(cs[1..])
  }

  function ReadChunk(s: seq<byte>): (r: Read<Chunk>)
    ensures r.Got? ==> 1 <= r.used <= |s|
  {
    if s == [] then Fail
    else
      match ReadUleb(s[1..])
      case Fail => Fail
      case Got(n, k) =>
        if 1 + k + n <= |s| then Got(Chunk(s[0], s[1..1 + k], s[1 + k..1 + k + n]), 1 + k + n) else Fail
  }

  /** The chunks that tile s exactly, if it is so tiled. */
  function ParseChunks(s: seq<byte>): Option<seq<Chunk>>
    decreases |s|
  {
    if s == [] then Some([])
    else
      match ReadChunk(s)
      case Fail => None
      case Got(c, n) =>
        match ParseChunks(s[n..])
        case None => None
        case Some(rest) => Some([c] + rest)
  }

  lemma Assoc(a: seq<byte>, b: seq<byte>, c: seq<byte>)
    ensures a + b + c == a + (b + c)
  {}

  /** What is left of a + u after a. */
  lemma DropLeft(a: seq<byte>, u: seq<byte>)
    ensures (a + u)[|a|..] == u
  {}

  lemma {:induction false} FlattenConcat(a: seq<Chunk>, b: seq<Chunk>)
    ensures Flatten(a + b) == Flatten(a) + Flatten(b)
  {
    if a == [] {
      assert a + b == b;
    } else {
      assert (a + b)[1..] == a[1..] + b;
      FlattenConcat(a[1..], b);
      Assoc(Raw(a[0]), Flatten(a[1..]), Flatten(b));
    }
  }

  lemma {:induction false} FlattenAt(cs: seq<Chunk>, i: nat)
    requires i < |cs|
    ensures Flatten(cs) == Flatten(cs[..i]) + (Raw(cs[i]) + Flatten(cs[i + 1..]))
  {
    var x := Raw(cs[i]) + Flatten(cs[i + 1..]);
    if i == 0 {
      assert [] + x == x;
    } else {
      var rest := cs[1..];
      FlattenAt(rest, i - 1);
      assert rest[i..] == cs[i + 1..] && rest[..i - 1] == cs[..i][1..];
      Assoc(Raw(cs[0]), Flatten(rest[..i - 1]), x);
    }
  }

  lemma ReadRaw(c: Chunk, t: seq<byte>)
    requires Sized(c)
    ensures ReadChunk(Raw(c) + t) == Got(c, |Raw(c)|)
  {
    var s, k := Raw(c) + t, |c.size|;
    UlebExtends(c.size, c.body + t);
    assert s[1..] == c.size + (c.body + t);
    assert s[1..1 + k] == c.size;
    assert s[1 + k..1 + k + |c.body|] == c.body;
  }

  lemma SplitAt(s: seq<byte>, k: nat)
    requires k <= |s|
    ensures s[..k] + s[k..] == s
  {}

  lemma ThreeSlices(s: seq<byte>, i: nat, j: nat)
    requires 1 <= i <= j <= |s|
    ensures [s[0]] + s[1..i] + s[i..j] == s[..j] && s[1..][..i - 1] == s[1..i]
  {}

  lemma RawOfRead(s: seq<byte>)
    requires ReadChunk(s).Got?
    ensures Sized(ReadChunk(s).value) && Raw(ReadChunk(s).value) == s[..ReadChunk(s).used]
  {
    var k := ReadUleb(s[1..]).used;
    UlebAlone(s[1..], k);
    ThreeSlices(s, 1 + k, ReadChunk(s).used);
  }

  lemma {:induction false} ParseFlatten(cs: seq<Chunk>)
    requires AllSized(cs)
    ensures ParseChunks(Flatten(cs)) == Some(cs)
  {
    if cs != [] {
      var t := Flatten(cs[1..]);
      ReadRaw(cs[0], t);
      ParseFlatten(cs[1..]);
      assert (Raw(cs[0]) + t)[|Raw(cs[0])|..] == t;
      assert [cs[0]] + cs[1..] == cs;
    }
  }

  lemma {:induction false} FlattenParse(s: seq<byte>)
    requires ParseChunks(s).Some?
    ensures Flatten(ParseChunks(s).value) == s && AllSized(ParseChunks(s).value)
    decreases |s|
  {
    if s != [] {
      var n := ReadChunk(s).used;
      RawOfRead(s);
      FlattenParse(s[n..]);
      SplitAt(s, n);
    }
  }

  // ---- Where the chunks are ----------------------------------------------------------

  /** The tools' record of one chunk: its id and absolute offsets. */
  datatype Header = Header(id: byte, hdr: nat, body: nat, size: nat)

  function HeaderOf(c: Chunk, off: nat): Header {
    Header(c.id, off, off + 1 + |c.size|, |c.body|)
  }

  function Headers(cs: seq<Chunk>, off: nat): (hs: seq<Header>)
    ensures |hs| == |cs|
  {
    if cs == [] then [] else [HeaderOf(cs[0], off)] + Headers(cs[1..], off + |Raw(cs[0])|)
  }

  lemma {:induction false} HeaderAt(cs: seq<Chunk>, off: nat, i: nat)
    requires i < |cs|
    ensures Headers(cs, off)[i] == HeaderOf(cs[i], off + |Flatten(cs[..i])|)
  {
    if i > 0 {
      HeaderAt(cs[1..], off + |Raw(cs[0])|, i - 1);
      assert cs[..i][1..] == cs[1..][..i - 1];
    }
  }

  /** Where chunk i starts if chunk 0 starts at `off`. */
  function OffsetOf(cs: seq<Chunk>, off: nat, i: nat): nat
    requires i <= |cs|
  {
    off + |Flatten(cs[..i])|
  }

  lemma NextOffset(cs: seq<Chunk>, off: nat, i: nat)
    requires i < |cs|
    ensures OffsetOf(cs, off, i + 1) == OffsetOf(cs, off, i) + |Raw(cs[i])|
  {
    FlattenConcat(cs[..i], [cs[i]]);
    assert cs[..i] + [cs[i]] == cs[..i + 1];
    assert Flatten([cs[i]]) == Raw(cs[i]) + [];
  }

  /** The chunks tile a slice of the buffer. */
  predicate Tiled(buf: seq<byte>, start: nat, end: nat, cs: seq<Chunk>) {
    start <= end <= |buf| && AllSized(cs) && Flatten(cs) == buf[start..end]
  }

  lemma TiledIffParsed(buf: seq<byte>, start: nat, end: nat, cs: seq<Chunk>)
    requires start <= end <= |buf|
    ensures Tiled(buf, start, end, cs) <==> ParseChunks(buf[start..end]) == Some(cs)
  {
    if AllSized(cs) { ParseFlatten(cs); }
    if ParseChunks(buf[start..end]).Some? { FlattenParse(buf[start..end]); }
  }

  lemma EndOffset(buf: seq<byte>, start: nat, end: nat, cs: seq<Chunk>)
    requires Tiled(buf, start, end, cs)
    ensures OffsetOf(cs, start, |cs|) == end
  {
    assert cs[..|cs|] == cs;
  }

  /** A slice of the buffer that holds x, from some point on. */
  lemma SliceAt(buf: seq<byte>, start: nat, end: nat, a: seq<byte>, x: seq<byte>, b: seq<byte>)
    requires start <= end <= |buf| && buf[start..end] == a + (x + b)
    ensures start + |a| + |x| <= end && buf[start + |a|..start + |a| + |x|] == x
  {
    forall k | 0 <= k < |x| ensures buf[start + |a| + k] == x[k] {
      assert buf[start..end][|a| + k] == (a + (x + b))[|a| + k];
    }
  }

  /** Chunk i lies at its offset, byte for byte. */
  lemma ChunkAt(buf: seq<byte>, start: nat, end: nat, cs: seq<Chunk>, i: nat)
    requires Tiled(buf, start, end, cs) && i < |cs|
    ensures var off := OffsetOf(cs, start, i);
      && off + |Raw(cs[i])| <= end
      && buf[off..off + |Raw(cs[i])|] == Raw(cs[i])
  {
    FlattenAt(cs, i);
    SliceAt(buf, start, end, Flatten(cs[..i]), Raw(cs[i]), Flatten(cs[i + 1..]));
  }

  /** Reading a size field in place. */
  lemma SizeAt(buf: seq<byte>, off: nat, c: Chunk)
    requires Sized(c) && off + |Raw(c)| <= |buf| && buf[off..off + |Raw(c)|] == Raw(c)
    ensures buf[off] == c.id
    ensures ReadUleb(From(buf, off + 1)) == Got(|c.body|, |c.size|)
  {
    var end := off + |Raw(c)|;
    assert Raw(c)[1..] == c.size + c.body;
    assert buf[off + 1..] == Raw(c)[1..] + buf[end..];
    UlebExtends(c.size, c.body + buf[end..]);
    assert c.size + (c.body + buf[end..]) == c.size + c.body + buf[end..];
  }

  /** The id and size field of chunk i, in place. */
  lemma FieldsAt(buf: seq<byte>, start: nat, end: nat, cs: seq<Chunk>, i: nat, off: nat)
    requires Tiled(buf, start, end, cs) && i < |cs| && off == OffsetOf(cs, start, i)
    ensures off + |Raw(cs[i])| <= end && buf[off] == cs[i].id
    ensures ReadUleb(From(buf, off + 1)) == Got(|cs[i].body|, |cs[i].size|)
  {
    ChunkAt(buf, start, end, cs, i);
    SizeAt(buf, off, cs[i]);
  }

  lemma HeaderTurn(buf: seq<byte>, start: nat, end: nat, cs: seq<Chunk>, i: nat)
    requires Tiled(buf, start, end, cs) && i < |cs|
    ensures var off, c := OffsetOf(cs, start, i), cs[i];
      && off < |buf| && buf[off] == c.id
      && ReadUleb(From(buf, off + 1)) == Got(|c.body|, |c.size|)
      && OffsetOf(cs, start, i + 1) == off + 1 + |c.size| + |c.body| <= end
      && Headers(cs, start)[i] == HeaderOf(c, off)
  {
    FieldsAt(buf, start, end, cs, i, OffsetOf(cs, start, i));
    HeaderAt(cs, start, i);
    NextOffset(cs, start, i);
  }

  /** parse_sections, and the subsection walk of parse_linking_section. */
  method ParseHeaders(buf: seq<byte>, start: nat, end: nat, ghost cs: seq<Chunk>) returns (r: Option<seq<Header>>)
    requires end <= |buf|
    ensures Tiled(buf, start, end, cs) ==> r == Some(Headers(cs, start))
  {
    ghost var good := Tiled(buf, start, end, cs);
    ghost var all := Headers(cs, start);
    if good { EndOffset(buf, start, end, cs); }
    var off, hs := start, [];
    while off < end
      invariant good ==> |hs| <= |cs| && off == OffsetOf(cs, start, |hs|) <= end && hs == all[..|hs|]
      decreases end - off
    {
      if good { HeaderTurn(buf, start, end, cs, |hs|); }
      var size := ReadUlebAt(buf, off + 1);
      if size.Fail? { return None; }
      var h := Header(buf[off], off, off + 1 + size.used, size.value);
      var next := off + 1 + size.used + size.value;
      assert good ==> h == all[|hs|] && next == OffsetOf(cs, start, |hs| + 1);
      assert good ==> all[..|hs|] + [h] == all[..|hs| + 1];
      hs, off := hs + [h], next;
    }
    if good && |hs| < |cs| { HeaderTurn(buf, start, end, cs, |hs|); }
    assert good ==> hs == all[..|all|] == all;
    r := Some(hs);
  }

  // ---- Names and the linking section ---------------------------------------------------

  function ReadName(s: seq<byte>): (r: Read<seq<byte>>)
    ensures r.Got? ==> r.used <= |s|
  {
    match ReadUleb(s)
    case Fail => Fail
    case Got(n, k) =>
      if k + n <= |s| && Utf8.Valid(s[k..k + n]) then Got(s[k..k + n], k + n) else Fail
  }

  function WriteName(name: seq<byte>): seq<byte> { WriteUleb(|name|) + name }

  lemma MidSlice(a: seq<byte>, b: seq<byte>, c: seq<byte>, k: nat, n: nat)
    requires k == |a| && n == k + |b|
    ensures (a + (b + c))[k..n] == b
  {}

  lemma NameRoundTrip(name: seq<byte>, t: seq<byte>)
    requires Utf8.Valid(name)
    ensures ReadName(WriteName(name) + t) == Got(name, |WriteName(name)|)
  {
    var a := WriteUleb(|name|);
    UlebRoundTrip(|name|, name + t);
    Assoc(a, name, t);
    MidSlice(a, name, t, |a|, |a| + |name|);
  }

  lemma NameLocal(s: seq<byte>, t: seq<byte>)
    requires ReadName(s).Got?
    ensures ReadName(s[..ReadName(s).used] + t) == ReadName(s)
  {
    var k, n := ReadUleb(s).used, ReadName(s).used;
    UlebLocal(s, s[k..n] + t);
    assert s[..k] + (s[k..n] + t) == s[..n] + t;
    assert (s[..n] + t)[k..n] == s[k..n];
  }

  const LINKING: seq<byte> := [108, 105, 110, 107, 105, 110, 103]

  /** The name "linking" and the version. */
  function ReadPreamble(s: seq<byte>): (r: Read<nat>)
    ensures r.Got? ==> r.used <= |s|
  {
    var name := ReadName(s);
    if name.Fail? || name.value != LINKING then Fail
    else
      match ReadUleb(s[name.used..])
      case Fail => Fail
      case Got(version, k) => Got(version, name.used + k)
  }

  lemma NameExtends(s: seq<byte>, n: nat, t: seq<byte>)
    requires ReadName(s).Got? && ReadName(s).used <= n <= |s|
    ensures ReadName(s[..n] + t) == ReadName(s)
  {
    var k := ReadName(s).used;
    NameLocal(s, s[k..n] + t);
    assert s[..k] + (s[k..n] + t) == s[..n] + t;
  }

  lemma PreambleFrom(s: seq<byte>, u: seq<byte>, k: nat)
    requires ReadName(s).Got? && ReadName(s).used == k && ReadName(u) == ReadName(s)
    requires ReadUleb(u[k..]) == ReadUleb(s[k..])
    ensures ReadPreamble(u) == ReadPreamble(s)
  {}

  lemma TakeDrop(s: seq<byte>, t: seq<byte>, k: nat, m: nat, n: nat)
    requires n == k + m && n <= |s|
    ensures (s[..n] + t)[k..] == s[k..][..m] + t
  {}

  lemma PreambleLocal(s: seq<byte>, t: seq<byte>)
    requires ReadPreamble(s).Got?
    ensures ReadPreamble(s[..ReadPreamble(s).used] + t) == ReadPreamble(s)
  {
    var k, n := ReadName(s).used, ReadPreamble(s).used;
    var m, u := ReadUleb(s[k..]).used, s[..n] + t;
    assert ReadName(u) == ReadName(s) by { NameExtends(s, n, t); }
    assert ReadUleb(u[k..]) == ReadUleb(s[k..]) by {
      UlebLocal(s[k..], t);
      TakeDrop(s, t, k, m, n);
    }
    PreambleFrom(s, u, k);
  }

  lemma PreambleAlone(s: seq<byte>, p: seq<byte>)
    requires ReadPreamble(s).Got? && p == s[..ReadPreamble(s).used]
    ensures ReadPreamble(p) == ReadPreamble(s)
  {
    PreambleLocal(s, []);
    assert p + [] == p;
  }

  datatype Linking = Linking(preamble: seq<byte>, subs: seq<Chunk>)

  function Body(l: Linking): seq<byte> { l.preamble + Flatten(l.subs) }

  function ParseLinking(body: seq<byte>): Option<Linking> {
    match ReadPreamble(body)
    case Fail => None
    case Got(_, k) =>
      match ParseChunks(body[k..])
      case None => None
      case Some(subs) => Some(Linking(body[..k], subs))
  }

  ghost predicate ValidLinking(l: Linking) {
    ReadPreamble(l.preamble).Got? && ReadPreamble(l.preamble).used == |l.preamble| && AllSized(l.subs)
  }

  /** ParseLinking and Body are inverse. */
  lemma ParseBody(l: Linking)
    requires ValidLinking(l)
    ensures ParseLinking(Body(l)) == Some(l)
  {
    PreambleLocal(l.preamble, Flatten(l.subs));
    assert l.preamble[..|l.preamble|] == l.preamble;
    ParseFlatten(l.subs);
    assert Body(l)[|l.preamble|..] == Flatten(l.subs) && Body(l)[..|l.preamble|] == l.preamble;
  }

  lemma ParseLinkingParts(body: seq<byte>, l: Linking, k: nat)
    requires ParseLinking(body) == Some(l) && k == ReadPreamble(body).used
    ensures ReadPreamble(body).Got? && l.preamble == body[..k] && ParseChunks(body[k..]) == Some(l.subs)
  {}

  lemma BodyParse(body: seq<byte>, l: Linking)
    requires ParseLinking(body) == Some(l)
    ensures ValidLinking(l) && Body(l) == body
  {
    var k := ReadPreamble(body).used;
    ParseLinkingParts(body, l, k);
    PreambleAlone(body, l.preamble);
    FlattenParse(body[k..]);
    SplitAt(body, k);
  }

  predicate IsLinking(c: Chunk) {
    c.id == 0 && ReadName(c.body).Got? && ReadName(c.body).value == LINKING
  }

  lemma LinkingIsLinking(c: Chunk)
    requires c.id == 0 && ParseLinking(c.body).Some?
    ensures IsLinking(c)
  {}

  // ---- Replacing one subsection of one section ------------------------------------------

  const SYMBOL_TABLE: byte := 8

  function WithTable(l: Linking, tab: nat, table: seq<byte>): Linking
    requires tab < |l.subs|
  {
    l.(subs := l.subs[tab := Chunk(SYMBOL_TABLE, WriteUleb(|table|), table)])
  }

  function WithLinking(cs: seq<Chunk>, at: nat, l: Linking): seq<Chunk>
    requires at < |cs|
  {
    cs[at := Chunk(0, WriteUleb(|Body(l)|), Body(l))]
  }

  lemma WrittenSized(id: byte, body: seq<byte>)
    ensures Sized(Chunk(id, WriteUleb(|body|), body))
  {
    UlebRoundTrip(|body|, []);
    assert WriteUleb(|body|) + [] == WriteUleb(|body|);
  }

  /** Re-parsing a file with one subsection replaced finds everything else as it was. */
  lemma SpliceReparses(cs: seq<Chunk>, at: nat, tab: nat, table: seq<byte>)
    requires AllSized(cs) && at < |cs| && ParseLinking(cs[at].body).Some?
    requires tab < |ParseLinking(cs[at].body).value.subs|
    ensures var l := WithTable(ParseLinking(cs[at].body).value, tab, table);
      var cs' := WithLinking(cs, at, l);
      && ParseChunks(Flatten(cs')) == Some(cs')
      && ParseLinking(cs'[at].body) == Some(l)
  {
    var before := ParseLinking(cs[at].body).value;
    BodyParse(cs[at].body, before);
    WrittenSized(SYMBOL_TABLE, table);
    var l := WithTable(before, tab, table);
    ParseBody(l);
    WrittenSized(0, Body(l));
    ParseFlatten(WithLinking(cs, at, l));
  }

  lemma FlattenReplace(cs: seq<Chunk>, i: nat, c: Chunk)
    requires i < |cs|
    ensures Flatten(cs[i := c]) == Flatten(cs[..i]) + (Raw(c) + Flatten(cs[i + 1..]))
  {
    var ds := cs[i := c];
    FlattenAt(ds, i);
    assert ds[..i] == cs[..i] && ds[i + 1..] == cs[i + 1..];
  }

  lemma Halves(buf: seq<byte>, start: nat, end: nat, a: seq<byte>, b: seq<byte>)
    requires start <= end <= |buf| && buf[start..end] == a + b
    ensures start + |a| <= end && buf[start..start + |a|] == a && buf[start + |a|..end] == b
  {
    assert buf[start..end][..|a|] == buf[start..start + |a|];
    assert buf[start..end][|a|..] == buf[start + |a|..end];
  }

  /** What lies before and after chunk i. */
  lemma Around(buf: seq<byte>, start: nat, end: nat, cs: seq<Chunk>, i: nat)
    requires Tiled(buf, start, end, cs) && i < |cs|
    ensures var off := OffsetOf(cs, start, i);
      && start <= off && off + |Raw(cs[i])| <= end
      && buf[start..off] == Flatten(cs[..i])
      && buf[off + |Raw(cs[i])|..end] == Flatten(cs[i + 1..])
  {
    FlattenAt(cs, i);
    Halves(buf, start, end, Flatten(cs[..i]), Raw(cs[i]) + Flatten(cs[i + 1..]));
    Halves(buf, OffsetOf(cs, start, i), end, Raw(cs[i]), Flatten(cs[i + 1..]));
  }

  lemma FirstAt(buf: seq<byte>, off: nat, x: seq<byte>)
    requires off + |x| <= |buf| && |x| > 0 && buf[off..off + |x|] == x
    ensures buf[off..off + 1] == [x[0]]
  {
    assert buf[off] == buf[off..off + |x|][0];
  }

  lemma JoinSlices(buf: seq<byte>, i: nat, j: nat, k: nat)
    requires i <= j <= k <= |buf|
    ensures buf[i..k] == buf[i..j] + buf[j..k]
  {}

  /** The body of a chunk, in place. */
  lemma BodyAt(buf: seq<byte>, off: nat, c: Chunk)
    requires off + |Raw(c)| <= |buf| && buf[off..off + |Raw(c)|] == Raw(c)
    ensures var h := HeaderOf(c, off); h.body + h.size == off + |Raw(c)| && buf[h.body..h.body + h.size] == c.body
  {
    Halves(buf, off, off + |Raw(c)|, [c.id] + c.size, c.body);
  }

  /** The headers the tools hold for a linking section and its symbol table. */
  ghost predicate Located(buf: seq<byte>, cs: seq<Chunk>, at: nat, l: Linking, tab: nat, sec: Header, sub: Header) {
    && |buf| >= 8 && Tiled(buf, 8, |buf|, cs)
    && at < |cs| && cs[at].id == 0 && cs[at].body == Body(l) && AllSized(l.subs)
    && tab < |l.subs| && l.subs[tab].id == SYMBOL_TABLE
    && sec == HeaderOf(cs[at], OffsetOf(cs, 8, at))
    && sub == HeaderOf(l.subs[tab], OffsetOf(l.subs, sec.body + |l.preamble|, tab))
  }

  /** The body of section `at` and its subsections, in place. */
  lemma LinkingAt(buf: seq<byte>, cs: seq<Chunk>, at: nat, l: Linking, sec: Header, start: nat, end: nat)
    requires Tiled(buf, 8, |buf|, cs) && at < |cs| && cs[at].body == Body(l) && AllSized(l.subs)
    requires sec == HeaderOf(cs[at], OffsetOf(cs, 8, at)) && start == sec.body + |l.preamble| && end == sec.body + sec.size
    ensures sec.body <= start <= end <= |buf| && buf[sec.body..start] == l.preamble
    ensures Tiled(buf, start, end, l.subs)
  {
    assert buf[sec.body..end] == l.preamble + Flatten(l.subs) by {
      ChunkAt(buf, 8, |buf|, cs, at);
      BodyAt(buf, sec.hdr, cs[at]);
    }
    Halves(buf, sec.body, end, l.preamble, Flatten(l.subs));
  }

  /** What lies before the size field of chunk i and after its body. */
  lemma Edges(buf: seq<byte>, start: nat, end: nat, cs: seq<Chunk>, i: nat, h: Header, mid: nat, after: nat)
    requires Tiled(buf, start, end, cs) && i < |cs| && h == HeaderOf(cs[i], OffsetOf(cs, start, i))
    requires mid == h.hdr + 1 && after == h.body + h.size
    ensures start <= h.hdr < mid <= after <= end
    ensures buf[start..mid] == Flatten(cs[..i]) + [cs[i].id] && buf[after..end] == Flatten(cs[i + 1..])
  {
    Around(buf, start, end, cs, i);
    assert buf[h.hdr..mid] == [cs[i].id] by {
      ChunkAt(buf, start, end, cs, i);
      FirstAt(buf, h.hdr, Raw(cs[i]));
    }
    JoinSlices(buf, start, h.hdr, mid);
  }

  /** Bytes p, chunks a, and a new chunk between them and d. */
  lemma Glue(p: seq<byte>, a: seq<byte>, id: byte, size: seq<byte>, body: seq<byte>, d: seq<byte>)
    ensures p + (a + [id]) + size + body + d == p + (a + ([id] + size + body + d))
  {}

  /** Cutting a new size field and body for chunk i into buf[at..end]. */
  method Replace(buf: seq<byte>, at: nat, end: nat, h: Header, size: seq<byte>, body: seq<byte>,
                 ghost start: nat, ghost cs: seq<Chunk>, ghost i: nat) returns (out: seq<byte>)
    requires at <= start && Tiled(buf, start, end, cs) && i < |cs| && h == HeaderOf(cs[i], OffsetOf(cs, start, i))
    ensures out == buf[at..start] + Flatten(cs[i := Chunk(cs[i].id, size, body)])
  {
    var mid, after := h.hdr + 1, h.body + h.size;
    Edges(buf, start, end, cs, i, h, mid, after);
    var head, tail := buf[at..mid], buf[after..end];
    JoinSlices(buf, at, start, mid);
    out := head + size + body + tail;
    Glue(buf[at..start], Flatten(cs[..i]), cs[i].id, size, body, tail);
    FlattenReplace(cs, i, Chunk(cs[i].id, size, body));
  }

  /** Cutting the new table into the section and the section into the file. */
  method Splice(buf: seq<byte>, sec: Header, sub: Header, table: seq<byte>,
                ghost cs: seq<Chunk>, ghost at: nat, ghost l: Linking, ghost tab: nat) returns (out: seq<byte>)
    requires Located(buf, cs, at, l, tab, sec, sub)
    ensures out == buf[..8] + Flatten(WithLinking(cs, at, WithTable(l, tab, table)))
  {
    ghost var start := sec.body + |l.preamble|;
    var end := sec.body + sec.size;
    LinkingAt(buf, cs, at, l, sec, start, end);
    var tableSize := WriteUlebLoop(|table|);
    var body := Replace(buf, sec.body, end, sub, tableSize, table, start, l.subs, tab);
    assert body == Body(WithTable(l, tab, table));
    var bodySize := WriteUlebLoop(|body|);
    out := Replace(buf, 0, |buf|, sec, bodySize, body, 8, cs, at);
  }
}
