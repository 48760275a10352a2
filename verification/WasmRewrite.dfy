/**
 * Rewriting the symbol table of an object file: find the linking section and
 * its table, re-encode an edited symbol list, splice it in. Both tools share
 * this; they differ in which linking section they take if there are several,
 * and in which symbol table of it they replace.
 */
module WasmRewrite {
  import opened Bytes
  import opened Leb128
  import opened WasmObject
  import opened WasmSymbols

  /**
   * An opened object: its sections, the linking section used, the first and the
   * last symbol table in it, and the symbols, which are those of the last.
   */
  datatype Obj = Obj(sections: seq<Chunk>, at: nat, linking: Linking, first: nat, tab: nat, syms: seq<Sym>)

  datatype Pick = First | Last

  /** Every custom section that is looked at has a readable name; a search for the first stops at `at`. */
  predicate Readable(cs: seq<Chunk>, pick: Pick, at: int) {
    forall i | 0 <= i < |cs| && cs[i].id == 0 && (pick.Last? || i < at) :: ReadName(cs[i].body).Got?
  }

  /** Every symbol table can be read. */
  predicate TablesRead(subs: seq<Chunk>) {
    forall i | 0 <= i < |subs| && subs[i].id == SYMBOL_TABLE :: ReadTable(subs[i].body).Got?
  }

  /** The first or last marked index, or -1. */
  function FindMark(m: seq<bool>, pick: Pick): (at: int)
    ensures -1 <= at < |m| && (at >= 0 ==> m[at])
  {
    if m == [] then -1
    else if pick.Last? then
      var n := |m| - 1;
      if m[n] then n else FindMark(m[..n], pick)
    else if m[0] then 0
    else
      var i := FindMark(m[1..], pick);
      if i < 0 then -1 else i + 1
  }

  function LinkingMarks(cs: seq<Chunk>): (m: seq<bool>)
    ensures |m| == |cs|
  {
    if cs == [] then [] else [IsLinking(cs[0])] + LinkingMarks(cs[1..])
  }

  function IdMarks(cs: seq<Chunk>, id: byte): (m: seq<bool>)
    ensures |m| == |cs|
  {
    if cs == [] then [] else [cs[0].id == id] + IdMarks(cs[1..], id)
  }

  /** The first or last chunk with this id, or -1. */
  function FindId(cs: seq<Chunk>, id: byte, pick: Pick): (at: int)
    ensures -1 <= at < |cs|
  {
    FindMark(IdMarks(cs, id), pick)
  }

  function FindLinking(cs: seq<Chunk>, pick: Pick): (at: int)
    ensures -1 <= at < |cs|
  {
    FindMark(LinkingMarks(cs), pick)
  }

  lemma {:induction false} LinkingMarkAt(cs: seq<Chunk>, i: nat)
    requires i < |cs|
    ensures LinkingMarks(cs)[i] == IsLinking(cs[i])
  {
    if i > 0 { LinkingMarkAt(cs[1..], i - 1); }
  }

  lemma {:induction false} IdMarkAt(cs: seq<Chunk>, id: byte, i: nat)
    requires i < |cs|
    ensures IdMarks(cs, id)[i] == (cs[i].id == id)
  {
    if i > 0 { IdMarkAt(cs[1..], id, i - 1); }
  }

  lemma {:induction false} LinkingMarksKept(cs: seq<Chunk>, at: nat, c: Chunk)
    requires at < |cs| && IsLinking(c) == IsLinking(cs[at])
    ensures LinkingMarks(cs[at := c]) == LinkingMarks(cs)
  {
    if at > 0 {
      LinkingMarksKept(cs[1..], at - 1, c);
      assert cs[at := c][1..] == cs[1..][at - 1 := c];
    }
  }

  lemma {:induction false} IdMarksKept(cs: seq<Chunk>, id: byte, at: nat, c: Chunk)
    requires at < |cs| && c.id == cs[at].id
    ensures IdMarks(cs[at := c], id) == IdMarks(cs, id)
  {
    if at > 0 {
      IdMarksKept(cs[1..], id, at - 1, c);
      assert cs[at := c][1..] == cs[1..][at - 1 := c];
    }
  }

  predicate InBounds(o: Obj) {
    o.at < |o.sections| && o.first < |o.linking.subs| && o.tab < |o.linking.subs|
  }

  function OpenLinking(cs: seq<Chunk>, at: nat): (r: Option<Obj>)
    requires at < |cs|
    ensures r.Some? ==> InBounds(r.value)
  {
    match ParseLinking(cs[at].body)
    case None => None
    case Some(l) =>
      var first, tab := FindId(l.subs, SYMBOL_TABLE, First), FindId(l.subs, SYMBOL_TABLE, Last);
      if first < 0 || tab < 0 || !TablesRead(l.subs) || ReadTable(l.subs[tab].body).Fail? then None
      else Some(Obj(cs, at, l, first, tab, ReadTable(l.subs[tab].body).value))
  }

  function Open(buf: seq<byte>, pick: Pick): (r: Option<Obj>)
    ensures r.Some? ==> |buf| >= 8 && InBounds(r.value)
  {
    if |buf| < 8 then None
    else
      match ParseChunks(buf[8..])
      case None => None
      case Some(cs) =>
        var at := FindLinking(cs, pick);
        if at < 0 || !Readable(cs, pick, at) then None
        else OpenLinking(cs, at)
  }

  /** The object after table `where` was replaced by one for xs; the symbols are those of the last table. */
  function Edited(o: Obj, where: nat, xs: seq<Sym>): Obj
    requires InBounds(o) && where < |o.linking.subs|
  {
    var l := WithTable(o.linking, where, EncodeTable(xs));
    Obj(WithLinking(o.sections, o.at, l), o.at, l, o.first, o.tab, if where == o.tab then xs else o.syms)
  }

  /** Same sections, byte for byte, but for linking; same subsections but for table `where`. */
  ghost predicate SameButTable(o: Obj, p: Obj, where: nat) {
    && |p.sections| == |o.sections| && p.at == o.at
    && (forall i | 0 <= i < |o.sections| && i != o.at :: p.sections[i] == o.sections[i])
    && p.linking.preamble == o.linking.preamble
    && |p.linking.subs| == |o.linking.subs| && p.first == o.first && p.tab == o.tab
    && (forall i | 0 <= i < |o.linking.subs| && i != where :: p.linking.subs[i] == o.linking.subs[i])
  }

  function Save(buf: seq<byte>, o: Obj, where: nat, xs: seq<Sym>): seq<byte>
    requires |buf| >= 8 && InBounds(o) && where < |o.linking.subs|
  {
    buf[..8] + Flatten(Edited(o, where, xs).sections)
  }

  // ---- Re-opening what was saved --------------------------------------------------------

  lemma ReadTableValid(t: seq<byte>)
    requires ReadTable(t).Got?
    ensures AllValid(ReadTable(t).value)
  {
    ReadSymsValid(t[ReadUleb(t).used..], ReadUleb(t).value);
  }

  /** What an opened linking section is made of. */
  ghost predicate LinkingParts(o: Obj) {
    && InBounds(o)
    && ParseLinking(o.sections[o.at].body) == Some(o.linking) && TablesRead(o.linking.subs)
    && o.first == FindId(o.linking.subs, SYMBOL_TABLE, First) && o.linking.subs[o.first].id == SYMBOL_TABLE
    && o.tab == FindId(o.linking.subs, SYMBOL_TABLE, Last) && o.linking.subs[o.tab].id == SYMBOL_TABLE
    && o.syms == ReadTable(o.linking.subs[o.tab].body).value
  }

  lemma OpenLinkingParts(cs: seq<Chunk>, at: nat, o: Obj)
    requires at < |cs| && OpenLinking(cs, at) == Some(o)
    ensures LinkingParts(o) && o.sections == cs && o.at == at && AllValid(o.syms)
  {
    IdMarkAt(o.linking.subs, SYMBOL_TABLE, o.first);
    IdMarkAt(o.linking.subs, SYMBOL_TABLE, o.tab);
    ReadTableValid(o.linking.subs[o.tab].body);
  }

  lemma OpenSections(buf: seq<byte>, cs: seq<Chunk>)
    requires |buf| >= 8 && ParseChunks(buf[8..]) == Some(cs)
    ensures Tiled(buf, 8, |buf|, cs)
  {
    assert buf[8..|buf|] == buf[8..];
    TiledIffParsed(buf, 8, |buf|, cs);
  }

  lemma FoundIsCustom(cs: seq<Chunk>, pick: Pick)
    requires FindLinking(cs, pick) >= 0
    ensures cs[FindLinking(cs, pick)].id == 0
  {
    LinkingMarkAt(cs, FindLinking(cs, pick));
  }

  lemma OpenParts(buf: seq<byte>, pick: Pick, o: Obj)
    requires Open(buf, pick) == Some(o)
    ensures LinkingParts(o) && AllValid(o.syms)
    ensures Tiled(buf, 8, |buf|, o.sections) && Readable(o.sections, pick, o.at)
    ensures o.at == FindLinking(o.sections, pick) && o.sections[o.at].id == 0
  {
    var cs := ParseChunks(buf[8..]).value;
    OpenLinkingParts(cs, FindLinking(cs, pick), o);
    FoundIsCustom(cs, pick);
    OpenSections(buf, cs);
  }

  lemma TablesStayRead(subs: seq<Chunk>, where: nat, xs: seq<Sym>, size: seq<byte>)
    requires TablesRead(subs) && where < |subs| && AllValid(xs)
    ensures ReadTable(EncodeTable(xs)) == Got(xs, |EncodeTable(xs)|)
    ensures TablesRead(subs[where := Chunk(SYMBOL_TABLE, size, EncodeTable(xs))])
  {
    TableRoundTrip(xs, []);
    assert EncodeTable(xs) + [] == EncodeTable(xs);
  }

  /** The linking section keeps its name, so the same section is found again. */
  lemma EditedFound(o: Obj, where: nat, xs: seq<Sym>, pick: Pick)
    requires LinkingParts(o) && AllSized(o.sections) && Readable(o.sections, pick, o.at)
    requires o.at == FindLinking(o.sections, pick)
    requires where < |o.linking.subs| && o.linking.subs[where].id == SYMBOL_TABLE
    ensures var e := Edited(o, where, xs);
      && Readable(e.sections, pick, o.at) && FindLinking(e.sections, pick) == o.at
      && FindId(e.linking.subs, SYMBOL_TABLE, First) == o.first && FindId(e.linking.subs, SYMBOL_TABLE, Last) == o.tab
      && ParseChunks(Flatten(e.sections)) == Some(e.sections) && ParseLinking(e.sections[o.at].body) == Some(e.linking)
  {
    var e := Edited(o, where, xs);
    SpliceReparses(o.sections, o.at, where, EncodeTable(xs));
    LinkingMarkAt(o.sections, o.at);
    LinkingIsLinking(e.sections[o.at]);
    LinkingMarksKept(o.sections, o.at, e.sections[o.at]);
    IdMarksKept(o.linking.subs, SYMBOL_TABLE, where, e.linking.subs[where]);
  }

  lemma EditedSame(o: Obj, where: nat, xs: seq<Sym>)
    requires InBounds(o) && where < |o.linking.subs|
    ensures SameButTable(o, Edited(o, where, xs), where)
  {}

  lemma ReopensLinking(e: Obj)
    requires InBounds(e) && TablesRead(e.linking.subs) && ReadTable(e.linking.subs[e.tab].body).Got?
    requires e.syms == ReadTable(e.linking.subs[e.tab].body).value
    requires ParseLinking(e.sections[e.at].body) == Some(e.linking)
    requires FindId(e.linking.subs, SYMBOL_TABLE, First) == e.first && FindId(e.linking.subs, SYMBOL_TABLE, Last) == e.tab
    ensures OpenLinking(e.sections, e.at) == Some(e)
  {}

  lemma OpenFrom(buf: seq<byte>, pick: Pick, e: Obj)
    requires |buf| >= 8 && ParseChunks(buf[8..]) == Some(e.sections) && InBounds(e) && Readable(e.sections, pick, e.at)
    requires FindLinking(e.sections, pick) == e.at && OpenLinking(e.sections, e.at) == Some(e)
    ensures Open(buf, pick) == Some(e)
  {}

  /** Re-parsing a saved file gives the same file with exactly the one table replaced. */
  lemma Reopens(buf: seq<byte>, pick: Pick, o: Obj, where: nat, xs: seq<Sym>)
    requires Open(buf, pick) == Some(o) && AllValid(xs)
    requires where < |o.linking.subs| && o.linking.subs[where].id == SYMBOL_TABLE
    ensures Open(Save(buf, o, where, xs), pick) == Some(Edited(o, where, xs))
    ensures Save(buf, o, where, xs)[..8] == buf[..8]
  {
    OpenParts(buf, pick, o);
    EditedFound(o, where, xs, pick);
    var e := Edited(o, where, xs);
    TablesStayRead(o.linking.subs, where, xs, WriteUleb(|EncodeTable(xs)|));
    ReopensLinking(e);
    assert Save(buf, o, where, xs)[8..] == Flatten(e.sections);
    OpenFrom(Save(buf, o, where, xs), pick, e);
  }

  // ---- Finding them by offset ---------------------------------------------------------------

  lemma {:induction false} MarkIs(m: seq<bool>, pick: Pick, i: nat)
    requires i < |m| && m[i]
    requires pick.First? ==> forall j | 0 <= j < i :: !m[j]
    requires pick.Last? ==> forall j | i < j < |m| :: !m[j]
    ensures FindMark(m, pick) == i
  {
    if pick.First? && i > 0 {
      MarkIs(m[1..], pick, i - 1);
    } else if pick.Last? && i < |m| - 1 {
      MarkIs(m[..|m| - 1], pick, i);
    }
  }

  /** The body of chunk i, cut from the file. */
  lemma ChunkBody(buf: seq<byte>, start: nat, end: nat, cs: seq<Chunk>, i: nat, h: Header)
    requires Tiled(buf, start, end, cs) && i < |cs| && h == Headers(cs, start)[i]
    ensures h == HeaderOf(cs[i], OffsetOf(cs, start, i)) && h.body + h.size <= |buf|
    ensures buf[h.body..h.body + h.size] == cs[i].body
  {
    HeaderAt(cs, start, i);
    ChunkAt(buf, start, end, cs, i);
    BodyAt(buf, OffsetOf(cs, start, i), cs[i]);
  }

  /** A custom section named "linking". */
  method NamedLinking(id: byte, body: seq<byte>, ghost c: Chunk) returns (yes: bool)
    requires id == c.id && body == c.body
    ensures yes <==> IsLinking(c)
  {
    if id != 0 { return false; }
    var name := ReadNameAt(body, 0);
    assert body[0..] == body;
    yes := name.Got? && name.value == LINKING;
  }

  /** The section loop of main: the first or the last custom section named "linking". */
  method PickLinking(buf: seq<byte>, hs: seq<Header>, pick: Pick, ghost cs: seq<Chunk>) returns (found: int)
    requires Tiled(buf, 8, |buf|, cs) && hs == Headers(cs, 8)
    ensures found == FindLinking(cs, pick)
  {
    ghost var m := LinkingMarks(cs);
    found := -1;
    var i := 0;
    while i < |hs| && (pick.Last? || found < 0)
      invariant 0 <= i <= |hs| == |m| && -1 <= found < i && (found >= 0 ==> m[found])
      invariant forall j | found < j < i :: !m[j]
      invariant pick.First? ==> forall j | 0 <= j < found :: !m[j]
    {
      var h := hs[i];
      ChunkBody(buf, 8, |buf|, cs, i, h);
      LinkingMarkAt(cs, i);
      var yes := NamedLinking(h.id, buf[h.body..h.body + h.size], cs[i]);
      if yes { found := i; }
      i := i + 1;
    }
    if found >= 0 { MarkIs(m, pick, found); }
  }

  /** The first or last section or subsection with an id. */
  method PickId(hs: seq<Header>, id: byte, pick: Pick, ghost cs: seq<Chunk>, ghost off: nat) returns (found: int)
    requires hs == Headers(cs, off)
    ensures found == FindId(cs, id, pick)
  {
    ghost var m := IdMarks(cs, id);
    found := -1;
    var i := 0;
    while i < |hs| && (pick.Last? || found < 0)
      invariant 0 <= i <= |hs| == |m| && -1 <= found < i && (found >= 0 ==> m[found])
      invariant forall j | found < j < i :: !m[j]
      invariant pick.First? ==> forall j | 0 <= j < found :: !m[j]
    {
      HeaderAt(cs, off, i);
      IdMarkAt(cs, id, i);
      if hs[i].id == id { found := i; }
      i := i + 1;
    }
    if found >= 0 { MarkIs(m, pick, found); }
  }

  lemma PreambleUsed(body: seq<byte>, l: Linking)
    requires ParseLinking(body) == Some(l)
    ensures ReadPreamble(body).Got? && ReadPreamble(body).used == |l.preamble|
    ensures body == Body(l) && AllSized(l.subs)
  {
    BodyParse(body, l);
    ParseLinkingParts(body, l, ReadPreamble(body).used);
  }

  /** The name and version, which lead the subsections. */
  method SkipPreamble(body: seq<byte>) returns (k: nat)
    requires ReadPreamble(body).Got?
    ensures k == ReadPreamble(body).used
  {
    var name := ReadNameAt(body, 0);
    assert body[0..] == body;
    var version := ReadUlebAt(body, name.used);
    k := name.used + version.used;
  }

  /** parse_linking_section: the first and the last symbol table, and the symbols of the last. */
  method ParseTable(buf: seq<byte>, start: nat, end: nat, ghost subs: seq<Chunk>, ghost f: nat, ghost tab: nat)
    returns (first: Header, sub: Header, syms: seq<Sym>)
    requires Tiled(buf, start, end, subs)
    requires FindId(subs, SYMBOL_TABLE, First) == f && FindId(subs, SYMBOL_TABLE, Last) == tab
    requires ReadTable(subs[tab].body).Got?
    ensures first == HeaderOf(subs[f], OffsetOf(subs, start, f))
    ensures sub == HeaderOf(subs[tab], OffsetOf(subs, start, tab)) && syms == ReadTable(subs[tab].body).value
  {
    var hs := ParseHeaders(buf, start, end, subs);
    var last := PickId(hs.value, SYMBOL_TABLE, Last, subs, start);
    sub := hs.value[last];
    ChunkBody(buf, start, end, subs, tab, sub);
    var r := ReadTableLoop(buf[sub.body..sub.body + sub.size]);
    syms := r.value;
    var at := PickId(hs.value, SYMBOL_TABLE, First, subs, start);
    first := hs.value[at];
    HeaderAt(subs, start, f);
  }

  /** parse_sections, and the linking section among them. */
  method LocateSection(buf: seq<byte>, pick: Pick, ghost cs: seq<Chunk>) returns (sec: Header)
    requires |buf| >= 8 && Tiled(buf, 8, |buf|, cs) && FindLinking(cs, pick) >= 0
    ensures var at := FindLinking(cs, pick);
      && sec == HeaderOf(cs[at], OffsetOf(cs, 8, at)) && sec.body + sec.size <= |buf|
      && buf[sec.body..sec.body + sec.size] == cs[at].body
  {
    var hs := ParseHeaders(buf, 8, |buf|, cs);
    var at := PickLinking(buf, hs.value, pick, cs);
    sec := hs.value[at];
    ChunkBody(buf, 8, |buf|, cs, at, sec);
  }

  /** The linking section in place, ready for ParseTable. */
  lemma SectionInPlace(buf: seq<byte>, o: Obj, sec: Header, start: nat, end: nat)
    requires LinkingParts(o) && Tiled(buf, 8, |buf|, o.sections)
    requires sec == HeaderOf(o.sections[o.at], OffsetOf(o.sections, 8, o.at))
    requires start == sec.body + |o.linking.preamble| && end == sec.body + sec.size
    ensures o.sections[o.at].body == Body(o.linking) && AllSized(o.linking.subs)
    ensures Tiled(buf, start, end, o.linking.subs)
  {
    PreambleUsed(o.sections[o.at].body, o.linking);
    LinkingAt(buf, o.sections, o.at, o.linking, sec, start, end);
  }

  /** The table of a located linking section. */
  method LocateTable(buf: seq<byte>, sec: Header, start: nat, ghost o: Obj) returns (first: Header, sub: Header, syms: seq<Sym>)
    requires LinkingParts(o) && Tiled(buf, 8, |buf|, o.sections)
    requires sec == HeaderOf(o.sections[o.at], OffsetOf(o.sections, 8, o.at)) && start == sec.body + |o.linking.preamble|
    ensures first == HeaderOf(o.linking.subs[o.first], OffsetOf(o.linking.subs, start, o.first))
    ensures sub == HeaderOf(o.linking.subs[o.tab], OffsetOf(o.linking.subs, start, o.tab)) && syms == o.syms
  {
    var end := sec.body + sec.size;
    SectionInPlace(buf, o, sec, start, end);
    first, sub, syms := ParseTable(buf, start, end, o.linking.subs, o.first, o.tab);
  }

  method Locate(buf: seq<byte>, pick: Pick, ghost o: Obj)
    returns (sec: Header, first: Header, sub: Header, syms: seq<Sym>)
    requires |buf| >= 8 && LinkingParts(o) && Tiled(buf, 8, |buf|, o.sections)
    requires o.at == FindLinking(o.sections, pick) && o.sections[o.at].id == 0
    ensures Located(buf, o.sections, o.at, o.linking, o.tab, sec, sub) && syms == o.syms
    ensures Located(buf, o.sections, o.at, o.linking, o.first, sec, first)
  {
    sec := LocateSection(buf, pick, o.sections);
    PreambleUsed(o.sections[o.at].body, o.linking);
    var k := SkipPreamble(buf[sec.body..sec.body + sec.size]);
    first, sub, syms := LocateTable(buf, sec, sec.body + k, o);
  }

  /** Rebuilding the table, the section and the file. */
  method Rewrite(buf: seq<byte>, sec: Header, sub: Header, xs: seq<Sym>, ghost o: Obj, ghost where: nat) returns (out: seq<byte>)
    requires Located(buf, o.sections, o.at, o.linking, where, sec, sub) && InBounds(o)
    ensures out == Save(buf, o, where, xs)
  {
    var table := EncodeTableLoop(xs);
    out := Splice(buf, sec, sub, table, o.sections, o.at, o.linking, where);
  }
}
