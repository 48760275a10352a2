/** Object files built from symbol tables and the body of a DATA section. */
module WasmFiles {
  import opened Bytes
  import opened Leb128
  import opened WasmObject
  import opened WasmSymbols
  import opened WasmRewrite
  import Utf8

  const DATA: byte := 11

  lemma {:induction false} AsciiValid(s: seq<byte>)
    requires forall i | 0 <= i < |s| :: s[i] < 0x80
    ensures Utf8.Valid(s)
  {
    if s != [] { AsciiValid(s[1..]); }
  }

  function Preamble(version: nat): seq<byte> { WriteName(LINKING) + WriteUleb(version) }

  lemma PreambleReads(version: nat)
    ensures ReadPreamble(Preamble(version)) == Got(version, |Preamble(version)|)
  {
    var v := WriteUleb(version);
    AsciiValid(LINKING);
    NameRoundTrip(LINKING, v);
    DropLeft(WriteName(LINKING), v);
    UlebRoundTrip(version, []);
    assert v + [] == v;
  }

  function TableChunk(xs: seq<Sym>): Chunk {
    Chunk(SYMBOL_TABLE, WriteUleb(|EncodeTable(xs)|), EncodeTable(xs))
  }

  /** A linking section that holds nothing but symbol tables. */
  function TablesOnly(version: nat, tables: seq<seq<Sym>>): Linking {
    Linking(Preamble(version), seq(|tables|, i requires 0 <= i < |tables| => TableChunk(tables[i])))
  }

  lemma TablesOnlyParses(version: nat, tables: seq<seq<Sym>>)
    ensures ParseLinking(Body(TablesOnly(version, tables))) == Some(TablesOnly(version, tables))
  {
    var l := TablesOnly(version, tables);
    PreambleReads(version);
    forall i | 0 <= i < |tables| ensures Sized(l.subs[i]) { WrittenSized(SYMBOL_TABLE, EncodeTable(tables[i])); }
    ParseBody(l);
  }

  lemma TablesOnlyRead(version: nat, tables: seq<seq<Sym>>)
    requires tables != [] && forall i | 0 <= i < |tables| :: AllValid(tables[i])
    ensures var subs := TablesOnly(version, tables).subs;
      && TablesRead(subs) && ReadTable(subs[|tables| - 1].body) == Got(tables[|tables| - 1], |subs[|tables| - 1].body|)
      && FindId(subs, SYMBOL_TABLE, First) == 0 && FindId(subs, SYMBOL_TABLE, Last) == |tables| - 1
  {
    var subs := TablesOnly(version, tables).subs;
    forall i | 0 <= i < |tables| ensures ReadTable(subs[i].body) == Got(tables[i], |subs[i].body|) {
      TableRoundTrip(tables[i], []);
      assert EncodeTable(tables[i]) + [] == EncodeTable(tables[i]);
    }
    IdMarkAt(subs, SYMBOL_TABLE, 0);
    IdMarkAt(subs, SYMBOL_TABLE, |tables| - 1);
    MarkIs(IdMarks(subs, SYMBOL_TABLE), First, 0);
    MarkIs(IdMarks(subs, SYMBOL_TABLE), Last, |tables| - 1);
  }

  lemma LinkingFound(data: Chunk, link: Chunk, pick: Pick)
    requires data.id == DATA && link.id == 0 && IsLinking(link)
    ensures FindLinking([data, link], pick) == 1 && Readable([data, link], pick, 1)
  {
    var cs := [data, link];
    LinkingMarkAt(cs, 0);
    LinkingMarkAt(cs, 1);
    MarkIs(LinkingMarks(cs), pick, 1);
  }

  /** The object made of a DATA section and a linking section of symbol tables. */
  function ObjectOf(before: seq<seq<Sym>>, xs: seq<Sym>, body: seq<byte>): Obj {
    var l := TablesOnly(2, before + [xs]);
    var data, link := Chunk(DATA, WriteUleb(|body|), body), Chunk(0, WriteUleb(|Body(l)|), Body(l));
    Obj([data, link], 1, l, 0, |before|, xs)
  }

  lemma ObjectLinking(before: seq<seq<Sym>>, xs: seq<Sym>, body: seq<byte>)
    requires AllValid(xs) && forall i | 0 <= i < |before| :: AllValid(before[i])
    ensures var o := ObjectOf(before, xs, body); OpenLinking(o.sections, o.at) == Some(o)
  {
    TablesOnlyParses(2, before + [xs]);
    TablesOnlyRead(2, before + [xs]);
    ReopensLinking(ObjectOf(before, xs, body));
  }

  lemma ObjectSections(before: seq<seq<Sym>>, xs: seq<Sym>, body: seq<byte>, pick: Pick)
    ensures var cs := ObjectOf(before, xs, body).sections;
      ParseChunks(Flatten(cs)) == Some(cs) && FindLinking(cs, pick) == 1 && Readable(cs, pick, 1)
  {
    var cs := ObjectOf(before, xs, body).sections;
    TablesOnlyParses(2, before + [xs]);
    LinkingIsLinking(cs[1]);
    LinkingFound(cs[0], cs[1], pick);
    WrittenSized(DATA, body);
    WrittenSized(0, cs[1].body);
    ParseFlatten(cs);
  }

  lemma ObjectOpens(header: seq<byte>, before: seq<seq<Sym>>, xs: seq<Sym>, body: seq<byte>, pick: Pick)
    requires |header| == 8 && AllValid(xs) && forall i | 0 <= i < |before| :: AllValid(before[i])
    ensures var o := ObjectOf(before, xs, body); Open(header + Flatten(o.sections), pick) == Some(o)
  {
    var o := ObjectOf(before, xs, body);
    var buf := header + Flatten(o.sections);
    ObjectLinking(before, xs, body);
    ObjectSections(before, xs, body, pick);
    assert buf[8..] == Flatten(o.sections);
    OpenFrom(buf, pick, o);
  }

  /** Every list of valid symbols stands in some file, whichever linking section is taken. */
  lemma ListHasAFile(header: seq<byte>, xs: seq<Sym>, body: seq<byte>, pick: Pick) returns (buf: seq<byte>, o: Obj)
    requires |header| == 8 && AllValid(xs)
    ensures Open(buf, pick) == Some(o) && o.syms == xs && buf[..8] == header
  {
    o := ObjectOf([], xs, body);
    buf := header + Flatten(o.sections);
    ObjectOpens(header, [], xs, body, pick);
  }
}
