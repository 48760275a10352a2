/** The symbol table subsection of the "linking" section. */
module WasmSymbols {
  import opened Bytes
  import opened Leb128
  import opened WasmObject
  import Utf8

  // ---- Flag words ------------------------------------------------------------------

  predicate Bit(f: nat, k: nat) {
    if k == 0 then f % 2 == 1 else Bit(f / 2, k - 1)
  }

  /** f & ~(1 << k) */
  function ClearBit(f: nat, k: nat): nat {
    if k == 0 then f - f % 2 else 2 * ClearBit(f / 2, k - 1) + f % 2
  }

  lemma {:induction false} ClearBitClears(f: nat, k: nat, j: nat)
    ensures Bit(ClearBit(f, k), j) <==> j != k && Bit(f, j)
  {
    if k > 0 && j > 0 {
      ClearBitClears(f / 2, k - 1, j - 1);
      assert ClearBit(f, k) / 2 == ClearBit(f / 2, k - 1);
    } else if j > 0 {
      assert ClearBit(f, 0) / 2 == f / 2;
    }
  }

  predicate Undefined(flags: nat) { Bit(flags, 4) }
  predicate ExplicitName(flags: nat) { Bit(flags, 6) }
  predicate Absolute(flags: nat) { Bit(flags, 9) }

  // ---- Symbols -----------------------------------------------------------------------

  datatype Place = Place(segment: nat, offset: nat, size: nat)

  datatype Sym =
    | Indexed(kind: byte, flags: nat, index: nat, tag: Option<seq<byte>>)
    | Data(flags: nat, name: seq<byte>, place: Option<Place>)
    | SectionSym(flags: nat, section: nat)

  /** A name as characters; the names the tools look for are ASCII. */
  function Text(name: seq<byte>): string {
    seq(|name|, i requires 0 <= i < |name| => name[i] as char)
  }

  predicate IndexedKind(kind: byte) { kind == 0 || kind == 2 || kind == 4 || kind == 5 }

  predicate Named(flags: nat) { ExplicitName(flags) || !Undefined(flags) }

  predicate ValidSym(x: Sym) {
    match x
    case Indexed(kind, flags, _, tag) =>
      IndexedKind(kind) && (tag.Some? <==> Named(flags)) && (tag.Some? ==> Utf8.Valid(tag.value))
    case Data(flags, name, place) => Utf8.Valid(name) && (place.Some? <==> !Undefined(flags))
    case SectionSym(_, _) => true
  }

  predicate AllValid(xs: seq<Sym>) { forall i | 0 <= i < |xs| :: ValidSym(xs[i]) }

  function Kind(x: Sym): byte {
    match x
    case Indexed(kind, _, _, _) => kind
    case Data(_, _, _) => 1
    case SectionSym(_, _) => 3
  }

  // ---- Writing --------------------------------------------------------------------------

  function EncodePlace(p: Place): seq<byte> {
    WriteUleb(p.segment) + (WriteUleb(p.offset) + WriteUleb(p.size))
  }

  /** What follows the type and the flags. */
  function EncodeRest(x: Sym): seq<byte> {
    match x
    case Indexed(_, _, index, tag) => WriteUleb(index) + (if tag.Some? then WriteName(tag.value) else [])
    case Data(_, name, place) => WriteName(name) + (if place.Some? then EncodePlace(place.value) else [])
    case SectionSym(_, section) => WriteUleb(section)
  }

  /** encode_sym */
  function EncodeSym(x: Sym): seq<byte> {
    [Kind(x)] + (WriteUleb(x.flags) + EncodeRest(x))
  }

  function EncodeSyms(xs: seq<Sym>): seq<byte> {
    if xs == [] then [] else EncodeSym(xs[0]) + EncodeSyms(xs[1..])
  }

  function EncodeTable(xs: seq<Sym>): seq<byte> { WriteUleb(|xs|) + EncodeSyms(xs) }

  // ---- Reading --------------------------------------------------------------------------

  function After<T>(k: nat, r: Read<T>): Read<T> {
    if r.Fail? then Fail else Got(r.value, k + r.used)
  }

  function ReadPlace(s: seq<byte>): (r: Read<Place>)
    ensures r.Got? ==> r.used <= |s|
  {
    var a := ReadUleb(s);
    if a.Fail? then Fail else
      var u := s[a.used..];
      var b := ReadUleb(u);
      if b.Fail? then Fail else
        var c := ReadUleb(u[b.used..]);
        if c.Fail? then Fail else Got(Place(a.value, b.value, c.value), a.used + b.used + c.used)
  }

  function ReadIndexed(kind: byte, flags: nat, s: seq<byte>): (r: Read<Sym>)
    ensures r.Got? ==> r.used <= |s|
  {
    var i := ReadUleb(s);
    if i.Fail? then Fail
    else if !Named(flags) then Got(Indexed(kind, flags, i.value, None), i.used)
    else
      var n := ReadName(s[i.used..]);
      if n.Fail? then Fail else Got(Indexed(kind, flags, i.value, Some(n.value)), i.used + n.used)
  }

  function ReadData(flags: nat, s: seq<byte>): (r: Read<Sym>)
    ensures r.Got? ==> r.used <= |s|
  {
    var n := ReadName(s);
    if n.Fail? then Fail
    else if Undefined(flags) then Got(Data(flags, n.value, None), n.used)
    else
      var p := ReadPlace(s[n.used..]);
      if p.Fail? then Fail else Got(Data(flags, n.value, Some(p.value)), n.used + p.used)
  }

  function ReadSection(flags: nat, s: seq<byte>): (r: Read<Sym>)
    ensures r.Got? ==> r.used <= |s|
  {
    var i := ReadUleb(s);
    if i.Fail? then Fail else Got(SectionSym(flags, i.value), i.used)
  }

  function ReadRest(kind: byte, flags: nat, s: seq<byte>): (r: Read<Sym>)
    ensures r.Got? ==> r.used <= |s|
  {
    if IndexedKind(kind) then ReadIndexed(kind, flags, s)
    else if kind == 1 then ReadData(flags, s)
    else if kind == 3 then ReadSection(flags, s)
    else Fail
  }

  function ReadSym(s: seq<byte>): (r: Read<Sym>)
    ensures r.Got? ==> 1 <= r.used <= |s|
  {
    if s == [] then Fail
    else
      var u := s[1..];
      var f := ReadUleb(u);
      if f.Fail? then Fail else After(1 + f.used, ReadRest(s[0], f.value, u[f.used..]))
  }

  function Cons(x: Read<Sym>, xs: Read<seq<Sym>>): Read<seq<Sym>> {
    if x.Fail? || xs.Fail? then Fail else Got([x.value] + xs.value, x.used + xs.used)
  }

  function ReadSyms(s: seq<byte>, n: nat): (r: Read<seq<Sym>>)
    ensures r.Got? ==> r.used <= |s| && |r.value| == n
    decreases n
  {
    if n == 0 then Got([], 0)
    else
      var x := ReadSym(s);
      if x.Fail? then Fail else Cons(x, ReadSyms(s[x.used..], n - 1))
  }

  function ReadTable(s: seq<byte>): (r: Read<seq<Sym>>)
    ensures r.Got? ==> r.used <= |s|
  {
    var n := ReadUleb(s);
    if n.Fail? then Fail else After(n.used, ReadSyms(s[n.used..], n.value))
  }

  // ---- Everything read is valid, and reads back ---------------------------------------------

  lemma ReadSymValid(s: seq<byte>)
    requires ReadSym(s).Got?
    ensures ValidSym(ReadSym(s).value)
  {}

  lemma ConsValid(x: Sym, xs: seq<Sym>)
    requires ValidSym(x) && AllValid(xs)
    ensures AllValid([x] + xs)
  {}

  /** The first symbol, which is valid, and the rest. */
  lemma ReadSymsStep(s: seq<byte>, n: nat) returns (x: Sym, rest: seq<byte>)
    requires n > 0 && ReadSyms(s, n).Got?
    ensures ValidSym(x) && ReadSyms(rest, n - 1).Got?
    ensures ReadSyms(s, n).value == [x] + ReadSyms(rest, n - 1).value
  {
    ReadSymValid(s);
    var r := ReadSym(s);
    x, rest := r.value, s[r.used..];
  }

  lemma {:induction false} ReadSymsValid(s: seq<byte>, n: nat)
    requires ReadSyms(s, n).Got?
    ensures AllValid(ReadSyms(s, n).value)
    decreases n
  {
    if n > 0 {
      var x, rest := ReadSymsStep(s, n);
      ReadSymsValid(rest, n - 1);
      ConsValid(x, ReadSyms(rest, n - 1).value);
    }
  }

  lemma PlaceRoundTrip(p: Place, t: seq<byte>)
    ensures ReadPlace(EncodePlace(p) + t) == Got(p, |EncodePlace(p)|)
  {
    var a, b, c := WriteUleb(p.segment), WriteUleb(p.offset), WriteUleb(p.size);
    Assoc(a, b + c, t);
    Assoc(b, c, t);
    UlebRoundTrip(p.segment, b + (c + t));
    DropLeft(a, b + (c + t));
    UlebRoundTrip(p.offset, c + t);
    DropLeft(b, c + t);
    UlebRoundTrip(p.size, t);
  }

  lemma IndexedRoundTrip(x: Sym, t: seq<byte>)
    requires ValidSym(x) && x.Indexed?
    ensures ReadIndexed(x.kind, x.flags, EncodeRest(x) + t) == Got(x, |EncodeRest(x)|)
  {
    var a := WriteUleb(x.index);
    var b := if x.tag.Some? then WriteName(x.tag.value) else [];
    Assoc(a, b, t);
    UlebRoundTrip(x.index, b + t);
    if x.tag.Some? {
      DropLeft(a, b + t);
      NameRoundTrip(x.tag.value, t);
    }
  }

  lemma DataRoundTrip(x: Sym, t: seq<byte>)
    requires ValidSym(x) && x.Data?
    ensures ReadData(x.flags, EncodeRest(x) + t) == Got(x, |EncodeRest(x)|)
  {
    var a := WriteName(x.name);
    var b := if x.place.Some? then EncodePlace(x.place.value) else [];
    Assoc(a, b, t);
    NameRoundTrip(x.name, b + t);
    if x.place.Some? {
      DropLeft(a, b + t);
      PlaceRoundTrip(x.place.value, t);
    }
  }

  lemma RestRoundTrip(x: Sym, t: seq<byte>)
    requires ValidSym(x)
    ensures ReadRest(Kind(x), x.flags, EncodeRest(x) + t) == Got(x, |EncodeRest(x)|)
  {
    match x {
      case Indexed(_, _, _, _) => IndexedRoundTrip(x, t);
      case Data(_, _, _) => DataRoundTrip(x, t);
      case SectionSym(_, section) => UlebRoundTrip(section, t);
    }
  }

  /** A type byte, flags, and what a reader takes for the rest. */
  lemma SymFrom(kind: byte, flags: nat, b: seq<byte>, x: Sym, t: seq<byte>)
    requires ReadRest(kind, flags, b + t) == Got(x, |b|)
    ensures ReadSym([kind] + (WriteUleb(flags) + b) + t) == Got(x, 1 + |WriteUleb(flags)| + |b|)
  {
    var k, f := [kind], WriteUleb(flags);
    Assoc(k, f + b, t);
    Assoc(f, b, t);
    DropLeft(k, f + (b + t));
    UlebRoundTrip(flags, b + t);
    DropLeft(f, b + t);
  }

  lemma SymRoundTrip(x: Sym, t: seq<byte>)
    requires ValidSym(x)
    ensures ReadSym(EncodeSym(x) + t) == Got(x, |EncodeSym(x)|)
  {
    RestRoundTrip(x, t);
    SymFrom(Kind(x), x.flags, EncodeRest(x), x, t);
  }

  lemma SymsStep(x: Sym, xs: seq<Sym>, a: seq<byte>, k: nat, u: seq<byte>)
    requires ReadSym(a + u) == Got(x, |a|) && ReadSyms(u, |xs|) == Got(xs, k)
    ensures ReadSyms(a + u, 1 + |xs|) == Got([x] + xs, |a| + k)
  {
    DropLeft(a, u);
  }

  lemma {:induction false} SymsRoundTrip(xs: seq<Sym>, t: seq<byte>)
    requires AllValid(xs)
    ensures ReadSyms(EncodeSyms(xs) + t, |xs|) == Got(xs, |EncodeSyms(xs)|)
  {
    if xs != [] {
      var a, b := EncodeSym(xs[0]), EncodeSyms(xs[1..]);
      SymRoundTrip(xs[0], b + t);
      SymsRoundTrip(xs[1..], t);
      SymsStep(xs[0], xs[1..], a, |b|, b + t);
      Assoc(a, b, t);
      assert [xs[0]] + xs[1..] == xs;
    }
  }

  /** A written table reads back as the same list. */
  lemma TableRoundTrip(xs: seq<Sym>, t: seq<byte>)
    requires AllValid(xs)
    ensures ReadTable(EncodeTable(xs) + t) == Got(xs, |EncodeTable(xs)|)
  {
    var a, b := WriteUleb(|xs|), EncodeSyms(xs);
    Assoc(a, b, t);
    UlebRoundTrip(|xs|, b + t);
    DropLeft(a, b + t);
    SymsRoundTrip(xs, t);
  }

  // ---- The loops ------------------------------------------------------------------------------

  method ReadNameAt(buf: seq<byte>, off: nat) returns (r: Read<seq<byte>>)
    requires off <= |buf|
    ensures r == ReadName(buf[off..])
  {
    var n := ReadUlebAt(buf, off);
    if n.Fail? { return Fail; }
    var at := off + n.used;
    if at + n.value > |buf| { return Fail; }
    var name := buf[at..at + n.value];
    assert buf[off..][n.used..n.used + n.value] == name;
    r := if Utf8.Valid(name) then Got(name, n.used + n.value) else Fail;
  }

  method ReadPlaceAt(buf: seq<byte>, off: nat) returns (r: Read<Place>)
    requires off <= |buf|
    ensures r == ReadPlace(buf[off..])
  {
    var segment := ReadUlebAt(buf, off);
    if segment.Fail? { return Fail; }
    var so := off + segment.used;
    DropTwice(buf, off, segment.used, so);
    var offset := ReadUlebAt(buf, so);
    if offset.Fail? { return Fail; }
    var end := so + offset.used;
    DropTwice(buf, so, offset.used, end);
    var size := ReadUlebAt(buf, end);
    if size.Fail? { return Fail; }
    r := Got(Place(segment.value, offset.value, size.value), segment.used + offset.used + size.used);
  }

  method ReadIndexedAt(buf: seq<byte>, kind: byte, flags: nat, off: nat) returns (r: Read<Sym>)
    requires off <= |buf|
    ensures r == ReadIndexed(kind, flags, buf[off..])
  {
    var index := ReadUlebAt(buf, off);
    if index.Fail? { return Fail; }
    if !Named(flags) { return Got(Indexed(kind, flags, index.value, None), index.used); }
    var so := off + index.used;
    DropTwice(buf, off, index.used, so);
    var name := ReadNameAt(buf, so);
    r := if name.Fail? then Fail else Got(Indexed(kind, flags, index.value, Some(name.value)), index.used + name.used);
  }

  method ReadDataAt(buf: seq<byte>, flags: nat, off: nat) returns (r: Read<Sym>)
    requires off <= |buf|
    ensures r == ReadData(flags, buf[off..])
  {
    var name := ReadNameAt(buf, off);
    if name.Fail? { return Fail; }
    if Undefined(flags) { return Got(Data(flags, name.value, None), name.used); }
    var so := off + name.used;
    DropTwice(buf, off, name.used, so);
    var place := ReadPlaceAt(buf, so);
    r := if place.Fail? then Fail else Got(Data(flags, name.value, Some(place.value)), name.used + place.used);
  }

  /** What follows the type and the flags, by type. */
  method ReadRestAt(buf: seq<byte>, kind: byte, flags: nat, off: nat) returns (r: Read<Sym>)
    requires off <= |buf|
    ensures r == ReadRest(kind, flags, buf[off..])
  {
    if IndexedKind(kind) {
      r := ReadIndexedAt(buf, kind, flags, off);
    } else if kind == 1 {
      r := ReadDataAt(buf, flags, off);
    } else if kind == 3 {
      var section := ReadUlebAt(buf, off);
      r := if section.Fail? then Fail else Got(SectionSym(flags, section.value), section.used);
    } else {
      r := Fail;
    }
  }

  method ReadSymAt(buf: seq<byte>, off: nat) returns (r: Read<Sym>)
    requires off <= |buf|
    ensures r == ReadSym(buf[off..])
  {
    if off == |buf| { return Fail; }
    DropTwice(buf, off, 1, off + 1);
    var flags := ReadUlebAt(buf, off + 1);
    if flags.Fail? { return Fail; }
    var so := off + 1 + flags.used;
    DropTwice(buf, off + 1, flags.used, so);
    var rest := ReadRestAt(buf, buf[off], flags.value, so);
    if rest.Fail? { return Fail; }
    r := Got(rest.value, 1 + flags.used + rest.used);
  }

  ghost function Prefixed(symbols: seq<Sym>, rest: Read<seq<Sym>>): Option<seq<Sym>> {
    if rest.Fail? then None else Some(symbols + rest.value)
  }

  lemma PrefixedTurn(symbols: seq<Sym>, s: seq<byte>, n: nat, x: Read<Sym>)
    requires x == ReadSym(s)
    ensures x.Fail? ==> ReadSyms(s, n + 1).Fail?
    ensures x.Got? ==> Prefixed(symbols, ReadSyms(s, n + 1)) == Prefixed(symbols + [x.value], ReadSyms(s[x.used..], n))
  {
    if x.Got? && ReadSyms(s[x.used..], n).Got? {
      var xs := ReadSyms(s[x.used..], n).value;
      assert symbols + ([x.value] + xs) == symbols + [x.value] + xs;
    }
  }

  lemma TableStart(table: seq<byte>)
    ensures var n := ReadUleb(table);
      n.Got? ==> Prefixed([], ReadTable(table)) == Prefixed([], ReadSyms(table[n.used..], n.value))
    ensures ReadUleb(table).Fail? ==> ReadTable(table).Fail?
  {}

  /** One turn of the symbol loop: the next symbol and the offset after it. */
  method ReadNext(table: seq<byte>, so: nat, symbols: seq<Sym>, ghost more: nat) returns (x: Option<Sym>, off: nat)
    requires so <= |table|
    ensures off <= |table|
    ensures x.None? ==> ReadSyms(table[so..], more + 1).Fail?
    ensures x.Some? ==>
      Prefixed(symbols, ReadSyms(table[so..], more + 1)) == Prefixed(symbols + [x.value], ReadSyms(table[off..], more))
  {
    var r := ReadSymAt(table, so);
    PrefixedTurn(symbols, table[so..], more, r);
    if r.Fail? { return None, so; }
    off := so + r.used;
    DropTwice(table, so, r.used, off);
    x := Some(r.value);
  }

  /** The symbol loop of parse_linking_section, over the body of the subsection. */
  method ReadTableLoop(table: seq<byte>) returns (r: Option<seq<Sym>>)
    ensures r == Prefixed([], ReadTable(table))
  {
    var count := ReadUlebAt(table, 0);
    TableStart(table);
    if count.Fail? { return None; }
    var so: nat, left, symbols := count.used, count.value, [];
    ghost var spec := Prefixed([], ReadTable(table));
    while left > 0
      invariant so <= |table| && spec == Prefixed(symbols, ReadSyms(table[so..], left))
      decreases left
    {
      left := left - 1;
      var x, off := ReadNext(table, so, symbols, left);
      if x.None? { return None; }
      so, symbols := off, symbols + [x.value];
    }
    assert symbols + [] == symbols;
    r := Some(symbols);
  }

  /** Rebuilding the symbol table subsection. */
  method EncodeTableLoop(xs: seq<Sym>) returns (out: seq<byte>)
    ensures out == EncodeTable(xs)
  {
    out := WriteUlebLoop(|xs|);
    var left := xs;
    while left != []
      invariant out + EncodeSyms(left) == EncodeTable(xs)
      decreases |left|
    {
      Assoc(out, EncodeSym(left[0]), EncodeSyms(left[1..]));
      out, left := out + EncodeSym(left[0]), left[1..];
    }
    assert out + [] == out;
  }
}
