/** The bracket fixer as a whole: open, rebind, fix the alias, save. */
module WasmFix {
  import opened Bytes
  import opened WasmObject
  import opened WasmSymbols
  import opened WasmRewrite
  import opened WasmBrackets
  import opened WasmFiles
  import WasmSegments
  import WasmBinding
  import opened Leb128

  const SEGMENT_INFO: byte := 5

  /** The segments of the last DATA section. */
  function Segments(o: Obj): Option<seq<WasmBinding.Seg>> {
    var d := FindId(o.sections, DATA, Last);
    if d < 0 then None else WasmSegments.ReadData(o.sections[d].body)
  }

  /** n segment descriptions: name, alignment, flags. */
  predicate InfoReads(s: seq<byte>, n: nat)
    decreases n
  {
    n == 0 ||
    var name := ReadName(s);
    name.Got? &&
    var align := ReadUleb(s[name.used..]);
    align.Got? &&
    var flags := ReadUleb(s[name.used + align.used..]);
    flags.Got? && InfoReads(s[name.used + align.used + flags.used..], n - 1)
  }

  /** Every segment info subsection can be read; the names in it are only printed. */
  predicate NamesRead(subs: seq<Chunk>) {
    forall i | 0 <= i < |subs| && subs[i].id == SEGMENT_INFO ::
      var n := ReadUleb(subs[i].body);
      n.Got? && InfoReads(subs[i].body[n.used..], n.value)
  }

  /** A relocatable object the tool can parse: it opens, has data, and has readable segment names. */
  predicate WellFormed(buf: seq<byte>) {
    var o := Open(buf, Last);
    o.Some? && Segments(o.value).Some? && NamesRead(o.value.linking.subs)
  }

  /** The last table is the first one. */
  predicate OneTable(o: Obj) { o.first == o.tab }

  function FixedSymbols(xs: seq<Sym>, segs: seq<WasmBinding.Seg>): seq<Sym> {
    FixAlias(Rebind(xs, segs))
  }

  /** The first five segments are printed with their starts. */
  predicate StartsPrint(segs: seq<WasmBinding.Seg>) {
    forall i | 0 <= i < |segs| && i < 5 :: segs[i].start.Some?
  }

  /** The alias is to be set to a segment there is none of, whose name cannot be printed. */
  predicate AliasStops(xs: seq<Sym>, segs: seq<WasmBinding.Seg>) {
    var t := AliasIndices(xs).1;
    AliasFound(xs) && !Absolute(xs[t].flags) && xs[t].place.value.segment >= |segs|
  }

  /** The file main writes, or None where it raises. */
  function FixedFile(buf: seq<byte>): Option<seq<byte>>
    requires WellFormed(buf)
  {
    var o := Open(buf, Last).value;
    var segs := Segments(o).value;
    var xs := Rebind(o.syms, segs);
    if !StartsPrint(segs) || AliasStops(xs, segs) then None
    else if AnyConversion(o.syms, segs) || AliasFound(xs) then Some(Save(buf, o, o.first, FixAlias(xs)))
    else Some(buf)
  }

  /** The DATA section of main's section loop, parsed. */
  method LoadSegments(buf: seq<byte>, ghost o: Obj) returns (segs: seq<WasmBinding.Seg>)
    requires Tiled(buf, 8, |buf|, o.sections) && Segments(o).Some?
    ensures segs == Segments(o).value
  {
    var hs := ParseHeaders(buf, 8, |buf|, o.sections);
    var d := PickId(hs.value, DATA, Last, o.sections, 8);
    var h := hs.value[d];
    ChunkBody(buf, 8, |buf|, o.sections, d, h);
    var r := WasmSegments.ReadDataLoop(buf[h.body..h.body + h.size]);
    segs := r.value;
  }

  /** alias_fixes, looking names up from the end. */
  method FindNamed(xs: seq<Sym>, name: string) returns (i: int)
    ensures i == LastNamed(xs, |xs|, name)
  {
    i := -1;
    for n := 0 to |xs|
      invariant i == LastNamed(xs, n, name)
    {
      if xs[n].Data? && Text(xs[n].name) == name { i := n; }
    }
  }

  method FixAliasLoop(xs: seq<Sym>, segs: seq<WasmBinding.Seg>) returns (ys: Option<seq<Sym>>, any: bool)
    ensures ys.None? <==> AliasStops(xs, segs)
    ensures ys.Some? ==> ys.value == FixAlias(xs) && (any <==> AliasFound(xs))
  {
    ys, any := Some(xs), false;
    var a := FindNamed(xs, "jiffies");
    var t := FindNamed(xs, "jiffies_64");
    if a < 0 || t < 0 || !NeedsAlias(xs[a], xs[t]) { return; }
    any := true;
    if Absolute(xs[t].flags) { return; }
    var p := xs[t].place.value;
    if p.segment >= |segs| { return None, true; }
    ys := Some(xs[a := xs[a].(flags := ClearBit(xs[a].flags, 9), place := Some(Place(p.segment, p.offset, 4)))]);
  }

  method PrintStarts(segs: seq<WasmBinding.Seg>) returns (ok: bool)
    ensures ok <==> StartsPrint(segs)
  {
    for i := 0 to if |segs| < 5 then |segs| else 5
      invariant forall j | 0 <= j < i :: segs[j].start.Some?
    {
      if segs[i].start.None? { return false; }
    }
    ok := true;
  }

  /** main */
  method FixBrackets(buf: seq<byte>) returns (out: Option<seq<byte>>)
    requires WellFormed(buf)
    ensures out == FixedFile(buf)
  {
    ghost var o := Open(buf, Last).value;
    OpenParts(buf, Last, o);
    var segs := LoadSegments(buf, o);
    var sec, table, _, syms := Locate(buf, Last, o);
    var printed := PrintStarts(segs);
    if !printed { return None; }
    var xs, converted := RebindLoop(syms, segs);
    var ys, aliased := FixAliasLoop(xs, segs);
    if ys.None? { return None; }
    if !converted && !aliased { return Some(buf); }
    var bytes := Rewrite(buf, sec, table, ys.value, o, o.first);
    out := Some(bytes);
  }

  // ---- When a file is written ------------------------------------------------------------------

  lemma {:induction false} RebindKeepsNames(xs: seq<Sym>, segs: seq<WasmBinding.Seg>, n: nat, name: string)
    requires n <= |xs|
    ensures LastNamed(Rebind(xs, segs), n, name) == LastNamed(xs, n, name)
  {
    if n > 0 {
      RebindKeepsNames(xs, segs, n - 1, name);
      if Binding(xs, segs, n - 1).Some? { BindingMeans(xs, segs, n - 1); }
    }
  }

  /** Rebinding does not change whether the alias stops the tool. */
  lemma AliasStopsBefore(xs: seq<Sym>, segs: seq<WasmBinding.Seg>)
    ensures AliasStops(Rebind(xs, segs), segs) <==> AliasStops(xs, segs)
  {
    RebindKeepsNames(xs, segs, |xs|, "jiffies");
    RebindKeepsNames(xs, segs, |xs|, "jiffies_64");
    var (a, t) := AliasIndices(xs);
    if a >= 0 && t >= 0 {
      if Binding(xs, segs, a).Some? { BindingMeans(xs, segs, a); }
      if Binding(xs, segs, t).Some? { BindingMeans(xs, segs, t); }
    }
  }

  /**
   * A file is written if and only if its first five segments have starts and it does
   * not alias jiffies to a segment that does not exist.
   */
  lemma FixWrittenIff(buf: seq<byte>, o: Obj, segs: seq<WasmBinding.Seg>)
    requires WellFormed(buf) && Open(buf, Last) == Some(o) && Segments(o) == Some(segs)
    ensures FixedFile(buf).Some? <==> StartsPrint(segs) && !AliasStops(o.syms, segs)
  {
    AliasStopsBefore(o.syms, segs);
  }

  // ---- What is in the file that is written ----------------------------------------------------------

  lemma NoConversion(xs: seq<Sym>, segs: seq<WasmBinding.Seg>)
    requires !AnyConversion(xs, segs)
    ensures Rebind(xs, segs) == xs
  {}

  lemma FixedSymbolsValid(xs: seq<Sym>, segs: seq<WasmBinding.Seg>)
    requires AllValid(xs)
    ensures AllValid(FixedSymbols(xs, segs))
  {
    RebindValid(xs, segs);
    var ys := Rebind(xs, segs);
    forall i | 0 <= i < |ys| ensures ValidSym(FixAlias(ys)[i]) { AliasMovesJiffiesOnly(ys, i); }
  }

  /** The DATA section and the segment names are where they were. */
  lemma EditedWellFormed(o: Obj, xs: seq<Sym>)
    requires InBounds(o) && o.sections[o.at].id == 0 && o.linking.subs[o.first].id == SYMBOL_TABLE
    ensures Segments(Edited(o, o.first, xs)) == Segments(o)
    ensures NamesRead(o.linking.subs) ==> NamesRead(Edited(o, o.first, xs).linking.subs)
  {
    var e, d := Edited(o, o.first, xs), FindId(o.sections, DATA, Last);
    IdMarksKept(o.sections, DATA, o.at, e.sections[o.at]);
    if d >= 0 { IdMarkAt(o.sections, DATA, d); }
  }

  /**
   * The new file is well formed and re-parses to the old one: same section list, every
   * section but linking byte-identical, same segments, same subsections but for the
   * first symbol table. The symbols a linker reads, those of the last table, are the
   * fixed ones if and only if that is the same table or nothing was to be fixed.
   */
  lemma FixReparses(buf: seq<byte>, o: Obj, segs: seq<WasmBinding.Seg>, out: seq<byte>) returns (p: Obj)
    requires WellFormed(buf) && Open(buf, Last) == Some(o) && Segments(o) == Some(segs) && FixedFile(buf) == Some(out)
    ensures WellFormed(out) && Open(out, Last) == Some(p) && Segments(p) == Some(segs)
    ensures SameButTable(o, p, o.first)
    ensures p.syms == FixedSymbols(o.syms, segs) <==> OneTable(o) || FixedSymbols(o.syms, segs) == o.syms
    ensures !OneTable(o) ==> p.syms == o.syms
  {
    var ys := FixedSymbols(o.syms, segs);
    if AnyConversion(o.syms, segs) || AliasFound(Rebind(o.syms, segs)) {
      OpenParts(buf, Last, o);
      FixedSymbolsValid(o.syms, segs);
      Reopens(buf, Last, o, o.first, ys);
      EditedSame(o, o.first, ys);
      EditedWellFormed(o, ys);
      p := Edited(o, o.first, ys);
    } else {
      NoConversion(o.syms, segs);
      p := o;
    }
  }

  /** The flags g are f without ABSOLUTE. */
  ghost predicate WithoutAbsolute(f: nat, g: nat) { forall j: nat :: Bit(g, j) <==> j != 9 && Bit(f, j) }

  lemma ClearBitIsWithout(f: nat)
    ensures WithoutAbsolute(f, ClearBit(f, 9))
  {
    forall j: nat ensures Bit(ClearBit(f, 9), j) <==> j != 9 && Bit(f, j) { ClearBitClears(f, 9, j); }
  }

  /** An absolute symbol bound to the same address, its name, size and other flags kept. */
  ghost predicate SameAddress(segs: seq<WasmBinding.Seg>, x: Sym, y: Sym) {
    && x.Data? && y.Data? && x.place.Some? && y.place.Some? && y.name == x.name
    && y.place.value.size == x.place.value.size && Absolute(x.flags) && WithoutAbsolute(x.flags, y.flags)
    && WasmBinding.Means(segs, WasmBinding.Cand(y.place.value.segment, y.place.value.offset), x.place.value.offset)
  }

  /** jiffies, at the place jiffies_64 has in ys, with size 4, its name and other flags kept. */
  ghost predicate AtTarget(ys: seq<Sym>, x: Sym, y: Sym) {
    && x.Data? && y.Data? && Text(x.name) == "jiffies" && y.name == x.name && WithoutAbsolute(x.flags, y.flags)
    && exists t | 0 <= t < |ys| :: ys[t].Data? && Text(ys[t].name) == "jiffies_64" && ys[t].place.Some? && !Absolute(ys[t].flags)
         && y.place == Some(Place(ys[t].place.value.segment, ys[t].place.value.offset, 4))
  }

  lemma RebindAddress(xs: seq<Sym>, segs: seq<WasmBinding.Seg>, i: nat)
    requires i < |xs| && ValidSym(xs[i])
    ensures var x, y := xs[i], Rebind(xs, segs)[i]; y == x || SameAddress(segs, x, y)
  {
    AddressPreserved(xs, segs, i);
    if Binding(xs, segs, i).Some? {
      BindingMeans(xs, segs, i);
      ClearBitIsWithout(xs[i].flags);
    }
  }

  lemma AliasAddress(xs: seq<Sym>, i: nat)
    requires i < |xs|
    ensures var x, y := xs[i], FixAlias(xs)[i]; y == x || AtTarget(FixAlias(xs), x, y)
  {
    var ys, t := FixAlias(xs), AliasIndices(xs).1;
    if ys[i] != xs[i] {
      ClearBitIsWithout(xs[i].flags);
      assert Text(xs[t].name) != Text(xs[i].name);
      assert ys[t] == xs[t];
    }
  }

  lemma WithoutTwice(f: nat, g: nat, h: nat)
    requires WithoutAbsolute(f, g) && WithoutAbsolute(g, h)
    ensures WithoutAbsolute(f, h)
  {}

  lemma FixedAddress(xs: seq<Sym>, segs: seq<WasmBinding.Seg>, i: nat)
    requires i < |xs| && ValidSym(xs[i])
    ensures var ys := FixedSymbols(xs, segs);
      ys[i] == xs[i] || SameAddress(segs, xs[i], ys[i]) || AtTarget(ys, xs[i], ys[i])
  {
    var bound := Rebind(xs, segs);
    var x, m, y := xs[i], bound[i], FixAlias(bound)[i];
    RebindAddress(xs, segs, i);
    AliasAddress(bound, i);
    if m != x && y != m { WithoutTwice(x.flags, m.flags, y.flags); }
  }

  /** In the new file every symbol is as it was, or is bound to the same address, or is jiffies at jiffies_64. */
  lemma FixKeepsAddresses(buf: seq<byte>, o: Obj, segs: seq<WasmBinding.Seg>, out: seq<byte>, i: nat) returns (p: Obj)
    requires WellFormed(buf) && Open(buf, Last) == Some(o) && Segments(o) == Some(segs) && FixedFile(buf) == Some(out)
    requires i < |o.syms|
    ensures Open(out, Last) == Some(p) && |p.syms| == |o.syms|
    ensures var x, y := o.syms[i], p.syms[i];
      y == x || SameAddress(segs, x, y) || AtTarget(p.syms, x, y)
  {
    OpenParts(buf, Last, o);
    p := FixReparses(buf, o, segs, out);
    FixedAddress(o.syms, segs, i);
  }

  lemma {:induction false} NoAffix(s: string, table: seq<Affix>)
    requires forall k | 0 <= k < |table| :: Strip(s, table[k]).None?
    ensures MatchAffix(s, table).None?
  {
    if table != [] { NoAffix(s, table[1..]); }
  }

  lemma JiffiesHasNoPair()
    ensures PairKey("jiffies").None?
  {
    var s := "jiffies";
    forall k | 0 <= k < |AFFIXES| ensures Strip(s, AFFIXES[k]).None? {
      var a := AFFIXES[k];
      if a.Front? && |a.text| <= 7 {
        assert s[..|a.text|][0] != a.text[0];
      } else if a.Back? {
        assert s[7 - |a.text|..][|a.text| - 1] != a.text[|a.text| - 1];
      }
    }
    NoAffix(s, AFFIXES);
  }

  /** A symbol with a pair name that is bound is not moved by the alias. */
  lemma PairedAddress(xs: seq<Sym>, segs: seq<WasmBinding.Seg>, i: nat)
    requires i < |xs| && ValidSym(xs[i]) && HalfOf(xs[i]).Some? && Binding(xs, segs, i).Some?
    ensures var y := FixedSymbols(xs, segs)[i];
      SameAddress(segs, xs[i], y) && y.place.value.segment == Binding(xs, segs, i).value.seg
  {
    RebindAddress(xs, segs, i);
    BindingMeans(xs, segs, i);
    ClearBitClears(xs[i].flags, 9, 9);
    JiffiesHasNoPair();
    AliasAddress(Rebind(xs, segs), i);
  }

  lemma FixedPair(xs: seq<Sym>, segs: seq<WasmBinding.Seg>, i: nat, k: nat)
    requires AllValid(xs) && i < |xs| && Paired(xs, i) && k < |segs|
    requires WasmBinding.Meets(WasmBinding.Holds, segs[k], Value(xs[i]))
    requires WasmBinding.Meets(WasmBinding.Holds, segs[k], Value(xs[Partner(xs, i)]))
    ensures var ys, j := FixedSymbols(xs, segs), Partner(xs, i);
      && SameAddress(segs, xs[i], ys[i]) && SameAddress(segs, xs[j], ys[j])
      && ys[i].place.value.segment == ys[j].place.value.segment
  {
    var j := Partner(xs, i);
    PairSharesSegment(xs, segs, i, k);
    PairedAddress(xs, segs, i);
    PairedAddress(xs, segs, j);
  }

  /** In the new file a start/stop pair lies in one segment, at its old addresses, if some segment holds both. */
  lemma FixKeepsPairs(buf: seq<byte>, o: Obj, segs: seq<WasmBinding.Seg>, out: seq<byte>, i: nat, k: nat) returns (p: Obj)
    requires WellFormed(buf) && Open(buf, Last) == Some(o) && Segments(o) == Some(segs) && FixedFile(buf) == Some(out)
    requires OneTable(o) && i < |o.syms| && Paired(o.syms, i) && k < |segs|
    requires WasmBinding.Meets(WasmBinding.Holds, segs[k], Value(o.syms[i]))
    requires WasmBinding.Meets(WasmBinding.Holds, segs[k], Value(o.syms[Partner(o.syms, i)]))
    ensures Open(out, Last) == Some(p) && |p.syms| == |o.syms|
    ensures var j := Partner(o.syms, i);
      && SameAddress(segs, o.syms[i], p.syms[i]) && SameAddress(segs, o.syms[j], p.syms[j])
      && p.syms[i].place.value.segment == p.syms[j].place.value.segment
  {
    OpenParts(buf, Last, o);
    p := FixReparses(buf, o, segs, out);
    FixedPair(o.syms, segs, i, k);
  }

  // ---- Which files are well formed ---------------------------------------------------------------

  lemma DataFound(data: Chunk, link: Chunk)
    requires data.id == DATA && link.id == 0
    ensures FindId([data, link], DATA, Last) == 0
  {
    var cs := [data, link];
    IdMarkAt(cs, DATA, 0);
    IdMarkAt(cs, DATA, 1);
    MarkIs(IdMarks(cs, DATA), Last, 0);
  }

  /** Every list of valid symbols, other tables before it, and every list of segments stand in some well-formed file. */
  lemma EveryListHasAFile(header: seq<byte>, before: seq<seq<Sym>>, xs: seq<Sym>, gs: seq<WasmSegments.RawSeg>)
    returns (buf: seq<byte>, o: Obj)
    requires |header| == 8 && AllValid(xs) && forall i | 0 <= i < |before| :: AllValid(before[i])
    ensures WellFormed(buf) && buf[..8] == header && Open(buf, Last) == Some(o)
    ensures o.syms == xs && Segments(o) == Some(WasmSegments.SegsOf(gs)) && (OneTable(o) <==> before == [])
  {
    o := ObjectOf(before, xs, WasmSegments.EncodeData(gs));
    buf := header + Flatten(o.sections);
    ObjectOpens(header, before, xs, WasmSegments.EncodeData(gs), Last);
    DataFound(o.sections[0], o.sections[1]);
    WasmSegments.DataRoundTrip(gs);
  }

  // ---- Files that are not written, and an edit that is lost -------------------------------------------

  /** A passive segment among the first five: no file is written, whatever the symbols. */
  lemma PassiveIsNotWritten(header: seq<byte>, xs: seq<Sym>, gs: seq<WasmSegments.RawSeg>, k: nat)
    returns (buf: seq<byte>, o: Obj)
    requires |header| == 8 && AllValid(xs) && k < |gs| && k < 5 && gs[k].Passive?
    ensures WellFormed(buf) && Open(buf, Last) == Some(o) && o.syms == xs && FixedFile(buf) == None
  {
    buf, o := EveryListHasAFile(header, [], xs, gs);
    assert WasmSegments.SegsOf(gs)[k].start.None?;
  }

  const JIFFIES: seq<byte> := [0x6a, 0x69, 0x66, 0x66, 0x69, 0x65, 0x73]
  const JIFFIES_64: seq<byte> := JIFFIES + [0x5f, 0x36, 0x34]

  /** jiffies at the start of segment 0, and jiffies_64 in segment n. */
  function JiffiesPair(n: nat): seq<Sym> {
    [Data(0, JIFFIES, Some(Place(0, 0, 4))), Data(0, JIFFIES_64, Some(Place(n, 8, 8)))]
  }

  lemma JiffiesPairValid(n: nat)
    ensures AllValid(JiffiesPair(n))
  {
    AsciiValid(JIFFIES);
    AsciiValid(JIFFIES_64);
  }

  lemma JiffiesText()
    ensures Text(JIFFIES) == "jiffies"
  {}

  lemma Jiffies64Text()
    ensures Text(JIFFIES_64) == "jiffies_64"
  {}

  lemma {:induction false} NoBits(k: nat)
    ensures !Bit(0, k)
  {
    if k > 0 { NoBits(k - 1); }
  }

  lemma JiffiesPairStops(segs: seq<WasmBinding.Seg>)
    ensures AliasStops(JiffiesPair(|segs|), segs)
  {
    var xs := JiffiesPair(|segs|);
    JiffiesText();
    Jiffies64Text();
    assert LastNamed(xs, 1, "jiffies") == 0 && LastNamed(xs, 2, "jiffies") == 0;
    assert LastNamed(xs, 2, "jiffies_64") == 1;
    NoBits(9);
  }

  /** jiffies_64 in a segment past the last: no file is written. */
  lemma MissingTargetIsNotWritten(header: seq<byte>, gs: seq<WasmSegments.RawSeg>) returns (buf: seq<byte>, o: Obj)
    requires |header| == 8 && forall i | 0 <= i < |gs| :: !gs[i].Passive?
    ensures WellFormed(buf) && Open(buf, Last) == Some(o) && StartsPrint(Segments(o).value) && FixedFile(buf) == None
  {
    var segs := WasmSegments.SegsOf(gs);
    JiffiesPairValid(|segs|);
    buf, o := EveryListHasAFile(header, [], JiffiesPair(|segs|), gs);
    JiffiesPairStops(segs);
    FixWrittenIff(buf, o, segs);
  }

  /** One absolute symbol is resolved alone, whatever its name. */
  lemma SingleConverts(x: Sym, segs: seq<WasmBinding.Seg>)
    requires IsAbsolute(x) && Held(segs, Value(x))
    ensures FixedSymbols([x], segs) != [x] && !AliasStops([x], segs)
  {
    var xs := [x];
    ConvertedIff(xs, segs, 0);
    BindingMeans(xs, segs, 0);
    ClearBitClears(x.flags, 9, 9);
    assert "jiffies" != "jiffies_64";
  }

  /** With a second table the conversion is written to the first, and the symbols a linker reads stay as they were. */
  lemma SecondTableKeepsItsSymbols(header: seq<byte>, before: seq<seq<Sym>>, x: Sym, g: WasmSegments.RawSeg)
    returns (buf: seq<byte>, o: Obj, out: seq<byte>, p: Obj)
    requires |header| == 8 && before != [] && forall i | 0 <= i < |before| :: AllValid(before[i])
    requires ValidSym(x) && IsAbsolute(x) && g.Active? && g.start <= Value(x) <= g.start + |g.data|
    ensures WellFormed(buf) && Open(buf, Last) == Some(o) && o.syms == [x] && FixedSymbols(o.syms, Segments(o).value) != [x]
    ensures FixedFile(buf) == Some(out) && Open(out, Last) == Some(p) && p.syms == [x]
  {
    buf, o := EveryListHasAFile(header, before, [x], [g]);
    var segs := WasmSegments.SegsOf([g]);
    assert WasmBinding.Meets(WasmBinding.Holds, segs[0], Value(x));
    SingleConverts(x, segs);
    FixWrittenIff(buf, o, segs);
    out := FixedFile(buf).value;
    p := FixReparses(buf, o, segs, out);
  }
}
