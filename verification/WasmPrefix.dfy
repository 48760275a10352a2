/** Renaming the kernel symbols that clash with libc. */
module WasmPrefix {
  import opened Bytes
  import opened WasmSymbols
  import opened WasmRewrite
  import opened WasmFiles
  import Utf8

  // LIBC_CONFLICTS, by group.
  const PRINTF: seq<string> := ["vsnprintf", "snprintf", "vsprintf", "sprintf"]
  const MEM: seq<string> := ["memcpy", "memset", "memcmp", "memmove", "memchr"]
  const COMPARE: seq<string> := ["strlen", "strnlen", "strcmp", "strncmp"]
  const COPY: seq<string> := ["strcpy", "strncpy", "strcat", "strncat"]
  const SEARCH: seq<string> := ["strchr", "strrchr", "strstr", "strsep", "strspn", "strcspn", "strpbrk"]
  const OTHER: seq<string> := ["abort", "bsearch", "ERR_getErrorString", "synchronize_rcu", "buffer_init", "crc32c", "inflate_fast"]

  const LIBC_CONFLICT_PREFIXES: seq<string> := ["ZSTD_", "HUF_", "FSE_", "HIST_"]

  predicate Listed(name: string, list: seq<string>) {
    list != [] && (name == list[0] || Listed(name, list[1..]))
  }

  predicate InFamily(name: string, list: seq<string>) {
    list != [] && (list[0] <= name || InFamily(name, list[1..]))
  }

  predicate Clashes(name: string) {
    || Listed(name, PRINTF) || Listed(name, MEM) || Listed(name, COMPARE)
    || Listed(name, COPY) || Listed(name, SEARCH) || Listed(name, OTHER)
    || InFamily(name, LIBC_CONFLICT_PREFIXES)
  }

  function Name(x: Sym): Option<seq<byte>> {
    match x
    case Indexed(_, _, _, tag) => tag
    case Data(_, name, _) => Some(name)
    case SectionSym(_, _) => None
  }

  /** should_prefix */
  predicate ShouldPrefix(x: Sym) {
    !x.SectionSym? && !Undefined(x.flags) && Name(x).Some? && Clashes(Text(Name(x).value))
  }

  function Rename(x: Sym, prefix: seq<byte>): Sym {
    if !ShouldPrefix(x) then x
    else if x.Data? then x.(name := prefix + x.name)
    else x.(tag := Some(prefix + x.tag.value))
  }

  function Renamed(xs: seq<Sym>, prefix: seq<byte>): (ys: seq<Sym>)
    ensures |ys| == |xs| && forall i | 0 <= i < |xs| :: ys[i] == Rename(xs[i], prefix)
  {
    seq(|xs|, i requires 0 <= i < |xs| => Rename(xs[i], prefix))
  }

  const UNDERSCORE: seq<byte> := [95]

  // ---- What a rename keeps --------------------------------------------------------------

  /** Only the name of a matching defined symbol changes; type, flags, index and place stay. */
  lemma RenameKeeps(x: Sym, prefix: seq<byte>)
    requires ValidSym(x) && Utf8.Valid(prefix)
    ensures var y := Rename(x, prefix);
      && ValidSym(y) && Kind(y) == Kind(x) && y.flags == x.flags
      && (x.Indexed? ==> y.index == x.index) && (x.Data? ==> y.place == x.place)
      && (!ShouldPrefix(x) ==> y == x)
      && (ShouldPrefix(x) ==> !Undefined(x.flags) && Name(x).Some? && Name(y) == Some(prefix + Name(x).value))
  {
    if ShouldPrefix(x) { Utf8.ValidConcat(prefix, Name(x).value); }
  }

  lemma RenamedValid(xs: seq<Sym>, prefix: seq<byte>)
    requires AllValid(xs) && Utf8.Valid(prefix)
    ensures AllValid(Renamed(xs, prefix))
  {
    forall i | 0 <= i < |xs| ensures ValidSym(Renamed(xs, prefix)[i]) { RenameKeeps(xs[i], prefix); }
  }

  // ---- Running it again -----------------------------------------------------------------------

  lemma {:induction false} UnderscoreUnlisted(name: string, list: seq<string>)
    requires |name| > 0 && name[0] == '_' && forall k | 0 <= k < |list| :: |list[k]| > 0 && list[k][0] != '_'
    ensures !Listed(name, list) && !InFamily(name, list)
  {
    if list != [] {
      UnderscoreUnlisted(name, list[1..]);
      assert list[0][0] != name[0];
    }
  }

  lemma NoClashWithUnderscore(name: string)
    requires |name| > 0 && name[0] == '_'
    ensures !Clashes(name)
  {
    assert !Listed(name, PRINTF) by { UnderscoreUnlisted(name, PRINTF); }
    assert !Listed(name, MEM) by { UnderscoreUnlisted(name, MEM); }
    assert !Listed(name, COMPARE) by { UnderscoreUnlisted(name, COMPARE); }
    assert !Listed(name, COPY) by { UnderscoreUnlisted(name, COPY); }
    assert !Listed(name, SEARCH) by { UnderscoreUnlisted(name, SEARCH); }
    assert !Listed(name, OTHER) by { UnderscoreUnlisted(name, OTHER); }
    assert !InFamily(name, LIBC_CONFLICT_PREFIXES) by { UnderscoreUnlisted(name, LIBC_CONFLICT_PREFIXES); }
  }

  lemma RenamedOnceForAll(x: Sym)
    ensures !ShouldPrefix(Rename(x, UNDERSCORE))
  {
    if ShouldPrefix(x) {
      var y := Rename(x, UNDERSCORE);
      NoClashWithUnderscore(Text(Name(y).value));
    }
  }

  /** No renamed name of the list clashes again. */
  predicate Settles(xs: seq<Sym>, prefix: seq<byte>) {
    forall i | 0 <= i < |xs| && ShouldPrefix(xs[i]) :: !Clashes(Text(prefix + Name(xs[i]).value))
  }

  lemma RenameTwice(x: Sym, prefix: seq<byte>)
    ensures Rename(Rename(x, prefix), prefix) == Rename(x, prefix)
       <==> prefix == [] || (ShouldPrefix(x) ==> !Clashes(Text(prefix + Name(x).value)))
  {
    var y := Rename(x, prefix);
    if ShouldPrefix(x) {
      assert Name(y) == Some(prefix + Name(x).value);
      assert ShouldPrefix(y) <==> Clashes(Text(prefix + Name(x).value));
      if ShouldPrefix(y) {
        assert Name(Rename(y, prefix)) == Some(prefix + Name(y).value);
        if prefix == [] { assert prefix + Name(y).value == Name(y).value; }
      }
    }
  }

  /** With any prefix, a second run changes nothing exactly if no new name clashes again. */
  lemma IdempotentIff(xs: seq<Sym>, prefix: seq<byte>)
    ensures Renamed(Renamed(xs, prefix), prefix) == Renamed(xs, prefix) <==> prefix == [] || Settles(xs, prefix)
  {
    forall i | 0 <= i < |xs| ensures Rename(Rename(xs[i], prefix), prefix) == Rename(xs[i], prefix)
      <==> prefix == [] || (ShouldPrefix(xs[i]) ==> !Clashes(Text(prefix + Name(xs[i]).value)))
    {
      RenameTwice(xs[i], prefix);
    }
    var ys := Renamed(xs, prefix);
    if Renamed(ys, prefix) == ys {
      forall i | 0 <= i < |xs| && ShouldPrefix(xs[i]) ensures prefix == [] || !Clashes(Text(prefix + Name(xs[i]).value)) {
        assert Renamed(ys, prefix)[i] == ys[i];
      }
    }
  }

  lemma {:induction false} ListedAt(list: seq<string>, k: nat)
    requires k < |list|
    ensures Listed(list[k], list)
  {
    if k > 0 { ListedAt(list[1..], k - 1); }
  }

  const SNPRINTF: seq<byte> := [115, 110, 112, 114, 105, 110, 116, 102]
  const V: seq<byte> := [118]

  /** A function named snprintf. */
  function Snprintf(): Sym { Indexed(0, 0, 0, Some(SNPRINTF)) }

  /** Prefix "v" is not idempotent: snprintf becomes vsnprintf, which clashes again. */
  lemma NotIdempotentForV()
    ensures Rename(Rename(Snprintf(), V), V) != Rename(Snprintf(), V) && !Settles([Snprintf()], V)
  {
    var x := Snprintf();
    assert Text(SNPRINTF) == "snprintf" == PRINTF[1] && Text(V + SNPRINTF) == "vsnprintf" == PRINTF[0];
    ListedAt(PRINTF, 0);
    ListedAt(PRINTF, 1);
    assert !Undefined(0);
    RenameTwice(x, V);
    assert ShouldPrefix([x][0]);
  }

  // ---- The tool -----------------------------------------------------------------------------------

  predicate AnyRename(xs: seq<Sym>) { exists i | 0 <= i < |xs| :: ShouldPrefix(xs[i]) }

  function PrefixFile(buf: seq<byte>, prefix: seq<byte>): seq<byte>
    requires Open(buf, First).Some?
  {
    var o := Open(buf, First).value;
    if AnyRename(o.syms) then Save(buf, o, o.tab, Renamed(o.syms, prefix)) else buf
  }

  /** The rename loop. */
  method RenameLoop(xs: seq<Sym>, prefix: seq<byte>) returns (ys: seq<Sym>, renamed: nat)
    ensures ys == Renamed(xs, prefix) && (renamed > 0 <==> AnyRename(xs))
  {
    ys, renamed := xs, 0;
    var i := 0;
    while i < |xs|
      invariant 0 <= i <= |xs| == |ys|
      invariant forall j | 0 <= j < i :: ys[j] == Rename(xs[j], prefix)
      invariant forall j | i <= j < |xs| :: ys[j] == xs[j]
      invariant renamed > 0 <==> exists j | 0 <= j < i :: ShouldPrefix(xs[j])
    {
      if ShouldPrefix(xs[i]) {
        ys := ys[i := Rename(xs[i], prefix)];
        renamed := renamed + 1;
      }
      i := i + 1;
    }
  }

  /** The whole tool on a well-formed file. */
  method PrefixSymbols(buf: seq<byte>, prefix: seq<byte>) returns (out: seq<byte>)
    requires Open(buf, First).Some?
    ensures out == PrefixFile(buf, prefix)
  {
    ghost var o := Open(buf, First).value;
    OpenParts(buf, First, o);
    var sec, _, sub, syms := Locate(buf, First, o);
    var ys, renamed := RenameLoop(syms, prefix);
    if renamed == 0 { return buf; }
    out := Rewrite(buf, sec, sub, ys, o, o.tab);
  }

  lemma NoRename(xs: seq<Sym>, prefix: seq<byte>)
    requires !AnyRename(xs)
    ensures Renamed(xs, prefix) == xs
  {}

  /** The new file re-parses to the old one with the renamed symbols in place of the old. */
  lemma PrefixReparses(buf: seq<byte>, prefix: seq<byte>, o: Obj) returns (p: Obj)
    requires Open(buf, First) == Some(o) && Utf8.Valid(prefix)
    ensures Open(PrefixFile(buf, prefix), First) == Some(p)
    ensures SameButTable(o, p, o.tab) && p.syms == Renamed(o.syms, prefix)
  {
    var ys := Renamed(o.syms, prefix);
    if AnyRename(o.syms) {
      OpenParts(buf, First, o);
      assert AllValid(ys) by { RenamedValid(o.syms, prefix); }
      Reopens(buf, First, o, o.tab, ys);
      EditedSame(o, o.tab, ys);
      p := Edited(o, o.tab, ys);
    } else {
      NoRename(o.syms, prefix);
      p := o;
    }
  }

  lemma NothingLeft(xs: seq<Sym>)
    ensures !AnyRename(Renamed(xs, UNDERSCORE))
  {
    forall i | 0 <= i < |xs| ensures !ShouldPrefix(Renamed(xs, UNDERSCORE)[i]) { RenamedOnceForAll(xs[i]); }
  }

  /** A second run with the default prefix leaves the file byte for byte. */
  lemma PrefixTwice(buf: seq<byte>)
    requires Open(buf, First).Some?
    ensures Open(PrefixFile(buf, UNDERSCORE), First).Some?
    ensures PrefixFile(PrefixFile(buf, UNDERSCORE), UNDERSCORE) == PrefixFile(buf, UNDERSCORE)
  {
    var o := Open(buf, First).value;
    var p := PrefixReparses(buf, UNDERSCORE, o);
    NothingLeft(o.syms);
  }

  /** Saving the same symbols again gives the same file. */
  lemma SavedTwice(buf: seq<byte>, o: Obj, xs: seq<Sym>)
    requires |buf| >= 8 && InBounds(o)
    ensures var out, e := Save(buf, o, o.tab, xs), Edited(o, o.tab, xs); Save(out, e, e.tab, xs) == out
  {
    var out, e := Save(buf, o, o.tab, xs), Edited(o, o.tab, xs);
    assert Edited(e, e.tab, xs).linking.subs == e.linking.subs;
    assert Edited(e, e.tab, xs).sections == e.sections;
    assert out[..8] == buf[..8];
  }

  /** Names that do not clash again are not renamed again. */
  lemma SettledIsIdle(xs: seq<Sym>, prefix: seq<byte>)
    requires Settles(xs, prefix)
    ensures !AnyRename(Renamed(xs, prefix))
  {
    forall i | 0 <= i < |xs| ensures !ShouldPrefix(Renamed(xs, prefix)[i]) {
      if ShouldPrefix(xs[i]) { assert Name(Rename(xs[i], prefix)) == Some(prefix + Name(xs[i]).value); }
    }
  }

  lemma EmptyPrefixTwice(buf: seq<byte>, o: Obj, prefix: seq<byte>, out: seq<byte>)
    requires Open(buf, First) == Some(o) && prefix == [] && out == PrefixFile(buf, prefix)
    ensures Open(out, First).Some? && PrefixFile(out, prefix) == out
  {
    var p := PrefixReparses(buf, prefix, o);
    IdempotentIff(o.syms, prefix);
    if AnyRename(o.syms) {
      OpenParts(buf, First, o);
      RenamedValid(o.syms, prefix);
      Reopens(buf, First, o, o.tab, Renamed(o.syms, prefix));
      SavedTwice(buf, o, Renamed(o.syms, prefix));
    }
  }

  /** With any prefix, a second run returns the file byte for byte exactly if no new name clashes again. */
  lemma FileIdempotentIff(buf: seq<byte>, prefix: seq<byte>, o: Obj)
    requires Open(buf, First) == Some(o) && Utf8.Valid(prefix)
    ensures var out := PrefixFile(buf, prefix);
      Open(out, First).Some? && (PrefixFile(out, prefix) == out <==> prefix == [] || Settles(o.syms, prefix))
  {
    var out := PrefixFile(buf, prefix);
    var p := PrefixReparses(buf, prefix, o);
    var q := PrefixReparses(out, prefix, p);
    IdempotentIff(o.syms, prefix);
    if prefix == [] {
      EmptyPrefixTwice(buf, o, prefix, out);
    } else if Settles(o.syms, prefix) {
      SettledIsIdle(o.syms, prefix);
    }
  }

  /** Symbols that do not settle stand in a file that is changed twice. */
  lemma FileChangesTwice(header: seq<byte>, xs: seq<Sym>, data: seq<byte>, prefix: seq<byte>) returns (buf: seq<byte>, o: Obj)
    requires |header| == 8 && AllValid(xs) && Utf8.Valid(prefix) && prefix != [] && !Settles(xs, prefix)
    ensures Open(buf, First) == Some(o) && o.syms == xs && Open(PrefixFile(buf, prefix), First).Some?
    ensures PrefixFile(PrefixFile(buf, prefix), prefix) != PrefixFile(buf, prefix)
  {
    buf, o := ListHasAFile(header, xs, data, First);
    FileIdempotentIff(buf, prefix, o);
  }

  lemma SnprintfValid()
    ensures AllValid([Snprintf()]) && Utf8.Valid(V)
  {
    AsciiValid(SNPRINTF);
    AsciiValid(V);
  }

  /** As a file with snprintf in it is by prefix "v". */
  lemma FileNotIdempotentForV(header: seq<byte>, data: seq<byte>) returns (buf: seq<byte>, o: Obj)
    requires |header| == 8
    ensures Open(buf, First) == Some(o) && o.syms == [Snprintf()] && Open(PrefixFile(buf, V), First).Some?
    ensures PrefixFile(PrefixFile(buf, V), V) != PrefixFile(buf, V)
  {
    SnprintfValid();
    NotIdempotentForV();
    buf, o := FileChangesTwice(header, [Snprintf()], data, V);
  }
}
