/** Rebinding the absolute data symbols of an object file to its segments. */
module WasmBrackets {
  import opened Bytes
  import opened WasmSymbols
  import opened WasmBinding

  // ---- Pair names ------------------------------------------------------------------

  datatype Role = Start | Stop

  datatype Half = Half(key: string, role: Role)

  /** Text at the front or the back of a name, and the role it gives. */
  datatype Affix = Front(text: string, role: Role) | Back(text: string, role: Role)

  /** What is left of s without the affix. */
  function Strip(s: string, a: Affix): Option<string> {
    var n := |a.text|;
    if n > |s| then None
    else if a.Front? then (if s[..n] == a.text then Some(s[n..]) else None)
    else if s[|s| - n..] == a.text then Some(s[..|s| - n])
    else None
  }

  const AFFIXES: seq<Affix> := [
    Front("__start_", Start), Front("__stop_", Stop),
    Front("__start", Start), Front("__stop", Stop),
    Front("__begin_", Start), Front("__end_", Stop),
    Back("_start", Start), Back("_end", Stop), Back("_begin", Start)
  ]

  /** The first affix that fits. */
  function MatchAffix(s: string, table: seq<Affix>): Option<Half> {
    if table == [] then None
    else if Strip(s, table[0]).Some? then Some(Half(Strip(s, table[0]).value, table[0].role))
    else MatchAffix(s, table[1..])
  }

  /** pair_key */
  function PairKey(s: string): Option<Half> { MatchAffix(s, AFFIXES) }

  function Other(h: Half): Half { Half(h.key, if h.role.Start? then Stop else Start) }

  // ---- Which symbols are rebound, and to what ---------------------------------------------

  /** A defined data symbol with an absolute value. */
  predicate IsAbsolute(x: Sym) {
    x.Data? && !Undefined(x.flags) && Absolute(x.flags) && x.place.Some?
  }

  function Value(x: Sym): int
    requires IsAbsolute(x)
  {
    x.place.value.offset
  }

  /** The half of a pair that an absolute symbol names. */
  function HalfOf(x: Sym): Option<Half> {
    if IsAbsolute(x) then PairKey(Text(x.name)) else None
  }

  /** by_pair[key][role]: the last of the first n symbols with this half, or -1. */
  function LastOf(xs: seq<Sym>, n: nat, h: Half): (i: int)
    requires n <= |xs|
    ensures -1 <= i < n && (i >= 0 ==> HalfOf(xs[i]) == Some(h))
    ensures forall j | i < j < n :: HalfOf(xs[j]) != Some(h)
  {
    if n == 0 then -1 else if HalfOf(xs[n - 1]) == Some(h) then n - 1 else LastOf(xs, n - 1, h)
  }

  /** Symbol i is the one kept under its half. */
  predicate Kept(xs: seq<Sym>, i: nat)
    requires i < |xs|
  {
    HalfOf(xs[i]).Some? && LastOf(xs, |xs|, HalfOf(xs[i]).value) == i
  }

  /** The symbol kept under the other half, or -1. */
  function Partner(xs: seq<Sym>, i: nat): (j: int)
    requires i < |xs| && HalfOf(xs[i]).Some?
    ensures -1 <= j < |xs| && (j >= 0 ==> HalfOf(xs[j]) == Some(Other(HalfOf(xs[i]).value)))
  {
    LastOf(xs, |xs|, Other(HalfOf(xs[i]).value))
  }

  predicate Paired(xs: seq<Sym>, i: nat)
    requires i < |xs|
  {
    Kept(xs, i) && Partner(xs, i) >= 0
  }

  /** Resolved on its own: no pair name, or an orphan. */
  predicate Alone(xs: seq<Sym>, i: nat)
    requires i < |xs|
  {
    IsAbsolute(xs[i]) && (HalfOf(xs[i]).None? || (Kept(xs, i) && Partner(xs, i) < 0))
  }

  function PairBinding(xs: seq<Sym>, segs: seq<Seg>, i: nat): Option<Cand>
    requires i < |xs| && Paired(xs, i)
  {
    var v, w := Value(xs[i]), Value(xs[Partner(xs, i)]);
    if HalfOf(xs[i]).value.role.Start? then
      var p := ChoosePair(segs, v, w);
      if p.Some? then Some(p.value.start) else None
    else
      var p := ChoosePair(segs, w, v);
      if p.Some? then Some(p.value.stop) else None
  }

  function Binding(xs: seq<Sym>, segs: seq<Seg>, i: nat): Option<Cand>
    requires i < |xs|
  {
    if Alone(xs, i) then FindSegment(segs, Value(xs[i]))
    else if Paired(xs, i) then PairBinding(xs, segs, i)
    else None
  }

  /** Clear ABSOLUTE; bind to the segment. */
  function Bound(x: Sym, c: Cand): Sym
    requires IsAbsolute(x)
  {
    x.(flags := ClearBit(x.flags, 9), place := Some(x.place.value.(segment := c.seg, offset := c.offset)))
  }

  function RebindAt(xs: seq<Sym>, segs: seq<Seg>, i: nat): Sym
    requires i < |xs|
  {
    if Binding(xs, segs, i).Some? then Bound(xs[i], Binding(xs, segs, i).value) else xs[i]
  }

  function Rebind(xs: seq<Sym>, segs: seq<Seg>): (ys: seq<Sym>)
    ensures |ys| == |xs| && forall i | 0 <= i < |xs| :: ys[i] == RebindAt(xs, segs, i)
  {
    seq(|xs|, i requires 0 <= i < |xs| => RebindAt(xs, segs, i))
  }

  // ---- Addresses are preserved --------------------------------------------------------------

  lemma BindingMeans(xs: seq<Sym>, segs: seq<Seg>, i: nat)
    requires i < |xs| && Binding(xs, segs, i).Some?
    ensures IsAbsolute(xs[i]) && Means(segs, Binding(xs, segs, i).value, Value(xs[i]))
  {}

  /**
   * A converted symbol has segment start + new offset == old absolute value,
   * with the offset within the segment, and every flag but ABSOLUTE as before.
   * Every other symbol is untouched.
   */
  lemma AddressPreserved(xs: seq<Sym>, segs: seq<Seg>, i: nat)
    requires i < |xs| && ValidSym(xs[i])
    ensures var x, y := xs[i], Rebind(xs, segs)[i];
      if Binding(xs, segs, i).None? then y == x
      else
        && x.Data? && x.place.Some? && Absolute(x.flags)
        && y.Data? && y.place.Some? && ValidSym(y) && y.name == x.name && y.place.value.size == x.place.value.size
        && Means(segs, Cand(y.place.value.segment, y.place.value.offset), x.place.value.offset)
  {
    if Binding(xs, segs, i).Some? {
      BindingMeans(xs, segs, i);
      ClearBitClears(xs[i].flags, 9, 4);
    }
  }

  lemma OnlyAbsoluteCleared(xs: seq<Sym>, segs: seq<Seg>, i: nat, bit: nat)
    requires i < |xs| && Binding(xs, segs, i).Some?
    ensures var x, y := xs[i], Rebind(xs, segs)[i];
      Bit(y.flags, bit) <==> bit != 9 && Bit(x.flags, bit)
  {
    BindingMeans(xs, segs, i);
    ClearBitClears(xs[i].flags, 9, bit);
  }

  /** Pairing is mutual. */
  lemma PartnersAgree(xs: seq<Sym>, i: nat)
    requires i < |xs| && Paired(xs, i)
    ensures Paired(xs, Partner(xs, i)) && Partner(xs, Partner(xs, i)) == i
  {
    var h := HalfOf(xs[i]).value;
    assert Other(Other(h)) == h;
  }

  /** A start/stop pair gets one common segment whenever some segment holds both ends. */
  lemma PairSharesSegment(xs: seq<Sym>, segs: seq<Seg>, i: nat, k: nat)
    requires i < |xs| && Paired(xs, i) && k < |segs|
    requires Meets(Holds, segs[k], Value(xs[i])) && Meets(Holds, segs[k], Value(xs[Partner(xs, i)]))
    ensures var a, b := Binding(xs, segs, i), Binding(xs, segs, Partner(xs, i));
      a.Some? && b.Some? && a.value.seg == b.value.seg
  {
    PartnersAgree(xs, i);
    PairComplete(segs, Value(xs[i]), Value(xs[Partner(xs, i)]));
    PairComplete(segs, Value(xs[Partner(xs, i)]), Value(xs[i]));
  }

  predicate Held(segs: seq<Seg>, v: int) { exists i | 0 <= i < |segs| :: Meets(Holds, segs[i], v) }

  /** Exactly which symbols are converted. */
  lemma ConvertedIff(xs: seq<Sym>, segs: seq<Seg>, i: nat)
    requires i < |xs|
    ensures Binding(xs, segs, i).Some? <==>
      || (Alone(xs, i) && Held(segs, Value(xs[i])))
      || (Paired(xs, i) && Held(segs, Value(xs[i])) && Held(segs, Value(xs[Partner(xs, i)])))
  {
    if Alone(xs, i) {
      FindSegmentComplete(segs, Value(xs[i]));
    } else if Paired(xs, i) {
      PairComplete(segs, Value(xs[i]), Value(xs[Partner(xs, i)]));
      PairComplete(segs, Value(xs[Partner(xs, i)]), Value(xs[i]));
    }
  }

  lemma RebindValid(xs: seq<Sym>, segs: seq<Seg>)
    requires AllValid(xs)
    ensures AllValid(Rebind(xs, segs))
  {
    forall i | 0 <= i < |xs| ensures ValidSym(Rebind(xs, segs)[i]) { AddressPreserved(xs, segs, i); }
  }

  // ---- The loops of main ----------------------------------------------------------------------

  /** by_pair: the symbols kept under a key, -1 for a half not seen. */
  datatype Entry = Entry(start: int, stop: int)

  function EntryOf(xs: seq<Sym>, n: nat, key: string): Entry
    requires n <= |xs|
  {
    Entry(LastOf(xs, n, Half(key, Start)), LastOf(xs, n, Half(key, Stop)))
  }

  /** by_pair after n symbols, with its keys in insertion order. */
  ghost predicate Bucketed(xs: seq<Sym>, n: nat, byPair: map<string, Entry>, keys: seq<string>)
    requires n <= |xs|
  {
    && (forall key | key in keys :: key in byPair && byPair[key] == EntryOf(xs, n, key))
    && (forall key | key in byPair :: key in keys)
    && (forall i | 0 <= i < n && HalfOf(xs[i]).Some? :: HalfOf(xs[i]).value.key in keys)
  }

  /** The symbols without a pair name. */
  ghost predicate Nameless(xs: seq<Sym>, n: nat, unpaired: seq<nat>)
    requires n <= |xs|
  {
    && (forall i | i in unpaired :: i < n && IsAbsolute(xs[i]) && HalfOf(xs[i]).None?)
    && (forall i | 0 <= i < n && IsAbsolute(xs[i]) && HalfOf(xs[i]).None? :: i in unpaired)
  }

  lemma EntryTurn(xs: seq<Sym>, n: nat, key: string)
    requires n < |xs|
    ensures var e, h := EntryOf(xs, n, key), HalfOf(xs[n]);
      EntryOf(xs, n + 1, key) ==
        if h.None? || h.value.key != key then e
        else if h.value.role.Start? then e.(start := n) else e.(stop := n)
  {}

  lemma UnseenEntry(xs: seq<Sym>, n: nat, key: string, keys: seq<string>)
    requires n <= |xs| && key !in keys
    requires forall i | 0 <= i < n && HalfOf(xs[i]).Some? :: HalfOf(xs[i]).value.key in keys
    ensures EntryOf(xs, n, key) == Entry(-1, -1)
  {}

  lemma BucketSkips(xs: seq<Sym>, n: nat, byPair: map<string, Entry>, keys: seq<string>)
    requires n < |xs| && Bucketed(xs, n, byPair, keys) && HalfOf(xs[n]).None?
    ensures Bucketed(xs, n + 1, byPair, keys)
  {
    forall key | key in keys ensures byPair[key] == EntryOf(xs, n + 1, key) { EntryTurn(xs, n, key); }
  }

  lemma NamelessTurn(xs: seq<Sym>, n: nat, unpaired: seq<nat>, add: bool)
    requires n < |xs| && Nameless(xs, n, unpaired) && (add <==> IsAbsolute(xs[n]) && HalfOf(xs[n]).None?)
    ensures Nameless(xs, n + 1, if add then unpaired + [n] else unpaired)
  {}

  lemma BucketGrows(xs: seq<Sym>, n: nat, byPair: map<string, Entry>, keys: seq<string>, half: Half, entry: Entry,
                    byPair': map<string, Entry>, keys': seq<string>)
    requires n < |xs| && Bucketed(xs, n, byPair, keys) && HalfOf(xs[n]) == Some(half) && entry == EntryOf(xs, n, half.key)
    requires byPair' == byPair[half.key := if half.role.Start? then entry.(start := n) else entry.(stop := n)]
    requires keys' == if half.key in byPair then keys else keys + [half.key]
    ensures Bucketed(xs, n + 1, byPair', keys')
  {
    forall k | k in keys' ensures k in byPair' && byPair'[k] == EntryOf(xs, n + 1, k) { EntryTurn(xs, n, k); }
  }

  /** Put symbol n under its key and role. */
  method BucketAdd(xs: seq<Sym>, n: nat, byPair: map<string, Entry>, keys: seq<string>, half: Half)
    returns (byPair': map<string, Entry>, keys': seq<string>)
    requires n < |xs| && Bucketed(xs, n, byPair, keys) && HalfOf(xs[n]) == Some(half)
    ensures Bucketed(xs, n + 1, byPair', keys')
  {
    var key := half.key;
    var entry := Entry(-1, -1);
    keys' := keys;
    if key in byPair {
      entry := byPair[key];
    } else {
      UnseenEntry(xs, n, key, keys);
      keys' := keys + [key];
    }
    byPair' := byPair[key := if half.role.Start? then entry.(start := n) else entry.(stop := n)];
    BucketGrows(xs, n, byPair, keys, half, entry, byPair', keys');
  }

  /** Bucket the absolute symbols by pair key; a later one takes the place of an earlier. */
  method Bucket(xs: seq<Sym>) returns (byPair: map<string, Entry>, keys: seq<string>, unpaired: seq<nat>)
    ensures Bucketed(xs, |xs|, byPair, keys) && Nameless(xs, |xs|, unpaired)
  {
    byPair, keys, unpaired := map[], [], [];
    for n := 0 to |xs|
      invariant Bucketed(xs, n, byPair, keys) && Nameless(xs, n, unpaired)
    {
      var half := HalfOf(xs[n]);
      if half.Some? {
        byPair, keys := BucketAdd(xs, n, byPair, keys, half.value);
      } else {
        BucketSkips(xs, n, byPair, keys);
      }
      var add := IsAbsolute(xs[n]) && half.None?;
      NamelessTurn(xs, n, unpaired, add);
      if add { unpaired := unpaired + [n]; }
    }
  }

  /** A key with both halves is a pair; with one, the symbol kept under it is an orphan. */
  lemma EntryMeans(xs: seq<Sym>, key: string)
    ensures var e := EntryOf(xs, |xs|, key);
      && (e.start >= 0 && e.stop >= 0 ==> Paired(xs, e.start) && Partner(xs, e.start) == e.stop && Paired(xs, e.stop)
                                          && Partner(xs, e.stop) == e.start)
      && (e.start >= 0 && e.stop < 0 ==> Alone(xs, e.start))
      && (e.stop >= 0 && e.start < 0 ==> Alone(xs, e.stop))
  {
    var a, b := Half(key, Start), Half(key, Stop);
    assert Other(a) == b && Other(b) == a;
  }

  /** The symbol kept under its half is found under its key. */
  lemma KeptEntry(xs: seq<Sym>, i: nat)
    requires i < |xs| && Kept(xs, i)
    ensures var h := HalfOf(xs[i]).value; var e := EntryOf(xs, |xs|, h.key);
      && (if h.role.Start? then e.start else e.stop) == i
      && (if h.role.Start? then e.stop else e.start) == Partner(xs, i)
  {
    var h := HalfOf(xs[i]).value;
    assert h == Half(h.key, h.role);
  }

  predicate Both(e: Entry) { e.start >= 0 && e.stop >= 0 }

  ghost predicate Sorted(xs: seq<Sym>, pairs: seq<string>, alone: seq<nat>) {
    && (forall key | key in pairs :: Both(EntryOf(xs, |xs|, key)))
    && (forall i | i in alone :: i < |xs| && Alone(xs, i))
    && (forall i | 0 <= i < |xs| && Paired(xs, i) :: HalfOf(xs[i]).value.key in pairs)
    && (forall i | 0 <= i < |xs| && Alone(xs, i) :: i in alone)
  }

  ghost predicate Settled(xs: seq<Sym>, key: string, pairs: seq<string>, alone: seq<nat>) {
    var e := EntryOf(xs, |xs|, key);
    && (Both(e) ==> key in pairs)
    && (e.start >= 0 && e.stop < 0 ==> e.start in alone)
    && (e.stop >= 0 && e.start < 0 ==> e.stop in alone)
  }

  /** One key: an orphan joins the unpaired, a pair stays. */
  method TakeOrphan(xs: seq<Sym>, key: string, e: Entry, pairs: seq<string>, alone: seq<nat>)
    returns (pairs': seq<string>, alone': seq<nat>)
    requires e == EntryOf(xs, |xs|, key)
    requires forall k | k in pairs :: Both(EntryOf(xs, |xs|, k))
    requires forall i | i in alone :: i < |xs| && Alone(xs, i)
    ensures forall k | k in pairs' :: Both(EntryOf(xs, |xs|, k))
    ensures forall i | i in alone' :: i < |xs| && Alone(xs, i)
    ensures pairs <= pairs' && alone <= alone' && Settled(xs, key, pairs', alone')
  {
    EntryMeans(xs, key);
    pairs', alone' := pairs, alone;
    if e.start < 0 || e.stop < 0 {
      if e.start >= 0 { alone' := alone' + [e.start]; }
      if e.stop >= 0 { alone' := alone' + [e.stop]; }
    } else {
      pairs' := pairs' + [key];
    }
  }

  lemma SettledKey(xs: seq<Sym>, keys: seq<string>, pairs: seq<string>, alone: seq<nat>, key: string)
    requires key in keys && forall q | 0 <= q < |keys| :: Settled(xs, keys[q], pairs, alone)
    ensures Settled(xs, key, pairs, alone)
  {}

  lemma SettledSymbol(xs: seq<Sym>, i: nat, pairs: seq<string>, alone: seq<nat>)
    requires i < |xs| && Kept(xs, i) && Settled(xs, HalfOf(xs[i]).value.key, pairs, alone)
    ensures Paired(xs, i) ==> HalfOf(xs[i]).value.key in pairs
    ensures Alone(xs, i) ==> i in alone
  {
    KeptEntry(xs, i);
  }

  lemma SettledGrows(xs: seq<Sym>, key: string, pairs: seq<string>, alone: seq<nat>, pairs': seq<string>, alone': seq<nat>)
    requires Settled(xs, key, pairs, alone) && pairs <= pairs' && alone <= alone'
    ensures Settled(xs, key, pairs', alone')
  {}

  /** Symbols whose key lacks the other half are resolved alone. */
  method TakeOrphans(xs: seq<Sym>, byPair: map<string, Entry>, keys: seq<string>, unpaired: seq<nat>)
    returns (pairs: seq<string>, alone: seq<nat>)
    requires Bucketed(xs, |xs|, byPair, keys) && Nameless(xs, |xs|, unpaired)
    ensures Sorted(xs, pairs, alone)
  {
    pairs, alone := [], unpaired;
    for m := 0 to |keys|
      invariant unpaired <= alone
      invariant forall k | k in pairs :: Both(EntryOf(xs, |xs|, k))
      invariant forall i | i in alone :: i < |xs| && Alone(xs, i)
      invariant forall q | 0 <= q < m :: Settled(xs, keys[q], pairs, alone)
    {
      var pairs', alone' := TakeOrphan(xs, keys[m], byPair[keys[m]], pairs, alone);
      forall q | 0 <= q < m ensures Settled(xs, keys[q], pairs', alone') {
        SettledGrows(xs, keys[q], pairs, alone, pairs', alone');
      }
      pairs, alone := pairs', alone';
    }
    forall i | 0 <= i < |xs|
      ensures Paired(xs, i) ==> HalfOf(xs[i]).value.key in pairs
      ensures Alone(xs, i) ==> i in alone
    {
      if Kept(xs, i) {
        SettledKey(xs, keys, pairs, alone, HalfOf(xs[i]).value.key);
        SettledSymbol(xs, i, pairs, alone);
      }
    }
  }

  /** Conversions found so far, by symbol. */
  ghost predicate Sound(xs: seq<Sym>, segs: seq<Seg>, conv: map<nat, Cand>) {
    forall i | i in conv :: i < |xs| && Binding(xs, segs, i) == Some(conv[i])
  }

  ghost predicate Handled(xs: seq<Sym>, segs: seq<Seg>, i: int, conv: map<nat, Cand>) {
    0 <= i < |xs| && Binding(xs, segs, i).Some? ==> i in conv
  }

  lemma PairEntryBinding(xs: seq<Sym>, segs: seq<Seg>, key: string)
    requires Both(EntryOf(xs, |xs|, key))
    ensures var e := EntryOf(xs, |xs|, key);
      && IsAbsolute(xs[e.start]) && IsAbsolute(xs[e.stop])
      && var p := ChoosePair(segs, Value(xs[e.start]), Value(xs[e.stop]));
      && Binding(xs, segs, e.start) == (if p.Some? then Some(p.value.start) else None)
      && Binding(xs, segs, e.stop) == (if p.Some? then Some(p.value.stop) else None)
  {
    EntryMeans(xs, key);
  }

  ghost predicate PairHandled(xs: seq<Sym>, segs: seq<Seg>, key: string, conv: map<nat, Cand>) {
    var e := EntryOf(xs, |xs|, key);
    Handled(xs, segs, e.start, conv) && Handled(xs, segs, e.stop, conv)
  }

  /** One start/stop pair. */
  method ResolvePair(xs: seq<Sym>, segs: seq<Seg>, key: string, e: Entry, found: map<nat, Cand>) returns (conv: map<nat, Cand>)
    requires Sound(xs, segs, found) && e == EntryOf(xs, |xs|, key) && Both(e)
    ensures Sound(xs, segs, conv) && found.Keys <= conv.Keys
    ensures PairHandled(xs, segs, key, conv)
  {
    PairEntryBinding(xs, segs, key);
    var p := ChoosePairLoop(segs, Value(xs[e.start]), Value(xs[e.stop]));
    conv := found;
    if p.Some? { conv := found[e.start := p.value.start][e.stop := p.value.stop]; }
  }

  lemma PairHandledGrows(xs: seq<Sym>, segs: seq<Seg>, key: string, conv: map<nat, Cand>, more: map<nat, Cand>)
    requires PairHandled(xs, segs, key, conv) && conv.Keys <= more.Keys
    ensures PairHandled(xs, segs, key, more)
  {}

  /** Resolve paired symbols. */
  method ResolvePairs(xs: seq<Sym>, segs: seq<Seg>, byPair: map<string, Entry>, pairs: seq<string>) returns (conv: map<nat, Cand>)
    requires forall key | key in pairs :: key in byPair && byPair[key] == EntryOf(xs, |xs|, key) && Both(byPair[key])
    ensures Sound(xs, segs, conv)
    ensures forall key | key in pairs :: PairHandled(xs, segs, key, conv)
  {
    conv := map[];
    for m := 0 to |pairs|
      invariant Sound(xs, segs, conv)
      invariant forall q | 0 <= q < m :: PairHandled(xs, segs, pairs[q], conv)
    {
      var key := pairs[m];
      assert key in pairs;
      var more := ResolvePair(xs, segs, key, byPair[key], conv);
      forall q | 0 <= q < m ensures PairHandled(xs, segs, pairs[q], more) {
        PairHandledGrows(xs, segs, pairs[q], conv, more);
      }
      conv := more;
    }
  }

  /** Resolve unpaired symbols. */
  method ResolveAlone(xs: seq<Sym>, segs: seq<Seg>, alone: seq<nat>, found: map<nat, Cand>) returns (conv: map<nat, Cand>)
    requires Sound(xs, segs, found) && forall i | i in alone :: i < |xs| && Alone(xs, i)
    ensures Sound(xs, segs, conv) && found.Keys <= conv.Keys
    ensures forall i | i in alone :: Handled(xs, segs, i, conv)
  {
    conv := found;
    for m := 0 to |alone|
      invariant Sound(xs, segs, conv) && found.Keys <= conv.Keys
      invariant forall q | 0 <= q < m :: Handled(xs, segs, alone[q], conv)
    {
      var i := alone[m];
      assert i in alone;
      var c := FindSegmentLoop(segs, Value(xs[i]));
      if c.Some? { conv := conv[i := c.value]; }
    }
  }

  /** Apply the conversions. */
  method Apply(xs: seq<Sym>, segs: seq<Seg>, conv: map<nat, Cand>) returns (ys: seq<Sym>)
    requires Sound(xs, segs, conv) && forall i | 0 <= i < |xs| :: Handled(xs, segs, i, conv)
    ensures ys == Rebind(xs, segs)
  {
    ys := xs;
    for i := 0 to |xs|
      invariant |ys| == |xs|
      invariant forall j | 0 <= j < i :: ys[j] == RebindAt(xs, segs, j)
      invariant forall j | i <= j < |xs| :: ys[j] == xs[j]
    {
      assert Handled(xs, segs, i, conv);
      if i in conv { ys := ys[i := Bound(xs[i], conv[i])]; }
    }
  }

  predicate AnyConversion(xs: seq<Sym>, segs: seq<Seg>) {
    exists i | 0 <= i < |xs| :: Binding(xs, segs, i).Some?
  }

  lemma AllHandled(xs: seq<Sym>, segs: seq<Seg>, pairs: seq<string>, alone: seq<nat>, conv: map<nat, Cand>, i: nat)
    requires Sorted(xs, pairs, alone) && i < |xs|
    requires forall key | key in pairs :: PairHandled(xs, segs, key, conv)
    requires forall i | i in alone :: Handled(xs, segs, i, conv)
    ensures Handled(xs, segs, i, conv)
  {
    if Paired(xs, i) {
      KeptEntry(xs, i);
      assert PairHandled(xs, segs, HalfOf(xs[i]).value.key, conv);
    }
  }

  /** All conversions. */
  method Conversions(xs: seq<Sym>, segs: seq<Seg>) returns (conv: map<nat, Cand>)
    ensures Sound(xs, segs, conv) && forall i | 0 <= i < |xs| :: Handled(xs, segs, i, conv)
  {
    var byPair, keys, unpaired := Bucket(xs);
    var pairs, alone := TakeOrphans(xs, byPair, keys, unpaired);
    var found := ResolvePairs(xs, segs, byPair, pairs);
    conv := ResolveAlone(xs, segs, alone, found);
    forall key | key in pairs ensures PairHandled(xs, segs, key, conv) { PairHandledGrows(xs, segs, key, found, conv); }
    forall i | 0 <= i < |xs| ensures Handled(xs, segs, i, conv) { AllHandled(xs, segs, pairs, alone, conv, i); }
  }

  /** Everything main does to the absolute symbols. */
  method RebindLoop(xs: seq<Sym>, segs: seq<Seg>) returns (ys: seq<Sym>, any: bool)
    ensures ys == Rebind(xs, segs) && (any <==> AnyConversion(xs, segs))
  {
    var conv := Conversions(xs, segs);
    ys := Apply(xs, segs, conv);
    any := conv.Keys != {};
    if any { ghost var i :| i in conv.Keys; }
    if i :| 0 <= i < |xs| && Binding(xs, segs, i).Some? { assert Handled(xs, segs, i, conv) && i in conv.Keys; }
  }

  // ---- The jiffies alias --------------------------------------------------------------------------

  /** by_name: the last of the first n symbols that is data with this name, or -1. */
  function LastNamed(xs: seq<Sym>, n: nat, name: string): (i: int)
    requires n <= |xs|
    ensures -1 <= i < n && (i >= 0 ==> xs[i].Data? && Text(xs[i].name) == name)
  {
    if n == 0 then -1
    else if xs[n - 1].Data? && Text(xs[n - 1].name) == name then n - 1
    else LastNamed(xs, n - 1, name)
  }

  /** Both defined, and not already at the target with size 4. */
  predicate NeedsAlias(a: Sym, t: Sym) {
    && a.Data? && t.Data? && a.place.Some? && t.place.Some?
    && !(!Absolute(a.flags) && a.place.value == Place(t.place.value.segment, t.place.value.offset, 4))
  }

  function AliasIndices(xs: seq<Sym>): (int, int) {
    (LastNamed(xs, |xs|, "jiffies"), LastNamed(xs, |xs|, "jiffies_64"))
  }

  predicate AliasFound(xs: seq<Sym>) {
    var (a, t) := AliasIndices(xs);
    a >= 0 && t >= 0 && NeedsAlias(xs[a], xs[t])
  }

  /** alias_fixes and its loop: a target that is still absolute is skipped. */
  function FixAlias(xs: seq<Sym>): (ys: seq<Sym>)
    ensures |ys| == |xs|
  {
    var (a, t) := AliasIndices(xs);
    if !AliasFound(xs) || Absolute(xs[t].flags) then xs
    else
      var p := xs[t].place.value;
      xs[a := xs[a].(flags := ClearBit(xs[a].flags, 9), place := Some(Place(p.segment, p.offset, 4)))]
  }

  /** Only jiffies moves, to where jiffies_64 is. */
  lemma AliasMovesJiffiesOnly(xs: seq<Sym>, i: nat)
    requires i < |xs| && ValidSym(xs[i])
    ensures var x, y := xs[i], FixAlias(xs)[i];
      && ValidSym(y)
      && (y != x ==> x.Data? && Text(x.name) == "jiffies" && y.Data? && y.name == x.name && !Absolute(y.flags)
                     && exists t | 0 <= t < |xs| :: xs[t].Data? && Text(xs[t].name) == "jiffies_64" && xs[t].place.Some?
                          && FixAlias(xs)[t] == xs[t] && y.place == Some(Place(xs[t].place.value.segment, xs[t].place.value.offset, 4)))
  {
    if FixAlias(xs)[i] != xs[i] {
      ClearBitClears(xs[i].flags, 9, 4);
      ClearBitClears(xs[i].flags, 9, 9);
      var t := AliasIndices(xs).1;
      assert Text(xs[t].name) != Text(xs[i].name);
    }
  }
}
