/**
 * From a linked ELF image to a dylib for macOS: what the converter accepts,
 * the assembly it writes, an ideal assembler and linker for that assembly, and
 * the check it runs on the result.
 */
module Elf2Dylib {
  import opened Bytes

  const DELTA: nat := 0x4000
  const PAGE: nat := 0x4000

  /** A PT_LOAD with p_offset == p_vaddr. */
  datatype Load = Load(vaddr: nat, filesz: nat, memsz: nat)

  /** A RELATIVE relocation. */
  datatype Slot = Slot(at: nat, addend: int)

  /** The file, its PT_LOADs in order, its slots by address, the addresses to export. */
  datatype Image = Image(data: seq<byte>, loads: seq<Load>, slots: seq<Slot>, exports: seq<int>)

  function End(p: Load): nat { p.vaddr + p.filesz }

  // ---- Image.parse and Image.label -------------------------------------------------------

  /** A position in the output, relative to a label the assembly defines. */
  datatype Label = InSeg(i: nat, off: nat) | InBss(off: nat)

  predicate HasBss(loads: seq<Load>)
    requires |loads| == 4
  {
    loads[3].memsz > loads[3].filesz
  }

  /** Image.label, from segment i on: the first segment whose closed range has the address. */
  function LabelFrom(loads: seq<Load>, addr: int, i: nat): Option<Label>
    requires |loads| == 4 && i <= 4
    decreases 4 - i
  {
    if i == 4 then None
    else
      var p := loads[i];
      if p.vaddr <= addr <= p.vaddr + p.memsz then
        if i == 3 && HasBss(loads) && addr >= End(p) then Some(InBss(addr - End(p)))
        else Some(InSeg(i, addr - p.vaddr))
      else LabelFrom(loads, addr, i + 1)
  }

  function LabelOf(loads: seq<Load>, addr: int): Option<Label>
    requires |loads| == 4
  {
    LabelFrom(loads, addr, 0)
  }

  /** The checks on the segments. */
  predicate GoodLoads(data: seq<byte>, loads: seq<Load>) {
    && |loads| == 4
    && (forall i | 0 <= i < 4 :: loads[i].vaddr % PAGE == 0 && End(loads[i]) <= |data|)
    && (forall i | 0 <= i < 3 :: loads[i].vaddr + loads[i].memsz <= loads[i + 1].vaddr)
    && loads[0].vaddr == 0
    && loads[0].memsz == loads[0].filesz && loads[1].memsz == loads[1].filesz
  }

  predicate Within(s: Slot, p: Load) { p.vaddr <= s.at && s.at + 8 <= End(p) }

  /** What parse accepts. */
  predicate Accepted(img: Image) {
    && GoodLoads(img.data, img.loads)
    && (forall k | 0 <= k < |img.slots| :: Within(img.slots[k], img.loads[2]) || Within(img.slots[k], img.loads[3]))
    && (forall k | 0 <= k < |img.slots| :: LabelOf(img.loads, img.slots[k].addend).Some?)
    && (forall j, k | 0 <= j < k < |img.slots| :: img.slots[j].at < img.slots[k].at)
  }

  // ---- write_asm -----------------------------------------------------------------------------

  datatype Piece = Incbin(bytes: seq<byte>) | Quad(target: Label) | Space(n: nat)

  datatype Asm = Asm(sections: seq<seq<Piece>>, bss: Option<nat>, exports: seq<Label>)

  /** The slots in the file data of a segment. */
  function SlotsIn(slots: seq<Slot>, p: Load): seq<Slot> {
    if slots == [] then []
    else
      var rest := SlotsIn(slots[1..], p);
      if p.vaddr <= slots[0].at < End(p) then [slots[0]] + rest else rest
  }

  /** Slots whose targets have labels and which start in the n bytes from `base` on. */
  predicate Placed(loads: seq<Load>, base: nat, n: nat, slots: seq<Slot>) {
    |loads| == 4 &&
    forall k | 0 <= k < |slots| :: LabelOf(loads, slots[k].addend).Some? && base <= slots[k].at < base + n
  }

  /** The inner loop of write_asm from `pos` on; None where it rejects overlapping slots. */
  function Emit(loads: seq<Load>, d: seq<byte>, base: nat, pos: nat, slots: seq<Slot>): Option<seq<Piece>>
    requires Placed(loads, base, |d|, slots)
    decreases |slots|
  {
    if slots == [] then Some(if |d| > pos then [Incbin(d[pos..])] else [])
    else
      var off := slots[0].at - base;
      if off < pos then None
      else
        var rest := Emit(loads, d, base, off + 8, slots[1..]);
        if rest.None? then None
        else
          Some((if off > pos then [Incbin(d[pos..off])] else [])
               + [Quad(LabelOf(loads, slots[0].addend).value)] + rest.value)
  }

  function SegData(img: Image, i: nat): (d: seq<byte>)
    requires Accepted(img) && i < 4
    ensures |d| == img.loads[i].filesz
  {
    img.data[img.loads[i].vaddr..End(img.loads[i])]
  }

  /** The zero-fill tail, then padding up to the next segment; the last tail is .zerofill. */
  function Tail(loads: seq<Load>, i: nat): seq<Piece>
    requires |loads| == 4 && i < 4
    requires i < 3 ==> loads[i].vaddr + loads[i].memsz <= loads[i + 1].vaddr
  {
    if i == 3 then []
    else
      var gap := loads[i + 1].vaddr - (loads[i].vaddr + loads[i].memsz);
      (if loads[i].memsz > loads[i].filesz then [Space(loads[i].memsz - loads[i].filesz)] else [])
      + (if gap > 0 then [Space(gap)] else [])
  }

  lemma {:induction false} SlotsInAre(slots: seq<Slot>, p: Load, k: nat)
    requires k < |SlotsIn(slots, p)|
    ensures SlotsIn(slots, p)[k] in slots && p.vaddr <= SlotsIn(slots, p)[k].at < End(p)
  {
    if p.vaddr <= slots[0].at < End(p) {
      if k > 0 { SlotsInAre(slots[1..], p, k - 1); }
    } else {
      SlotsInAre(slots[1..], p, k);
    }
  }

  lemma SlotsInPlaced(img: Image, i: nat)
    requires Accepted(img) && i < 4
    ensures Placed(img.loads, img.loads[i].vaddr, img.loads[i].filesz, SlotsIn(img.slots, img.loads[i]))
  {
    var slots := SlotsIn(img.slots, img.loads[i]);
    forall k | 0 <= k < |slots| ensures slots[k] in img.slots && img.loads[i].vaddr <= slots[k].at < End(img.loads[i]) {
      SlotsInAre(img.slots, img.loads[i], k);
    }
  }

  function SectionPieces(img: Image, i: nat): Option<seq<Piece>>
    requires Accepted(img) && i < 4
  {
    SlotsInPlaced(img, i);
    var p := img.loads[i];
    var body := Emit(img.loads, SegData(img, i), p.vaddr, 0, SlotsIn(img.slots, p));
    if body.None? then None else Some(body.value + Tail(img.loads, i))
  }

  function ExportLabels(loads: seq<Load>, exports: seq<int>): (r: Option<seq<Label>>)
    requires |loads| == 4
    ensures r.Some? ==> |r.value| == |exports|
    ensures r.Some? ==> forall k | 0 <= k < |exports| :: LabelOf(loads, exports[k]) == Some(r.value[k])
  {
    if exports == [] then Some([])
    else
      var first, rest := LabelOf(loads, exports[0]), ExportLabels(loads, exports[1..]);
      if first.None? || rest.None? then None else Some([first.value] + rest.value)
  }

  /** write_asm; None where it rejects. */
  function WriteAsm(img: Image): (r: Option<Asm>)
    requires Accepted(img)
    ensures r.Some? ==> |r.value.sections| == 4
  {
    var s0, s1, s2, s3 := SectionPieces(img, 0), SectionPieces(img, 1), SectionPieces(img, 2), SectionPieces(img, 3);
    var exports := ExportLabels(img.loads, img.exports);
    if s0.None? || s1.None? || s2.None? || s3.None? || exports.None? then None
    else
      var p := img.loads[3];
      Some(Asm([s0.value, s1.value, s2.value, s3.value],
               if HasBss(img.loads) then Some(p.memsz - p.filesz) else None, exports.value))
  }

  // ---- An ideal assembler and linker --------------------------------------------------------

  datatype Section = Section(addr: nat, bytes: seq<byte>)

  datatype Bss = Bss(addr: nat, size: nat)

  datatype Dylib = Dylib(sections: seq<Section>, bss: Option<Bss>, rebases: seq<nat>, exports: seq<nat>)

  function PieceSize(x: Piece): nat {
    match x
    case Incbin(bytes) => |bytes|
    case Quad(_) => 8
    case Space(n) => n
  }

  function Total(ps: seq<Piece>): nat {
    if ps == [] then 0 else PieceSize(ps[0]) + Total(ps[1..])
  }

  /** .p2align 14 */
  function AlignUp(a: nat): (r: nat)
    ensures r % PAGE == 0 && a <= r < a + PAGE
    ensures a % PAGE == 0 ==> r == a
  {
    var r := a % PAGE;
    if r == 0 then a else a - r + PAGE
  }

  /** One page of header, then the sections in order, each on its own page. */
  function StartOf(sections: seq<seq<Piece>>, i: nat): nat
    requires i < |sections|
  {
    if i == 0 then DELTA else AlignUp(StartOf(sections, i - 1) + Total(sections[i - 1]))
  }

  /** .zerofill follows the last section unaligned. */
  function BssStart(asm: Asm): nat
    requires |asm.sections| == 4
  {
    StartOf(asm.sections, 3) + Total(asm.sections[3])
  }

  function Resolve(asm: Asm, l: Label): nat
    requires |asm.sections| == 4
  {
    match l
    case InSeg(i, off) => if i < 4 then StartOf(asm.sections, i) + off else off
    case InBss(off) => BssStart(asm) + off
  }

  function LittleEndian(v: nat, n: nat): (s: seq<byte>)
    ensures |s| == n
  {
    if n == 0 then [] else [v % 256] + LittleEndian(v / 256, n - 1)
  }

  function Zeros(n: nat): (s: seq<byte>)
    ensures |s| == n
  {
    seq(n, _ => 0)
  }

  function PieceBytes(asm: Asm, x: Piece): (s: seq<byte>)
    requires |asm.sections| == 4
    ensures |s| == PieceSize(x)
  {
    match x
    case Incbin(bytes) => bytes
    case Quad(target) => LittleEndian(Resolve(asm, target), 8)
    case Space(n) => Zeros(n)
  }

  function Content(asm: Asm, ps: seq<Piece>): (s: seq<byte>)
    requires |asm.sections| == 4
    ensures |s| == Total(ps)
  {
    if ps == [] then [] else PieceBytes(asm, ps[0]) + Content(asm, ps[1..])
  }

  /** Every .quad of a label is a rebase. */
  function Rebases(ps: seq<Piece>, addr: nat): seq<nat> {
    if ps == [] then []
    else (if ps[0].Quad? then [addr] else []) + Rebases(ps[1..], addr + PieceSize(ps[0]))
  }

  function AllRebases(ss: seq<seq<Piece>>): seq<nat>
    requires |ss| == 4
  {
    Rebases(ss[0], StartOf(ss, 0)) + Rebases(ss[1], StartOf(ss, 1))
    + (Rebases(ss[2], StartOf(ss, 2)) + Rebases(ss[3], StartOf(ss, 3)))
  }

  function PlaceBss(asm: Asm): Option<Bss>
    requires |asm.sections| == 4
  {
    if asm.bss.Some? then Some(Bss(BssStart(asm), asm.bss.value)) else None
  }

  function ResolveAll(asm: Asm, ls: seq<Label>): (r: seq<nat>)
    requires |asm.sections| == 4
    ensures |r| == |ls| && forall k | 0 <= k < |ls| :: r[k] == Resolve(asm, ls[k])
  {
    seq(|ls|, k requires 0 <= k < |ls| => Resolve(asm, ls[k]))
  }

  function Link(asm: Asm): Dylib
    requires |asm.sections| == 4
  {
    Dylib(seq(4, i requires 0 <= i < 4 => Section(StartOf(asm.sections, i), Content(asm, asm.sections[i]))),
          PlaceBss(asm), AllRebases(asm.sections), ResolveAll(asm, asm.exports))
  }

  // ---- check_output ------------------------------------------------------------------------------

  /** struct.pack_into("<Q", ...) */
  function PackInto(d: seq<byte>, off: nat, v: nat): (e: seq<byte>)
    requires off + 8 <= |d|
    ensures |e| == |d|
  {
    d[..off] + LittleEndian(v, 8) + d[off + 8..]
  }

  /** The loop that patches the slots of a segment; None where pack_into raises. */
  function Patch(d: seq<byte>, base: nat, slots: seq<Slot>): (r: Option<seq<byte>>)
    ensures r.Some? ==> |r.value| == |d|
    decreases |slots|
  {
    if slots == [] then Some(d)
    else
      var s := slots[0];
      if s.at < base || s.at - base + 8 > |d| || s.addend + DELTA < 0 then None
      else Patch(PackInto(d, s.at - base, s.addend + DELTA), base, slots[1..])
  }

  /** The size the checker expects of section i. */
  function WantSize(loads: seq<Load>, i: nat): int
    requires |loads| == 4 && i < 4
  {
    if i == 3 then loads[i].filesz else loads[i + 1].vaddr - loads[i].vaddr
  }

  function Want(img: Image, i: nat): Option<seq<byte>>
    requires Accepted(img) && i < 4
  {
    var p, size := img.loads[i], WantSize(img.loads, i);
    if size < p.filesz then None
    else Patch(SegData(img, i) + Zeros(size - p.filesz), p.vaddr, SlotsIn(img.slots, p))
  }

  predicate SectionPasses(img: Image, i: nat, s: Section)
    requires Accepted(img) && i < 4
  {
    s.addr == img.loads[i].vaddr + DELTA && |s.bytes| == WantSize(img.loads, i) && Want(img, i) == Some(s.bytes)
  }

  function WantRebases(slots: seq<Slot>): (r: seq<nat>)
    ensures |r| == |slots|
  {
    seq(|slots|, k requires 0 <= k < |slots| => slots[k].at + DELTA)
  }

  predicate Passes(img: Image, out: Dylib)
    requires Accepted(img)
  {
    var p := img.loads[3];
    && |out.sections| == 4 && (forall i | 0 <= i < 4 :: SectionPasses(img, i, out.sections[i]))
    && (HasBss(img.loads) ==> out.bss == Some(Bss(End(p) + DELTA, p.memsz - p.filesz)))
    && multiset(out.rebases) == multiset(WantRebases(img.slots))
    && |out.exports| == |img.exports|
    && (forall k | 0 <= k < |out.exports| :: out.exports[k] == img.exports[k] + DELTA)
  }

  // ---- What one section holds ------------------------------------------------------------------------

  /** Slots that lie wholly in the n bytes from `base` on. */
  predicate Fits(base: nat, n: nat, slots: seq<Slot>) {
    forall k | 0 <= k < |slots| :: base <= slots[k].at && slots[k].at + 8 <= base + n
  }

  lemma {:induction false} EmitAscends(loads: seq<Load>, d: seq<byte>, base: nat, pos: nat, slots: seq<Slot>)
    requires Placed(loads, base, |d|, slots) && Emit(loads, d, base, pos, slots).Some?
    ensures forall k | 0 <= k < |slots| :: slots[k].at >= base + pos
    decreases |slots|
  {
    if slots != [] {
      EmitAscends(loads, d, base, slots[0].at - base + 8, slots[1..]);
      forall k | 0 <= k < |slots| ensures slots[k].at >= base + pos {
        if k > 0 { assert slots[k] == slots[1..][k - 1]; }
      }
    }
  }

  lemma SuffixOf(d: seq<byte>, e: seq<byte>, pos: nat, q: nat)
    requires pos <= q <= |d| == |e| && d[pos..] == e[pos..]
    ensures d[q..] == e[q..] && d[pos..q] == e[pos..q]
  {
    assert d[pos..][q - pos..] == d[q..] && e[pos..][q - pos..] == e[q..];
    assert d[pos..][..q - pos] == d[pos..q] && e[pos..][..q - pos] == e[pos..q];
  }

  /** Emitting reads nothing before `pos`. */
  lemma {:induction false} EmitSuffix(loads: seq<Load>, d: seq<byte>, e: seq<byte>, base: nat, pos: nat, slots: seq<Slot>)
    requires |d| == |e| && Placed(loads, base, |d|, slots) && Fits(base, |d|, slots)
    requires pos <= |d| && d[pos..] == e[pos..]
    ensures Emit(loads, d, base, pos, slots) == Emit(loads, e, base, pos, slots)
    decreases |slots|
  {
    if slots != [] && slots[0].at >= base + pos {
      var off := slots[0].at - base;
      SuffixOf(d, e, pos, off);
      SuffixOf(d, e, pos, off + 8);
      EmitSuffix(loads, d, e, base, off + 8, slots[1..]);
    }
  }

  /** Patching later slots leaves what is before them. */
  lemma {:induction false} PatchPrefix(d: seq<byte>, base: nat, slots: seq<Slot>, p: nat)
    requires Patch(d, base, slots).Some? && p <= |d| && forall k | 0 <= k < |slots| :: slots[k].at >= base + p
    ensures Patch(d, base, slots).value[..p] == d[..p]
    decreases |slots|
  {
    if slots != [] {
      var e := PackInto(d, slots[0].at - base, slots[0].addend + DELTA);
      PatchPrefix(e, base, slots[1..], p);
      assert e[..p] == d[..p];
    }
  }

  ghost predicate Resolves(asm: Asm, loads: seq<Load>, slots: seq<Slot>)
    requires |asm.sections| == 4
  {
    |loads| == 4 &&
    forall k | 0 <= k < |slots| ::
      LabelOf(loads, slots[k].addend).Some? && Resolve(asm, LabelOf(loads, slots[k].addend).value) == slots[k].addend + DELTA
  }

  lemma {:induction false} ContentConcat(asm: Asm, a: seq<Piece>, b: seq<Piece>)
    requires |asm.sections| == 4
    ensures Content(asm, a + b) == Content(asm, a) + Content(asm, b)
  {
    if a == [] {
      assert a + b == b;
    } else {
      assert (a + b)[1..] == a[1..] + b;
      ContentConcat(asm, a[1..], b);
      assert PieceBytes(asm, a[0]) + (Content(asm, a[1..]) + Content(asm, b)) == Content(asm, a) + Content(asm, b);
    }
  }

  lemma OneBytes(asm: Asm, x: Piece)
    requires |asm.sections| == 4
    ensures Content(asm, [x]) == PieceBytes(asm, x)
  {
    assert Content(asm, [x]) == PieceBytes(asm, x) + [];
  }

  /** The bytes of a slot and what precedes it, from `pos` on. */
  lemma EmitStepBytes(asm: Asm, d: seq<byte>, pos: nat, off: nat, l: Label, rest: seq<Piece>)
    requires |asm.sections| == 4 && pos <= off <= |d|
    ensures Content(asm, (if off > pos then [Incbin(d[pos..off])] else []) + [Quad(l)] + rest)
         == d[pos..off] + LittleEndian(Resolve(asm, l), 8) + Content(asm, rest)
  {
    var pre := if off > pos then [Incbin(d[pos..off])] else [];
    ContentConcat(asm, pre + [Quad(l)], rest);
    ContentConcat(asm, pre, [Quad(l)]);
    OneBytes(asm, Quad(l));
    if off > pos { OneBytes(asm, Incbin(d[pos..off])); } else { assert d[pos..off] == []; }
  }

  /** d with eight bytes packed at off and the rest patched, from pos on. */
  lemma PatchedFrom(d: seq<byte>, off: nat, next: nat, v: nat, pos: nat, w: seq<byte>)
    requires pos <= off && next == off + 8 <= |d| == |w| && w[..next] == PackInto(d, off, v)[..next]
    ensures w[pos..] == d[pos..off] + LittleEndian(v, 8) + w[next..]
  {
    var e := PackInto(d, off, v);
    assert e[..next] == d[..off] + LittleEndian(v, 8);
    assert w == w[..next] + w[next..];
    assert (d[..off] + LittleEndian(v, 8))[pos..] == d[pos..off] + LittleEndian(v, 8);
  }

  lemma EmitStep(loads: seq<Load>, d: seq<byte>, base: nat, pos: nat, slots: seq<Slot>, off: nat, next: nat)
    requires Placed(loads, base, |d|, slots) && slots != [] && Emit(loads, d, base, pos, slots).Some?
    requires off == slots[0].at - base && next == off + 8
    ensures off >= pos && Placed(loads, base, |d|, slots[1..]) && Emit(loads, d, base, next, slots[1..]).Some?
    ensures Emit(loads, d, base, pos, slots).value
      == (if off > pos then [Incbin(d[pos..off])] else []) + [Quad(LabelOf(loads, slots[0].addend).value)]
         + Emit(loads, d, base, next, slots[1..]).value
  {}

  lemma PatchStep(d: seq<byte>, base: nat, slots: seq<Slot>, off: nat, v: nat)
    requires slots != [] && slots[0].at == base + off && off + 8 <= |d| && v == slots[0].addend + DELTA
    ensures Patch(d, base, slots) == Patch(PackInto(d, off, v), base, slots[1..])
  {}

  /** Patching the rest after a slot: what comes before stays, and the pieces do not change. */
  lemma EmitPatchedRest(loads: seq<Load>, d: seq<byte>, e: seq<byte>, base: nat, next: nat, slots: seq<Slot>)
    requires |d| == |e| && Placed(loads, base, |d|, slots) && Fits(base, |d|, slots) && next <= |d| && e[next..] == d[next..]
    requires Emit(loads, d, base, next, slots).Some? && Patch(e, base, slots).Some?
    ensures Emit(loads, e, base, next, slots) == Emit(loads, d, base, next, slots)
    ensures Patch(e, base, slots).value[..next] == e[..next]
  {
    EmitSuffix(loads, d, e, base, next, slots);
    EmitAscends(loads, d, base, next, slots);
    PatchPrefix(e, base, slots, next);
  }

  /** The emitted pieces resolve to the segment's bytes with its slots patched. */
  lemma {:induction false} EmitPatches(asm: Asm, loads: seq<Load>, d: seq<byte>, base: nat, pos: nat, slots: seq<Slot>)
    requires |asm.sections| == 4 && Placed(loads, base, |d|, slots) && Fits(base, |d|, slots) && pos <= |d|
    requires Resolves(asm, loads, slots) && Emit(loads, d, base, pos, slots).Some?
    ensures Patch(d, base, slots).Some?
    ensures Content(asm, Emit(loads, d, base, pos, slots).value) == Patch(d, base, slots).value[pos..]
    decreases |slots|
  {
    if slots == [] {
      if |d| > pos { OneBytes(asm, Incbin(d[pos..])); } else { assert d[pos..] == []; }
    } else {
      var s := slots[0];
      var off, v := s.at - base, s.addend + DELTA;
      var next, e := off + 8, PackInto(d, off, v);
      assert e[next..] == d[next..];
      EmitStep(loads, d, base, pos, slots, off, next);
      PatchStep(d, base, slots, off, v);
      EmitSuffix(loads, d, e, base, next, slots[1..]);
      EmitPatches(asm, loads, e, base, next, slots[1..]);
      EmitPatchedRest(loads, d, e, base, next, slots[1..]);
      PatchedFrom(d, off, next, v, pos, Patch(e, base, slots[1..]).value);
      EmitStepBytes(asm, d, pos, off, LabelOf(loads, s.addend).value, Emit(loads, d, base, next, slots[1..]).value);
    }
  }
}
