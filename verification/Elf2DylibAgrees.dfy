/** The generator and the checker of the converter agree. */
module Elf2DylibAgrees {
  import opened Bytes
  import opened Elf2Dylib

  /**
   * The third segment has no file data past its memory size. The parser does
   * not ask for this, and it is exactly what the padding relies on.
   */
  predicate Ordinary(img: Image)
    requires Accepted(img)
  {
    img.loads[2].filesz <= img.loads[2].memsz
  }

  // ---- Sizes and addresses -------------------------------------------------------------

  lemma {:induction false} TotalConcat(a: seq<Piece>, b: seq<Piece>)
    ensures Total(a + b) == Total(a) + Total(b)
  {
    if a == [] {
      assert a + b == b;
    } else {
      assert (a + b)[1..] == a[1..] + b;
      TotalConcat(a[1..], b);
    }
  }

  lemma OneTotal(x: Piece)
    ensures Total([x]) == PieceSize(x)
  {
    assert Total([x]) == PieceSize(x) + Total([]);
  }

  /** File data is emitted whole, and slots that fit add nothing to it. */
  lemma {:induction false} EmitTotal(loads: seq<Load>, d: seq<byte>, base: nat, pos: nat, slots: seq<Slot>)
    requires Placed(loads, base, |d|, slots) && Emit(loads, d, base, pos, slots).Some?
    ensures pos + Total(Emit(loads, d, base, pos, slots).value) >= |d|
    ensures Fits(base, |d|, slots) && pos <= |d| ==> pos + Total(Emit(loads, d, base, pos, slots).value) == |d|
    decreases |slots|
  {
    if slots == [] {
      if |d| > pos { OneTotal(Incbin(d[pos..])); }
    } else {
      var off := slots[0].at - base;
      var next := off + 8;
      EmitStep(loads, d, base, pos, slots, off, next);
      var pre := if off > pos then [Incbin(d[pos..off])] else [];
      var q := Quad(LabelOf(loads, slots[0].addend).value);
      var rest := Emit(loads, d, base, next, slots[1..]).value;
      TotalConcat(pre + [q], rest);
      TotalConcat(pre, [q]);
      OneTotal(q);
      if off > pos { OneTotal(Incbin(d[pos..off])); }
      EmitTotal(loads, d, base, next, slots[1..]);
    }
  }

  lemma TailTotal(loads: seq<Load>, i: nat)
    requires |loads| == 4 && i < 4 && (i < 3 ==> loads[i].vaddr + loads[i].memsz <= loads[i + 1].vaddr)
    ensures i == 3 ==> Tail(loads, i) == []
    ensures i < 3 ==> loads[i].filesz + Total(Tail(loads, i)) >= WantSize(loads, i)
    ensures i < 3 && loads[i].filesz <= loads[i].memsz ==> loads[i].filesz + Total(Tail(loads, i)) == WantSize(loads, i)
    ensures i < 3 && loads[i].filesz > loads[i].memsz ==> loads[i].filesz + Total(Tail(loads, i)) > WantSize(loads, i)
  {
    if i < 3 {
      var gap := loads[i + 1].vaddr - (loads[i].vaddr + loads[i].memsz);
      var a := if loads[i].memsz > loads[i].filesz then [Space(loads[i].memsz - loads[i].filesz)] else [];
      var b := if gap > 0 then [Space(gap)] else [];
      TotalConcat(a, b);
      if a != [] { OneTotal(a[0]); }
      if b != [] { OneTotal(b[0]); }
    }
  }

  predicate Ascending(slots: seq<Slot>) { forall j, k | 0 <= j < k < |slots| :: slots[j].at < slots[k].at }

  /** A slot that starts in the file data of p. */
  predicate In(s: Slot, p: Load) { p.vaddr <= s.at < End(p) }

  lemma {:induction false} NoneBelow(slots: seq<Slot>, p: Load)
    requires forall k | 0 <= k < |slots| :: slots[k].at >= End(p)
    ensures SlotsIn(slots, p) == []
  {
    if slots != [] { NoneBelow(slots[1..], p); }
  }

  /** The first two segments have no slots. */
  lemma NoSlotsBefore(img: Image, i: nat)
    requires Accepted(img) && i < 2
    ensures SlotsIn(img.slots, img.loads[i]) == []
  {
    assert img.loads[0].vaddr + img.loads[0].memsz <= img.loads[1].vaddr;
    assert img.loads[1].vaddr + img.loads[1].memsz <= img.loads[2].vaddr;
    assert img.loads[2].vaddr + img.loads[2].memsz <= img.loads[3].vaddr;
    NoneBelow(img.slots, img.loads[i]);
  }

  /** A slot of a segment lies wholly in it. */
  lemma SlotsInFit(img: Image, i: nat)
    requires Accepted(img) && i < 4 && (i < 2 || Ordinary(img))
    ensures Fits(img.loads[i].vaddr, img.loads[i].filesz, SlotsIn(img.slots, img.loads[i]))
  {
    if i < 2 {
      NoSlotsBefore(img, i);
    } else {
      var p := img.loads[i];
      var slots := SlotsIn(img.slots, p);
      assert img.loads[2].vaddr + img.loads[2].memsz <= img.loads[3].vaddr;
      forall k | 0 <= k < |slots| ensures p.vaddr <= slots[k].at && slots[k].at + 8 <= End(p) {
        SlotsInAre(img.slots, p, k);
        var s := slots[k];
        var j :| 0 <= j < |img.slots| && img.slots[j] == s;
        assert Within(s, img.loads[2]) || Within(s, img.loads[3]);
      }
    }
  }

  /** The pieces write_asm put in section i. */
  lemma SectionIs(img: Image, asm: Asm, i: nat)
    requires Accepted(img) && WriteAsm(img) == Some(asm) && i < 4
    ensures var p := img.loads[i];
      && Placed(img.loads, p.vaddr, p.filesz, SlotsIn(img.slots, p))
      && var body := Emit(img.loads, SegData(img, i), p.vaddr, 0, SlotsIn(img.slots, p));
      && body.Some? && asm.sections[i] == body.value + Tail(img.loads, i)
  {
    SlotsInPlaced(img, i);
    assert i == 0 || i == 1 || i == 2 || i == 3;
  }

  lemma SectionTotal(img: Image, asm: Asm, i: nat)
    requires Accepted(img) && WriteAsm(img) == Some(asm) && i < 4
    ensures Total(asm.sections[i]) >= WantSize(img.loads, i)
    ensures Ordinary(img) || i < 2 ==> Total(asm.sections[i]) == WantSize(img.loads, i)
    ensures i == 2 && !Ordinary(img) ==> Total(asm.sections[i]) > WantSize(img.loads, i)
  {
    SectionIs(img, asm, i);
    var p, d := img.loads[i], SegData(img, i);
    var slots := SlotsIn(img.slots, p);
    var body := Emit(img.loads, d, p.vaddr, 0, slots).value;
    EmitTotal(img.loads, d, p.vaddr, 0, slots);
    TailTotal(img.loads, i);
    TotalConcat(body, Tail(img.loads, i));
    if Ordinary(img) || i < 2 { SlotsInFit(img, i); }
  }

  lemma NextStart(sections: seq<seq<Piece>>, i: nat, x: nat)
    requires 0 < i < |sections| && StartOf(sections, i - 1) + Total(sections[i - 1]) == x && x % PAGE == 0
    ensures StartOf(sections, i) == x
  {}

  lemma NextPage(v: nat)
    requires v % PAGE == 0
    ensures (v + DELTA) % PAGE == 0
  {}

  lemma StartPast(sections: seq<seq<Piece>>, i: nat, x: nat)
    requires 0 < i < |sections| && StartOf(sections, i - 1) + Total(sections[i - 1]) > x
    ensures StartOf(sections, i) > x
  {}

  /**
   * A section starts DELTA bytes after the address of its ELF segment, but for the
   * fourth if the third has extra file data: that one starts too high.
   */
  lemma {:induction false} SectionStart(img: Image, asm: Asm, i: nat)
    requires Accepted(img) && WriteAsm(img) == Some(asm) && i < 4
    ensures StartOf(asm.sections, i) == img.loads[i].vaddr + DELTA <==> Ordinary(img) || i < 3
    ensures StartOf(asm.sections, i) >= img.loads[i].vaddr + DELTA
  {
    if i > 0 {
      var x := img.loads[i].vaddr + DELTA;
      SectionStart(img, asm, i - 1);
      SectionTotal(img, asm, i - 1);
      if Ordinary(img) || i < 3 {
        NextPage(img.loads[i].vaddr);
        NextStart(asm.sections, i, x);
      } else {
        StartPast(asm.sections, i, x);
      }
    }
  }

  /** Labels that resolve right: all of them, or those in the first three segments. */
  predicate Exact(img: Image, l: Label)
    requires Accepted(img)
  {
    Ordinary(img) || (l.InSeg? && l.i < 3)
  }

  lemma {:induction false} LabelFromResolves(img: Image, asm: Asm, addr: int, i: nat)
    requires Accepted(img) && WriteAsm(img) == Some(asm)
    requires i <= 4 && LabelFrom(img.loads, addr, i).Some?
    ensures var l := LabelFrom(img.loads, addr, i).value;
      (Resolve(asm, l) == addr + DELTA <==> Exact(img, l)) && Resolve(asm, l) >= addr + DELTA
    decreases 4 - i
  {
    var p := img.loads[i];
    if p.vaddr <= addr <= p.vaddr + p.memsz {
      SectionStart(img, asm, i);
      SectionTotal(img, asm, i);
    } else {
      LabelFromResolves(img, asm, addr, i + 1);
    }
  }

  /**
   * A label the generator writes resolves to its ELF address + DELTA if and only if the
   * third segment has no extra file data or the label is in one of the first three;
   * the others resolve too high.
   */
  lemma LabelResolves(img: Image, asm: Asm, addr: int)
    requires Accepted(img) && WriteAsm(img) == Some(asm) && LabelOf(img.loads, addr).Some?
    ensures var l := LabelOf(img.loads, addr).value;
      (Resolve(asm, l) == addr + DELTA <==> Exact(img, l)) && Resolve(asm, l) >= addr + DELTA
  {
    LabelFromResolves(img, asm, addr, 0);
  }

  // ---- Bytes -----------------------------------------------------------------------------------

  lemma {:induction false} PatchAppend(d: seq<byte>, z: seq<byte>, base: nat, slots: seq<Slot>)
    requires Patch(d, base, slots).Some?
    ensures Patch(d + z, base, slots) == Some(Patch(d, base, slots).value + z)
    decreases |slots|
  {
    if slots != [] {
      var off, v := slots[0].at - base, slots[0].addend + DELTA;
      PatchAppend(PackInto(d, off, v), z, base, slots[1..]);
      assert PackInto(d + z, off, v) == PackInto(d, off, v) + z;
    }
  }

  lemma {:induction false} SpacesAreZeros(asm: Asm, ps: seq<Piece>)
    requires |asm.sections| == 4 && forall k | 0 <= k < |ps| :: ps[k].Space?
    ensures Content(asm, ps) == Zeros(Total(ps))
  {
    if ps != [] {
      SpacesAreZeros(asm, ps[1..]);
      assert Zeros(ps[0].n) + Zeros(Total(ps[1..])) == Zeros(Total(ps));
    }
  }

  lemma TailZeros(asm: Asm, loads: seq<Load>, i: nat)
    requires |asm.sections| == 4
    requires |loads| == 4 && i < 4 && (i < 3 ==> loads[i].vaddr + loads[i].memsz <= loads[i + 1].vaddr)
    ensures Content(asm, Tail(loads, i)) == Zeros(Total(Tail(loads, i)))
  {
    var ps := Tail(loads, i);
    assert forall k | 0 <= k < |ps| :: ps[k].Space?;
    SpacesAreZeros(asm, ps);
  }

  /** Slots whose targets have labels that resolve right. */
  predicate ExactSlots(img: Image, slots: seq<Slot>)
    requires Accepted(img)
  {
    forall k | 0 <= k < |slots| ::
      LabelOf(img.loads, slots[k].addend).Some? && Exact(img, LabelOf(img.loads, slots[k].addend).value)
  }

  lemma SlotsResolve(img: Image, asm: Asm, slots: seq<Slot>)
    requires Accepted(img) && WriteAsm(img) == Some(asm) && ExactSlots(img, slots)
    ensures Resolves(asm, img.loads, slots)
  {
    forall k | 0 <= k < |slots|
      ensures Resolve(asm, LabelOf(img.loads, slots[k].addend).value) == slots[k].addend + DELTA
    {
      LabelResolves(img, asm, slots[k].addend);
    }
  }

  /** The file data of section i, patched. */
  lemma BodyBytes(img: Image, asm: Asm, i: nat, d: seq<byte>, slots: seq<Slot>, body: seq<Piece>)
    requires Accepted(img) && WriteAsm(img) == Some(asm) && i < 4
    requires Fits(img.loads[i].vaddr, |d|, slots) && ExactSlots(img, slots)
    requires d == SegData(img, i) && slots == SlotsIn(img.slots, img.loads[i])
    requires Placed(img.loads, img.loads[i].vaddr, |d|, slots)
    requires Emit(img.loads, d, img.loads[i].vaddr, 0, slots) == Some(body)
    ensures Patch(d, img.loads[i].vaddr, slots) == Some(Content(asm, body))
  {
    SlotsResolve(img, asm, slots);
    EmitPatches(asm, img.loads, d, img.loads[i].vaddr, 0, slots);
    var w := Patch(d, img.loads[i].vaddr, slots).value;
    assert w[0..] == w;
  }

  lemma WantIs(img: Image, i: nat, d: seq<byte>, n: nat)
    requires Accepted(img) && i < 4 && d == SegData(img, i) && img.loads[i].filesz + n == WantSize(img.loads, i)
    ensures Want(img, i) == Patch(d + Zeros(n), img.loads[i].vaddr, SlotsIn(img.slots, img.loads[i]))
  {}

  lemma WantLength(img: Image, i: nat)
    requires Accepted(img) && i < 4
    ensures Want(img, i).Some? ==> |Want(img, i).value| == WantSize(img.loads, i)
  {}

  /** Section i holds what the checker wants if it has the right size and its slots are whole and resolve right. */
  lemma SectionBytesIf(img: Image, asm: Asm, i: nat, slots: seq<Slot>)
    requires Accepted(img) && WriteAsm(img) == Some(asm) && i < 4 && slots == SlotsIn(img.slots, img.loads[i])
    requires Fits(img.loads[i].vaddr, img.loads[i].filesz, slots) && ExactSlots(img, slots)
    requires img.loads[i].filesz + Total(Tail(img.loads, i)) == WantSize(img.loads, i)
    ensures Want(img, i) == Some(Content(asm, asm.sections[i]))
  {
    SectionIs(img, asm, i);
    var base, d, tail := img.loads[i].vaddr, SegData(img, i), Tail(img.loads, i);
    var body := Emit(img.loads, d, base, 0, slots).value;
    BodyBytes(img, asm, i, d, slots, body);
    ContentConcat(asm, body, tail);
    TailZeros(asm, img.loads, i);
    var n := Total(tail);
    PatchAppend(d, Zeros(n), base, slots);
    WantIs(img, i, d, n);
  }

  // ---- Bytes that agree only if every label does --------------------------------------------------

  lemma {:induction false} PatchFits(d: seq<byte>, base: nat, slots: seq<Slot>)
    requires Patch(d, base, slots).Some?
    ensures Fits(base, |d|, slots) && forall k | 0 <= k < |slots| :: slots[k].addend + DELTA >= 0
    decreases |slots|
  {
    if slots != [] { PatchFits(PackInto(d, slots[0].at - base, slots[0].addend + DELTA), base, slots[1..]); }
  }

  function Bytes256(n: nat): nat { if n == 0 then 1 else 256 * Bytes256(n - 1) }

  /** Values closer than 256^n with the same n bytes are the same. */
  lemma {:induction false} LittleEndianEqual(v: nat, w: nat, n: nat)
    requires LittleEndian(v, n) == LittleEndian(w, n) && v <= w < v + Bytes256(n)
    ensures v == w
    decreases n
  {
    if n > 0 {
      assert LittleEndian(v, n)[0] == LittleEndian(w, n)[0];
      assert LittleEndian(v, n)[1..] == LittleEndian(w, n)[1..];
      assert w / 256 < v / 256 + Bytes256(n - 1);
      LittleEndianEqual(v / 256, w / 256, n - 1);
    }
  }

  /** The eight bytes in the middle are the same if the whole is. */
  lemma MiddleEqual(a: seq<byte>, x: seq<byte>, y: seq<byte>, b: seq<byte>, c: seq<byte>)
    requires a + x + b == a + y + c && |x| == |y|
    ensures x == y && b == c
  {
    var n := |a| + |x|;
    assert x == (a + x + b)[|a|..n] && y == (a + y + c)[|a|..n];
    assert b == (a + x + b)[n..] && c == (a + y + c)[n..];
  }

  /** A label and the value the checker packs for it have the same eight bytes. */
  predicate SameBytes(asm: Asm, loads: seq<Load>, s: Slot)
    requires |asm.sections| == 4 && |loads| == 4
  {
    && LabelOf(loads, s.addend).Some? && s.addend + DELTA >= 0
    && LittleEndian(Resolve(asm, LabelOf(loads, s.addend).value), 8) == LittleEndian(s.addend + DELTA, 8)
  }

  /** The bytes of the pieces from pos on are the patched ones. */
  ghost predicate Agree(asm: Asm, loads: seq<Load>, d: seq<byte>, base: nat, pos: nat, slots: seq<Slot>) {
    && |asm.sections| == 4 && Placed(loads, base, |d|, slots) && pos <= |d|
    && Emit(loads, d, base, pos, slots).Some? && Patch(d, base, slots).Some?
    && Content(asm, Emit(loads, d, base, pos, slots).value) == Patch(d, base, slots).value[pos..]
  }

  /** Then so are those of the first slot, and those after it. */
  lemma FirstAgrees(asm: Asm, loads: seq<Load>, d: seq<byte>, base: nat, pos: nat, slots: seq<Slot>)
    returns (e: seq<byte>, next: nat)
    requires Agree(asm, loads, d, base, pos, slots) && slots != []
    ensures SameBytes(asm, loads, slots[0]) && Agree(asm, loads, e, base, next, slots[1..])
  {
    PatchFits(d, base, slots);
    var s, off := slots[0], slots[0].at - base;
    var v, l := s.addend + DELTA, LabelOf(loads, s.addend).value;
    e, next := PackInto(d, off, v), off + 8;
    assert e[next..] == d[next..];
    EmitStep(loads, d, base, pos, slots, off, next);
    PatchStep(d, base, slots, off, v);
    EmitPatchedRest(loads, d, e, base, next, slots[1..]);
    var w, rest := Patch(e, base, slots[1..]).value, Emit(loads, d, base, next, slots[1..]).value;
    PatchedFrom(d, off, next, v, pos, w);
    EmitStepBytes(asm, d, pos, off, l, rest);
    MiddleEqual(d[pos..off], LittleEndian(Resolve(asm, l), 8), LittleEndian(v, 8), Content(asm, rest), w[next..]);
  }

  lemma {:induction false} AllAgree(asm: Asm, loads: seq<Load>, d: seq<byte>, base: nat, pos: nat, slots: seq<Slot>, k: nat)
    requires Agree(asm, loads, d, base, pos, slots) && k < |slots|
    ensures SameBytes(asm, loads, slots[k])
    decreases k
  {
    var e, next := FirstAgrees(asm, loads, d, base, pos, slots);
    if k > 0 {
      AllAgree(asm, loads, e, base, next, slots[1..], k - 1);
      assert slots[1..][k - 1] == slots[k];
    }
  }

  /** A last slot may overrun file data by less than eight bytes. */
  lemma {:induction false} EmitTotalAtMost(loads: seq<Load>, d: seq<byte>, base: nat, pos: nat, slots: seq<Slot>)
    requires Placed(loads, base, |d|, slots) && Emit(loads, d, base, pos, slots).Some? && pos <= |d| + 8
    ensures pos + Total(Emit(loads, d, base, pos, slots).value) <= |d| + 8
    decreases |slots|
  {
    if slots == [] {
      if |d| > pos { OneTotal(Incbin(d[pos..])); }
    } else {
      var off := slots[0].at - base;
      var next := off + 8;
      EmitStep(loads, d, base, pos, slots, off, next);
      var pre := if off > pos then [Incbin(d[pos..off])] else [];
      var q := Quad(LabelOf(loads, slots[0].addend).value);
      TotalConcat(pre + [q], Emit(loads, d, base, next, slots[1..]).value);
      TotalConcat(pre, [q]);
      OneTotal(q);
      if off > pos { OneTotal(Incbin(d[pos..off])); }
      EmitTotalAtMost(loads, d, base, next, slots[1..]);
    }
  }

  /** File sizes are signed 64-bit numbers. */
  const FILE_MAX: nat := 0x7FFF_FFFF_FFFF_FFFF

  lemma GapTotal(loads: seq<Load>)
    requires |loads| == 4 && loads[2].vaddr + loads[2].memsz <= loads[3].vaddr && loads[2].filesz > loads[2].memsz
    ensures Total(Tail(loads, 2)) == loads[3].vaddr - (loads[2].vaddr + loads[2].memsz)
  {
    var tail := Tail(loads, 2);
    if tail != [] { OneTotal(tail[0]); }
  }

  lemma Bytes256Is()
    ensures Bytes256(8) == 0x1_0000_0000_0000_0000
  {
    assert Bytes256(4) == 0x1_0000_0000;
  }

  /** With extra file data the fourth section starts too high, but by less than 2^64. */
  lemma StartAtMost(img: Image, asm: Asm)
    requires Accepted(img) && WriteAsm(img) == Some(asm) && !Ordinary(img) && |img.data| <= FILE_MAX
    ensures StartOf(asm.sections, 3) < img.loads[3].vaddr + DELTA + Bytes256(8)
  {
    var p := img.loads[2];
    var slots, tail := SlotsIn(img.slots, p), Tail(img.loads, 2);
    assert p.vaddr + p.memsz <= img.loads[2 + 1].vaddr;
    SectionIs(img, asm, 2);
    var body := Emit(img.loads, SegData(img, 2), p.vaddr, 0, slots).value;
    EmitTotalAtMost(img.loads, SegData(img, 2), p.vaddr, 0, slots);
    TotalConcat(body, tail);
    GapTotal(img.loads);
    SectionStart(img, asm, 2);
    Bytes256Is();
  }

  lemma {:induction false} LastLabel(loads: seq<Load>, addr: int, i: nat)
    requires |loads| == 4 && i <= 4 && LabelFrom(loads, addr, i).Some?
    ensures match LabelFrom(loads, addr, i).value
      case InSeg(j, off) => j < 4 && off == addr - loads[j].vaddr
      case InBss(off) => off == addr - End(loads[3])
    decreases 4 - i
  {
    var p := loads[i];
    if !(p.vaddr <= addr <= p.vaddr + p.memsz) { LastLabel(loads, addr, i + 1); }
  }

  /** A label that is wrong is wrong in its eight bytes. */
  lemma WrongBytes(img: Image, asm: Asm, s: Slot)
    requires Accepted(img) && WriteAsm(img) == Some(asm) && |img.data| <= FILE_MAX && !Ordinary(img)
    requires SameBytes(asm, img.loads, s) && Total(asm.sections[3]) == img.loads[3].filesz
    ensures Exact(img, LabelOf(img.loads, s.addend).value)
  {
    var l := LabelOf(img.loads, s.addend).value;
    LabelResolves(img, asm, s.addend);
    if !Exact(img, l) {
      StartAtMost(img, asm);
      LastLabel(img.loads, s.addend, 0);
      LittleEndianEqual(s.addend + DELTA, Resolve(asm, l), 8);
    }
  }

  /** The fourth section of an image with extra file data, if its bytes agree. */
  lemma FourthAgrees(img: Image, asm: Asm, slots: seq<Slot>)
    requires Accepted(img) && WriteAsm(img) == Some(asm) && !Ordinary(img) && |img.data| <= FILE_MAX
    requires slots == SlotsIn(img.slots, img.loads[3]) && Want(img, 3) == Some(Content(asm, asm.sections[3]))
    ensures Fits(img.loads[3].vaddr, img.loads[3].filesz, slots) && ExactSlots(img, slots)
  {
    var base, d := img.loads[3].vaddr, SegData(img, 3);
    SectionIs(img, asm, 3);
    var body := Emit(img.loads, d, base, 0, slots).value;
    assert body + [] == body && d + Zeros(0) == d;
    PatchFits(d, base, slots);
    EmitTotal(img.loads, d, base, 0, slots);
    assert Patch(d, base, slots).value[0..] == Patch(d, base, slots).value;
    forall k | 0 <= k < |slots| ensures Exact(img, LabelOf(img.loads, slots[k].addend).value) {
      AllAgree(asm, img.loads, d, base, 0, slots, k);
      WrongBytes(img, asm, slots[k]);
    }
  }

  /**
   * A section holds exactly the bytes the checker wants if the third segment has no extra
   * file data. With extra file data the first two still do, the third does not, and the
   * fourth does if and only if its slots are whole and point into the first three.
   */
  lemma SectionBytes(img: Image, asm: Asm, i: nat)
    requires Accepted(img) && WriteAsm(img) == Some(asm) && i < 4
    ensures i < 3 ==> (Want(img, i) == Some(Content(asm, asm.sections[i])) <==> Ordinary(img) || i < 2)
    ensures i == 3 && |img.data| <= FILE_MAX ==>
      var slots := SlotsIn(img.slots, img.loads[i]);
      (Want(img, i) == Some(Content(asm, asm.sections[i]))
       <==> Ordinary(img) || (Fits(img.loads[i].vaddr, img.loads[i].filesz, slots) && ExactSlots(img, slots)))
    ensures Ordinary(img) ==> Want(img, i) == Some(Content(asm, asm.sections[i]))
  {
    var slots := SlotsIn(img.slots, img.loads[i]);
    SlotsInPlaced(img, i);
    TailTotal(img.loads, i);
    if Ordinary(img) || i < 2 {
      SlotsInFit(img, i);
      if i < 2 { NoSlotsBefore(img, i); }
      SectionBytesIf(img, asm, i, slots);
    } else if i == 2 {
      SectionTotal(img, asm, i);
      WantLength(img, i);
    } else if Fits(img.loads[i].vaddr, img.loads[i].filesz, slots) && ExactSlots(img, slots) {
      SectionBytesIf(img, asm, i, slots);
    } else if |img.data| <= FILE_MAX && Want(img, i) == Some(Content(asm, asm.sections[i])) {
      FourthAgrees(img, asm, slots);
    }
  }

  // ---- Rebases ---------------------------------------------------------------------------------

  lemma {:induction false} RebasesConcat(a: seq<Piece>, b: seq<Piece>, addr: nat)
    ensures Rebases(a + b, addr) == Rebases(a, addr) + Rebases(b, addr + Total(a))
  {
    if a == [] {
      assert a + b == b;
    } else {
      var next := addr + PieceSize(a[0]);
      assert (a + b)[1..] == a[1..] + b;
      RebasesConcat(a[1..], b, next);
      assert next + Total(a[1..]) == addr + Total(a);
    }
  }

  lemma {:induction false} NoRebases(ps: seq<Piece>, addr: nat)
    requires forall k | 0 <= k < |ps| :: !ps[k].Quad?
    ensures Rebases(ps, addr) == []
  {
    if ps != [] { NoRebases(ps[1..], addr + PieceSize(ps[0])); }
  }

  lemma OneRebase(x: Piece, addr: nat)
    ensures Rebases([x], addr) == if x.Quad? then [addr] else []
  {
    assert Rebases([x], addr) == (if x.Quad? then [addr] else []) + Rebases([], addr + PieceSize(x));
  }

  /** The rebases of file data from a slot on: the slot is `at`, the next byte `after`. */
  lemma EmitStepRebases(d: seq<byte>, pos: nat, off: nat, l: Label, rest: seq<Piece>, addr: nat, at: nat, after: nat)
    requires pos <= off <= |d| && at == addr + (off - pos) && after == at + 8
    ensures Rebases((if off > pos then [Incbin(d[pos..off])] else []) + [Quad(l)] + rest, addr) == [at] + Rebases(rest, after)
  {
    var pre := if off > pos then [Incbin(d[pos..off])] else [];
    RebasesConcat(pre + [Quad(l)], rest, addr);
    RebasesConcat(pre, [Quad(l)], addr);
    TotalConcat(pre, [Quad(l)]);
    OneTotal(Quad(l));
    OneRebase(Quad(l), at);
    if off > pos {
      OneTotal(pre[0]);
      OneRebase(pre[0], addr);
    }
    assert addr + Total(pre) == at && addr + Total(pre + [Quad(l)]) == after;
  }

  lemma WantRebasesStep(slots: seq<Slot>)
    requires slots != []
    ensures WantRebases(slots) == [slots[0].at + DELTA] + WantRebases(slots[1..])
  {}

  /** The rebases of emitted file data are its slots. */
  lemma {:induction false} EmitRebases(loads: seq<Load>, d: seq<byte>, base: nat, pos: nat, slots: seq<Slot>, addr: nat)
    requires Placed(loads, base, |d|, slots) && Emit(loads, d, base, pos, slots).Some? && addr == base + DELTA + pos
    ensures Rebases(Emit(loads, d, base, pos, slots).value, addr) == WantRebases(slots)
    decreases |slots|
  {
    if slots == [] {
      NoRebases(Emit(loads, d, base, pos, slots).value, addr);
    } else {
      var off := slots[0].at - base;
      var next, at := off + 8, slots[0].at + DELTA;
      var after := at + 8;
      var l := LabelOf(loads, slots[0].addend).value;
      EmitStep(loads, d, base, pos, slots, off, next);
      var rest := Emit(loads, d, base, next, slots[1..]).value;
      EmitRebases(loads, d, base, next, slots[1..], after);
      EmitStepRebases(d, pos, off, l, rest, addr, at, after);
      WantRebasesStep(slots);
    }
  }

  lemma SectionRebasesAt(loads: seq<Load>, d: seq<byte>, base: nat, slots: seq<Slot>, body: seq<Piece>, tail: seq<Piece>, start: nat)
    requires Placed(loads, base, |d|, slots) && Emit(loads, d, base, 0, slots) == Some(body) && start == base + DELTA
    requires forall k | 0 <= k < |tail| :: !tail[k].Quad?
    ensures Rebases(body + tail, start) == WantRebases(slots)
  {
    EmitRebases(loads, d, base, 0, slots, start);
    RebasesConcat(body, tail, start);
    NoRebases(tail, start + Total(body));
  }

  lemma SectionParts(img: Image, asm: Asm, i: nat, slots: seq<Slot>) returns (d: seq<byte>, body: seq<Piece>, tail: seq<Piece>)
    requires Accepted(img) && WriteAsm(img) == Some(asm) && i < 4 && slots == SlotsIn(img.slots, img.loads[i])
    ensures Placed(img.loads, img.loads[i].vaddr, |d|, slots)
    ensures Emit(img.loads, d, img.loads[i].vaddr, 0, slots) == Some(body) && asm.sections[i] == body + tail
    ensures forall k | 0 <= k < |tail| :: !tail[k].Quad?
  {
    SectionIs(img, asm, i);
    d, tail := SegData(img, i), Tail(img.loads, i);
    body := Emit(img.loads, d, img.loads[i].vaddr, 0, slots).value;
  }

  /** The rebases of section i, were it to start where its segment belongs. */
  lemma SectionRebases(img: Image, asm: Asm, i: nat)
    requires Accepted(img) && WriteAsm(img) == Some(asm) && i < 4
    ensures Rebases(asm.sections[i], img.loads[i].vaddr + DELTA) == WantRebases(SlotsIn(img.slots, img.loads[i]))
  {
    var base, slots := img.loads[i].vaddr, SlotsIn(img.slots, img.loads[i]);
    var d, body, tail := SectionParts(img, asm, i, slots);
    SectionRebasesAt(img.loads, d, base, slots, body, tail, base + DELTA);
  }

  /** A section placed elsewhere has its rebases elsewhere by as much. */
  lemma {:induction false} RebasesMove(ps: seq<Piece>, addr: nat, to: nat)
    ensures |Rebases(ps, to)| == |Rebases(ps, addr)|
    ensures forall k | 0 <= k < |Rebases(ps, addr)| :: Rebases(ps, to)[k] - to == Rebases(ps, addr)[k] - addr
  {
    if ps != [] { RebasesMove(ps[1..], addr + PieceSize(ps[0]), to + PieceSize(ps[0])); }
  }

  lemma {:induction false} LastIn(slots: seq<Slot>, p: Load)
    requires slots != [] && In(slots[|slots| - 1], p)
    ensures var some := SlotsIn(slots, p); some != [] && some[|some| - 1] == slots[|slots| - 1]
  {
    if |slots| > 1 { LastIn(slots[1..], p); }
  }

  lemma {:induction false} AllIn(slots: seq<Slot>, p: Load)
    requires forall k | 0 <= k < |slots| :: In(slots[k], p)
    ensures SlotsIn(slots, p) == slots
  {
    if slots != [] { AllIn(slots[1..], p); }
  }

  lemma {:induction false} NoneIn(slots: seq<Slot>, p: Load, k: nat)
    requires SlotsIn(slots, p) == [] && k < |slots|
    ensures !In(slots[k], p)
  {
    if k > 0 { NoneIn(slots[1..], p, k - 1); }
  }

  /** Slots in order, each in one of two segments in order, are the slots of one and then of the other. */
  lemma {:induction false} SlotsSplit(slots: seq<Slot>, p: Load, q: Load)
    requires End(p) <= q.vaddr && forall k | 0 <= k < |slots| :: Within(slots[k], p) || Within(slots[k], q)
    requires forall j, k | 0 <= j < k < |slots| :: slots[j].at < slots[k].at
    ensures slots == SlotsIn(slots, p) + SlotsIn(slots, q)
  {
    if slots != [] {
      SlotsSplit(slots[1..], p, q);
      if !Within(slots[0], p) { NoneBelow(slots, p); }
    }
  }

  // ---- The whole output -------------------------------------------------------------------------

  lemma WantRebasesConcat(a: seq<Slot>, b: seq<Slot>)
    ensures WantRebases(a + b) == WantRebases(a) + WantRebases(b)
  {}

  lemma SlotsBySegment(img: Image)
    requires Accepted(img) && Ordinary(img)
    ensures SlotsIn(img.slots, img.loads[0]) == [] == SlotsIn(img.slots, img.loads[1])
    ensures img.slots == SlotsIn(img.slots, img.loads[2]) + SlotsIn(img.slots, img.loads[3])
  {
    NoSlotsBefore(img, 0);
    NoSlotsBefore(img, 1);
    assert img.loads[2].vaddr + img.loads[2].memsz <= img.loads[2 + 1].vaddr;
    SlotsSplit(img.slots, img.loads[2], img.loads[3]);
  }

  lemma Four(r0: seq<nat>, r1: seq<nat>, r2: seq<nat>, r3: seq<nat>)
    requires r0 == [] == r1
    ensures r0 + r1 + (r2 + r3) == r2 + r3
  {}

  lemma SectionRebasesHere(img: Image, asm: Asm, i: nat)
    requires Accepted(img) && WriteAsm(img) == Some(asm) && i < 4 && (Ordinary(img) || i < 3)
    ensures Rebases(asm.sections[i], StartOf(asm.sections, i)) == WantRebases(SlotsIn(img.slots, img.loads[i]))
  {
    SectionStart(img, asm, i);
    SectionRebases(img, asm, i);
  }

  /** The rebases are those of the third section and those of the fourth, wherever it starts. */
  lemma RebasesBySection(img: Image, asm: Asm)
    requires Accepted(img) && WriteAsm(img) == Some(asm)
    ensures AllRebases(asm.sections)
         == WantRebases(SlotsIn(img.slots, img.loads[2])) + Rebases(asm.sections[3], StartOf(asm.sections, 3))
  {
    var ss := asm.sections;
    var r0, r1, r2 := Rebases(ss[0], StartOf(ss, 0)), Rebases(ss[1], StartOf(ss, 1)), Rebases(ss[2], StartOf(ss, 2));
    assert r0 == [] by {
      SectionRebasesHere(img, asm, 0);
      NoSlotsBefore(img, 0);
    }
    assert r1 == [] by {
      SectionRebasesHere(img, asm, 1);
      NoSlotsBefore(img, 1);
    }
    assert r2 == WantRebases(SlotsIn(img.slots, img.loads[2])) by { SectionRebasesHere(img, asm, 2); }
    Four(r0, r1, r2, Rebases(ss[3], StartOf(ss, 3)));
  }

  lemma RebasesOrdinary(img: Image, asm: Asm)
    requires Accepted(img) && WriteAsm(img) == Some(asm) && Ordinary(img)
    ensures AllRebases(asm.sections) == WantRebases(img.slots)
  {
    var a, b := SlotsIn(img.slots, img.loads[2]), SlotsIn(img.slots, img.loads[3]);
    RebasesBySection(img, asm);
    assert Rebases(asm.sections[3], StartOf(asm.sections, 3)) == WantRebases(b) by { SectionRebasesHere(img, asm, 3); }
    assert img.slots == a + b by { SlotsBySegment(img); }
    WantRebasesConcat(a, b);
  }

  /** The fourth section has as many rebases as its segment has slots. */
  lemma LastRebases(img: Image, asm: Asm)
    requires Accepted(img) && WriteAsm(img) == Some(asm)
    ensures var q, r := img.loads[3], Rebases(asm.sections[3], StartOf(asm.sections, 3));
      && |r| == |SlotsIn(img.slots, q)|
      && forall k | 0 <= k < |r| :: r[k] == SlotsIn(img.slots, q)[k].at + (StartOf(asm.sections, 3) - q.vaddr)
  {
    SectionRebases(img, asm, 3);
    RebasesMove(asm.sections[3], img.loads[3].vaddr + DELTA, StartOf(asm.sections, 3));
  }

  lemma RebasesOfThird(img: Image, asm: Asm)
    requires Accepted(img) && WriteAsm(img) == Some(asm) && SlotsIn(img.slots, img.loads[3]) == []
    ensures AllRebases(asm.sections) == WantRebases(img.slots)
  {
    RebasesBySection(img, asm);
    LastRebases(img, asm);
    forall k | 0 <= k < |img.slots| ensures In(img.slots[k], img.loads[2]) { NoneIn(img.slots, img.loads[3], k); }
    AllIn(img.slots, img.loads[2]);
  }

  lemma NotWanted(slots: seq<Slot>, x: nat)
    requires Ascending(slots) && slots != [] && x > slots[|slots| - 1].at + DELTA
    ensures x !in WantRebases(slots)
  {
    forall k | 0 <= k < |slots| ensures WantRebases(slots)[k] < x {
      assert k < |slots| - 1 ==> slots[k].at < slots[|slots| - 1].at;
    }
  }

  /** A slot of the fourth segment that is also the last: its rebase lies past all that are wanted. */
  lemma RebasesPast(img: Image, asm: Asm, z: Slot) returns (x: nat)
    requires Accepted(img) && WriteAsm(img) == Some(asm) && !Ordinary(img)
    requires img.slots != [] && z == img.slots[|img.slots| - 1] && In(z, img.loads[3])
    ensures x in AllRebases(asm.sections) && x !in WantRebases(img.slots)
  {
    var r, start := Rebases(asm.sections[3], StartOf(asm.sections, 3)), StartOf(asm.sections, 3);
    assert r != [] && r[|r| - 1] == z.at + (start - img.loads[3].vaddr) by {
      LastIn(img.slots, img.loads[3]);
      LastRebases(img, asm);
    }
    assert start > img.loads[3].vaddr + DELTA by { SectionStart(img, asm, 3); }
    x := r[|r| - 1];
    RebasesBySection(img, asm);
    NotWanted(img.slots, x);
  }

  /** If it is not the last, the slots of the fourth segment are slots of the third as well. */
  lemma SlotsTwice(img: Image)
    requires Accepted(img) && SlotsIn(img.slots, img.loads[3]) != []
    requires !In(img.slots[|img.slots| - 1], img.loads[3])
    ensures SlotsIn(img.slots, img.loads[2]) == img.slots
  {
    var p, q, z := img.loads[2], img.loads[3], img.slots[|img.slots| - 1];
    assert p.vaddr + p.memsz <= img.loads[2 + 1].vaddr;
    SlotsInAre(img.slots, q, 0);
    var y := SlotsIn(img.slots, q)[0];
    assert q.vaddr <= y.at <= z.at;
    assert Within(z, p);
    forall k | 0 <= k < |img.slots| ensures In(img.slots[k], p) { assert img.slots[k].at <= z.at; }
    AllIn(img.slots, p);
  }

  lemma RebasesTooMany(img: Image, asm: Asm)
    requires Accepted(img) && WriteAsm(img) == Some(asm) && SlotsIn(img.slots, img.loads[3]) != []
    requires !In(img.slots[|img.slots| - 1], img.loads[3])
    ensures |AllRebases(asm.sections)| > |WantRebases(img.slots)|
  {
    SlotsTwice(img);
    RebasesBySection(img, asm);
    LastRebases(img, asm);
  }

  lemma SameMultiset(a: seq<nat>, b: seq<nat>)
    requires multiset(a) == multiset(b)
    ensures |a| == |b| && forall x | x in a :: x in b
  {
    assert |a| == |multiset(a)| == |multiset(b)| == |b|;
    forall x | x in a ensures x in b { assert x in multiset(a); }
  }

  /**
   * The rebases of the whole output are the slots if and only if the third segment has
   * no extra file data or the fourth has no slot, and then in order.
   */
  lemma RebasesAreSlots(img: Image, asm: Asm)
    requires Accepted(img) && WriteAsm(img) == Some(asm)
    ensures var all, wanted, right := AllRebases(asm.sections), WantRebases(img.slots),
                                      Ordinary(img) || SlotsIn(img.slots, img.loads[3]) == [];
      (right ==> all == wanted) && (multiset(all) == multiset(wanted) <==> right)
  {
    var all, wanted := AllRebases(asm.sections), WantRebases(img.slots);
    if Ordinary(img) {
      RebasesOrdinary(img, asm);
    } else if SlotsIn(img.slots, img.loads[3]) == [] {
      RebasesOfThird(img, asm);
    } else {
      if multiset(all) == multiset(wanted) { SameMultiset(all, wanted); }
      if In(img.slots[|img.slots| - 1], img.loads[3]) {
        var x := RebasesPast(img, asm, img.slots[|img.slots| - 1]);
      } else {
        RebasesTooMany(img, asm);
      }
    }
  }

  lemma SectionsPass(img: Image, asm: Asm, i: nat)
    requires Accepted(img) && WriteAsm(img) == Some(asm) && Ordinary(img) && i < 4
    ensures SectionPasses(img, i, Link(asm).sections[i])
  {
    SectionStart(img, asm, i);
    SectionTotal(img, asm, i);
    SectionBytes(img, asm, i);
  }

  lemma BssStarts(asm: Asm, base: nat, n: nat)
    requires |asm.sections| == 4 && StartOf(asm.sections, 3) == base + DELTA && Total(asm.sections[3]) == n
    ensures PlaceBss(asm) == if asm.bss.Some? then Some(Bss(base + n + DELTA, asm.bss.value)) else None
  {}

  lemma BssSize(img: Image, asm: Asm)
    requires Accepted(img) && WriteAsm(img) == Some(asm) && HasBss(img.loads)
    ensures asm.bss == Some(img.loads[3].memsz - img.loads[3].filesz)
  {}

  lemma BssPasses(img: Image, asm: Asm, p: Load)
    requires Accepted(img) && WriteAsm(img) == Some(asm) && Ordinary(img) && HasBss(img.loads) && p == img.loads[3]
    ensures PlaceBss(asm) == Some(Bss(End(p) + DELTA, p.memsz - p.filesz))
  {
    SectionStart(img, asm, 3);
    SectionTotal(img, asm, 3);
    BssStarts(asm, p.vaddr, p.filesz);
    BssSize(img, asm);
  }

  lemma ExportsPass(img: Image, asm: Asm, r: seq<nat>)
    requires Accepted(img) && WriteAsm(img) == Some(asm) && Ordinary(img) && r == ResolveAll(asm, asm.exports)
    ensures |r| == |img.exports| && forall k | 0 <= k < |r| :: r[k] == img.exports[k] + DELTA
  {
    forall k | 0 <= k < |r| ensures r[k] == img.exports[k] + DELTA {
      LabelResolves(img, asm, img.exports[k]);
    }
  }

  /** What the checker looks at, one by one. */
  lemma PassesFrom(img: Image, asm: Asm, p: Load, r: seq<nat>)
    requires Accepted(img) && |asm.sections| == 4 && p == img.loads[3] && r == ResolveAll(asm, asm.exports)
    requires forall i | 0 <= i < 4 :: SectionPasses(img, i, Link(asm).sections[i])
    requires HasBss(img.loads) ==> PlaceBss(asm) == Some(Bss(End(p) + DELTA, p.memsz - p.filesz))
    requires AllRebases(asm.sections) == WantRebases(img.slots)
    requires |r| == |img.exports| && forall k | 0 <= k < |r| :: r[k] == img.exports[k] + DELTA
    ensures Passes(img, Link(asm))
  {}

  lemma OrdinaryPasses(img: Image, asm: Asm)
    requires Accepted(img) && WriteAsm(img) == Some(asm) && Ordinary(img)
    ensures Passes(img, Link(asm))
  {
    var p, r := img.loads[3], ResolveAll(asm, asm.exports);
    forall i | 0 <= i < 4 ensures SectionPasses(img, i, Link(asm).sections[i]) { SectionsPass(img, asm, i); }
    RebasesAreSlots(img, asm);
    ExportsPass(img, asm, r);
    if HasBss(img.loads) { BssPasses(img, asm, p); }
    PassesFrom(img, asm, p, r);
  }

  lemma ExtraFails(img: Image, asm: Asm)
    requires Accepted(img) && WriteAsm(img) == Some(asm) && !Ordinary(img)
    ensures !Passes(img, Link(asm))
  {
    SectionTotal(img, asm, 2);
    assert !SectionPasses(img, 2, Link(asm).sections[2]);
  }

  /**
   * For every accepted image that write_asm takes, the linked output passes the
   * check exactly if the third segment has no file data past its memory size.
   */
  lemma GeneratorAndCheckerAgree(img: Image, asm: Asm)
    requires Accepted(img) && WriteAsm(img) == Some(asm)
    ensures Passes(img, Link(asm)) <==> Ordinary(img)
  {
    if Ordinary(img) { OrdinaryPasses(img, asm); } else { ExtraFails(img, asm); }
  }

  // ---- When write_asm takes an image --------------------------------------------------------------

  /** No two slots share a byte. */
  predicate Spaced(slots: seq<Slot>) {
    forall k | 0 <= k < |slots| - 1 :: slots[k].at + 8 <= slots[k + 1].at
  }

  lemma SpacedCons(s: Slot, rest: seq<Slot>)
    requires Spaced(rest) && (rest != [] ==> s.at + 8 <= rest[0].at)
    ensures Spaced([s] + rest)
  {
    var all := [s] + rest;
    forall k | 0 <= k < |all| - 1 ensures all[k].at + 8 <= all[k + 1].at {
      if k > 0 { assert rest[k - 1].at + 8 <= rest[k - 1 + 1].at; }
    }
  }

  lemma SpacedTail(slots: seq<Slot>)
    requires Spaced(slots) && slots != []
    ensures Spaced(slots[1..])
  {
    forall k | 0 <= k < |slots[1..]| - 1 ensures slots[1..][k].at + 8 <= slots[1..][k + 1].at {
      assert slots[k + 1].at + 8 <= slots[k + 1 + 1].at;
    }
  }

  lemma {:induction false} EmitIff(loads: seq<Load>, d: seq<byte>, base: nat, pos: nat, slots: seq<Slot>)
    requires Placed(loads, base, |d|, slots)
    ensures Emit(loads, d, base, pos, slots).Some? <==> Spaced(slots) && (slots != [] ==> slots[0].at >= base + pos)
    decreases |slots|
  {
    if slots != [] {
      EmitIff(loads, d, base, slots[0].at - base + 8, slots[1..]);
      if Spaced(slots) {
        SpacedTail(slots);
        assert |slots| > 1 ==> slots[0].at + 8 <= slots[0 + 1].at;
      }
      if Spaced(slots[1..]) && (|slots| > 1 ==> slots[0].at + 8 <= slots[1].at) {
        SpacedCons(slots[0], slots[1..]);
        assert [slots[0]] + slots[1..] == slots;
      }
    }
  }

  lemma SectionWritten(img: Image, i: nat)
    requires Accepted(img) && i < 4
    ensures SectionPieces(img, i).Some? <==> Spaced(SlotsIn(img.slots, img.loads[i]))
  {
    SlotsInPlaced(img, i);
    EmitIff(img.loads, SegData(img, i), img.loads[i].vaddr, 0, SlotsIn(img.slots, img.loads[i]));
  }

  lemma {:induction false} SpacedIn(slots: seq<Slot>, p: Load)
    requires Ascending(slots) && Spaced(slots)
    ensures Spaced(SlotsIn(slots, p))
  {
    if slots != [] {
      var rest, some := slots[1..], SlotsIn(slots[1..], p);
      SpacedTail(slots);
      SpacedIn(rest, p);
      if some != [] {
        SlotsInAre(rest, p, 0);
        var j :| 0 <= j < |rest| && rest[j] == some[0];
        assert slots[0].at + 8 <= slots[0 + 1].at <= some[0].at;
        SpacedCons(slots[0], some);
      }
    }
  }

  /** Neighbours in one segment are neighbours among its slots. */
  lemma {:induction false} NeighboursSpaced(slots: seq<Slot>, p: Load, k: nat)
    requires k + 1 < |slots| && In(slots[k], p) && In(slots[k + 1], p) && Spaced(SlotsIn(slots, p))
    ensures slots[k].at + 8 <= slots[k + 1].at
  {
    if k == 0 {
      var some := SlotsIn(slots, p);
      assert SlotsIn(slots[1..], p) == [slots[1]] + SlotsIn(slots[1..][1..], p);
      assert some[0] == slots[0] && some[1] == slots[1];
      assert some[0].at + 8 <= some[0 + 1].at;
    } else {
      if In(slots[0], p) { SpacedTail(SlotsIn(slots, p)); }
      NeighboursSpaced(slots[1..], p, k - 1);
    }
  }

  /** Where each slot lies wholly in one of two segments in order, they overlap only within one. */
  lemma SpacedBySegment(slots: seq<Slot>, p: Load, q: Load)
    requires p.vaddr <= q.vaddr && Ascending(slots)
    requires forall k | 0 <= k < |slots| :: Within(slots[k], p) || Within(slots[k], q)
    ensures Spaced(slots) <==> Spaced(SlotsIn(slots, p)) && Spaced(SlotsIn(slots, q))
  {
    if Spaced(slots) {
      SpacedIn(slots, p);
      SpacedIn(slots, q);
    } else if Spaced(SlotsIn(slots, p)) && Spaced(SlotsIn(slots, q)) {
      forall k | 0 <= k < |slots| - 1 ensures slots[k].at + 8 <= slots[k + 1].at {
        if In(slots[k], p) && In(slots[k + 1], p) {
          NeighboursSpaced(slots, p, k);
        } else if In(slots[k], q) && In(slots[k + 1], q) {
          NeighboursSpaced(slots, q, k);
        }
      }
    }
  }

  /** write_asm takes an accepted image exactly if no slots overlap and every export has an address in it. */
  lemma WrittenIff(img: Image)
    requires Accepted(img)
    ensures WriteAsm(img).Some? <==> Spaced(img.slots) && ExportLabels(img.loads, img.exports).Some?
  {
    NoSlotsBefore(img, 0);
    NoSlotsBefore(img, 1);
    assert img.loads[2].vaddr + img.loads[2].memsz <= img.loads[2 + 1].vaddr;
    SpacedBySegment(img.slots, img.loads[2], img.loads[3]);
    SectionWritten(img, 0);
    SectionWritten(img, 1);
    SectionWritten(img, 2);
    SectionWritten(img, 3);
  }

  /** Accepted and written, but refused after linking. */
  predicate Refused(img: Image) {
    Accepted(img) && WriteAsm(img).Some? && !Passes(img, Link(WriteAsm(img).value))
  }

  /** Exactly the accepted images that are written and have extra file data in the third segment. */
  lemma RefusedIff(img: Image)
    requires Accepted(img)
    ensures Refused(img) <==> !Ordinary(img) && Spaced(img.slots) && ExportLabels(img.loads, img.exports).Some?
  {
    WrittenIff(img);
    if WriteAsm(img).Some? { GeneratorAndCheckerAgree(img, WriteAsm(img).value); }
  }

  lemma FourPages(data: seq<byte>, a: Load, b: Load, c: Load, e: Load)
    requires a == Load(0, 1, 1) && b == Load(0x4000, 1, 1) && c.vaddr == 0x8000 && e == Load(0xC000, 0, 0)
    requires |data| == 0xC000 && c.filesz <= 0x4000 && c.memsz <= 0x4000
    ensures GoodLoads(data, [a, b, c, e])
  {}

  /** There are such images: one byte of file data in a third segment of memory size 0. */
  lemma ExtraFileDataIsRefused(data: seq<byte>) returns (img: Image)
    requires |data| == 0xC000
    ensures img.data == data && Refused(img)
  {
    var a, b, c, e := Load(0, 1, 1), Load(0x4000, 1, 1), Load(0x8000, 1, 0), Load(0xC000, 0, 0);
    FourPages(data, a, b, c, e);
    img := Image(data, [a, b, c, e], [], []);
    RefusedIff(img);
  }

  /** In such an image the start of the fourth segment, exported, resolves too high. */
  lemma LabelResolvesWrong(data: seq<byte>) returns (img: Image, asm: Asm)
    requires |data| == 0xC000
    ensures Accepted(img) && WriteAsm(img) == Some(asm) && img.exports == [0xC000]
    ensures LabelOf(img.loads, 0xC000) == Some(InSeg(3, 0)) && Resolve(asm, InSeg(3, 0)) > 0xC000 + DELTA
  {
    var a, b, c, e := Load(0, 1, 1), Load(0x4000, 1, 1), Load(0x8000, 1, 0), Load(0xC000, 0, 0);
    FourPages(data, a, b, c, e);
    img := Image(data, [a, b, c, e], [], [0xC000]);
    assert LabelFrom(img.loads, 0xC000, 3) == Some(InSeg(3, 0));
    assert LabelFrom(img.loads, 0xC000, 2) == LabelFrom(img.loads, 0xC000, 3);
    assert LabelFrom(img.loads, 0xC000, 1) == LabelFrom(img.loads, 0xC000, 2);
    WrittenIff(img);
    asm := WriteAsm(img).value;
    LabelResolves(img, asm, 0xC000);
  }

  lemma OneSlotConverts(img: Image)
    requires GoodLoads(img.data, img.loads) && |img.slots| == 1 && Within(img.slots[0], img.loads[2])
    requires LabelOf(img.loads, img.slots[0].addend).Some? && img.exports == [img.slots[0].addend]
    requires img.loads[2].filesz <= img.loads[2].memsz
    ensures Accepted(img) && WriteAsm(img).Some? && Passes(img, Link(WriteAsm(img).value))
  {
    WrittenIff(img);
    OrdinaryPasses(img, WriteAsm(img).value);
  }

  /** And images that convert: with a pointer anywhere in the third segment to the start of the image. */
  lemma PointerConverts(data: seq<byte>, off: nat) returns (img: Image)
    requires |data| == 0xC000 && off + 8 <= 0x4000
    ensures Accepted(img) && Ordinary(img) && img.slots == [Slot(0x8000 + off, 0)]
    ensures WriteAsm(img).Some? && Passes(img, Link(WriteAsm(img).value))
  {
    var a, b, c, e := Load(0, 1, 1), Load(0x4000, 1, 1), Load(0x8000, 0x4000, 0x4000), Load(0xC000, 0, 0);
    FourPages(data, a, b, c, e);
    img := Image(data, [a, b, c, e], [Slot(0x8000 + off, 0)], [0]);
    assert LabelOf(img.loads, 0) == Some(InSeg(0, 0));
    OneSlotConverts(img);
  }
}
