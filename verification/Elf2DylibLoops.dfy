/** The loops of write_asm and check_output. */
module Elf2DylibLoops {
  import opened Bytes
  import opened Elf2Dylib

  ghost function Behind(lines: seq<Piece>, rest: Option<seq<Piece>>): Option<seq<Piece>> {
    if rest.None? then None else Some(lines + rest.value)
  }

  /** One slot: the file data up to it, and the slot. */
  lemma EmitTurn(loads: seq<Load>, d: seq<byte>, base: nat, pos: nat, slots: seq<Slot>, lines: seq<Piece>, off: nat, next: nat)
    requires Placed(loads, base, |d|, slots) && slots != [] && off == slots[0].at - base && next == off + 8
    ensures Placed(loads, base, |d|, slots[1..])
    ensures off < pos ==> Emit(loads, d, base, pos, slots).None?
    ensures off >= pos ==>
      Behind(lines, Emit(loads, d, base, pos, slots))
      == Behind(lines + (if off > pos then [Incbin(d[pos..off])] else []) + [Quad(LabelOf(loads, slots[0].addend).value)],
                Emit(loads, d, base, next, slots[1..]))
  {
    if off >= pos && Emit(loads, d, base, next, slots[1..]).Some? {
      var pre := if off > pos then [Incbin(d[pos..off])] else [];
      var q, rest := [Quad(LabelOf(loads, slots[0].addend).value)], Emit(loads, d, base, next, slots[1..]).value;
      assert lines + (pre + q + rest) == lines + pre + q + rest;
    }
  }

  /** The file data of a segment, cut at its slots; a slot before `pos` overlaps the last one. */
  method EmitLoop(loads: seq<Load>, d: seq<byte>, base: nat, slots: seq<Slot>) returns (r: Option<seq<Piece>>)
    requires Placed(loads, base, |d|, slots)
    ensures r == Emit(loads, d, base, 0, slots)
  {
    var pos: nat, lines: seq<Piece>, left := 0, [], slots;
    ghost var spec := Emit(loads, d, base, 0, slots);
    if spec.Some? { assert [] + spec.value == spec.value; }
    while left != []
      invariant Placed(loads, base, |d|, left) && spec == Behind(lines, Emit(loads, d, base, pos, left))
      decreases |left|
    {
      var off := left[0].at - base;
      var next := off + 8;
      EmitTurn(loads, d, base, pos, left, lines, off, next);
      if off < pos { return None; }
      if off > pos { lines := lines + [Incbin(d[pos..off])]; } else { assert lines + [] == lines; }
      lines := lines + [Quad(LabelOf(loads, left[0].addend).value)];
      pos, left := next, left[1..];
    }
    if |d| > pos { lines := lines + [Incbin(d[pos..])]; } else { assert lines + [] == lines; }
    r := Some(lines);
  }

  /** The loop over the segments. */
  method WriteAsmLoop(img: Image) returns (r: Option<Asm>)
    requires Accepted(img)
    ensures r == WriteAsm(img)
  {
    var sections := [];
    for i := 0 to 4
      invariant |sections| == i && forall j | 0 <= j < i :: SectionPieces(img, j) == Some(sections[j])
    {
      SlotsInPlaced(img, i);
      var p := img.loads[i];
      var body := EmitLoop(img.loads, SegData(img, i), p.vaddr, SlotsIn(img.slots, p));
      if body.None? {
        assert SectionPieces(img, i).None? && (i == 0 || i == 1 || i == 2 || i == 3);
        return None;
      }
      sections := sections + [body.value + Tail(img.loads, i)];
    }
    var exports := ExportLabels(img.loads, img.exports);
    if exports.None? { return None; }
    assert sections == [sections[0], sections[1], sections[2], sections[3]];
    var p := img.loads[3];
    r := Some(Asm(sections, if HasBss(img.loads) then Some(p.memsz - p.filesz) else None, exports.value));
  }

  /** The checker's copy of a segment, its slots packed into it one by one. */
  method PatchLoop(d: seq<byte>, base: nat, slots: seq<Slot>) returns (r: Option<seq<byte>>)
    ensures r == Patch(d, base, slots)
  {
    var want, left := d, slots;
    while left != []
      invariant Patch(want, base, left) == Patch(d, base, slots)
      decreases |left|
    {
      var s := left[0];
      if s.at < base || s.at - base + 8 > |want| || s.addend + DELTA < 0 { return None; }
      want, left := PackInto(want, s.at - base, s.addend + DELTA), left[1..];
    }
    r := Some(want);
  }
}
