/** Reading the DATA section: where each segment starts and how long it is. */
module WasmSegments {
  import opened Bytes
  import opened Leb128
  import opened WasmBinding

  // ---- Reading ------------------------------------------------------------------------

  /** The size field and the bytes it announces. */
  function ReadPayload(s: seq<byte>): (r: Read<nat>)
    ensures r.Got? ==> r.used <= |s|
  {
    var n := ReadUleb(s);
    if n.Fail? || n.used + n.value > |s| then Fail else Got(n.value, n.used + n.value)
  }

  /** i32.const x, end; `strict` is whether the opcodes are checked. */
  function ReadInit(s: seq<byte>, strict: bool): (r: Read<int>)
    ensures r.Got? ==> r.used <= |s|
  {
    if s == [] || (strict && s[0] != 0x41) then Fail
    else
      var v := ReadSleb(s[1..]);
      if v.Fail? || 1 + v.used >= |s| || (strict && s[1 + v.used] != 0x0b) then Fail
      else Got(v.value, 2 + v.used)
  }

  function ReadActive(s: seq<byte>, strict: bool): (r: Read<Seg>)
    ensures r.Got? ==> r.used <= |s|
  {
    var v := ReadInit(s, strict);
    if v.Fail? then Fail
    else
      var n := ReadPayload(s[v.used..]);
      if n.Fail? then Fail else Got(Seg(Some(v.value), n.value), v.used + n.used)
  }

  function ReadPassive(s: seq<byte>): (r: Read<Seg>)
    ensures r.Got? ==> r.used <= |s|
  {
    var n := ReadPayload(s);
    if n.Fail? then Fail else Got(Seg(None, n.value), n.used)
  }

  function ReadExplicit(s: seq<byte>): (r: Read<Seg>)
    ensures r.Got? ==> r.used <= |s|
  {
    var m := ReadUleb(s);
    if m.Fail? then Fail
    else
      var g := ReadActive(s[m.used..], false);
      if g.Fail? then Fail else Got(g.value, m.used + g.used)
  }

  /** The reader behind a flag. */
  function ReadBehind(flag: nat, u: seq<byte>): (r: Read<Seg>)
    ensures r.Got? ==> r.used <= |u|
  {
    if flag == 0 then ReadActive(u, true)
    else if flag == 1 then ReadPassive(u)
    else if flag == 2 then ReadExplicit(u)
    else Fail
  }

  function ReadSeg(s: seq<byte>): (r: Read<Seg>)
    ensures r.Got? ==> r.used <= |s|
  {
    var flag := ReadUleb(s);
    if flag.Fail? then Fail
    else
      var g := ReadBehind(flag.value, s[flag.used..]);
      if g.Fail? then Fail else Got(g.value, flag.used + g.used)
  }

  function ReadSegs(s: seq<byte>, n: nat): (r: Option<seq<Seg>>)
    decreases n
  {
    if n == 0 then Some([])
    else
      var g := ReadSeg(s);
      if g.Fail? then None
      else
        var rest := ReadSegs(s[g.used..], n - 1);
        if rest.None? then None else Some([g.value] + rest.value)
  }

  /** parse_data_segments */
  function ReadData(body: seq<byte>): Option<seq<Seg>> {
    var n := ReadUleb(body);
    if n.Fail? then None else ReadSegs(body[n.used..], n.value)
  }

  // ---- The format it reads (section 5.5.14 of the WebAssembly Core Specification) --------------

  datatype RawSeg =
    | Active(start: int, data: seq<byte>)
    | Passive(data: seq<byte>)
    | Explicit(memory: nat, start: int, data: seq<byte>)

  function SegOf(g: RawSeg): Seg {
    Seg(if g.Passive? then None else Some(g.start), |g.data|)
  }

  function EncodePayload(data: seq<byte>): seq<byte> { WriteUleb(|data|) + data }

  function EncodeInit(v: int): seq<byte> { [0x41] + WriteSleb(v) + [0x0b] }

  function EncodeSeg(g: RawSeg): seq<byte> {
    match g
    case Active(start, data) => WriteUleb(0) + (EncodeInit(start) + EncodePayload(data))
    case Passive(data) => WriteUleb(1) + EncodePayload(data)
    case Explicit(memory, start, data) => WriteUleb(2) + (WriteUleb(memory) + (EncodeInit(start) + EncodePayload(data)))
  }

  function EncodeSegs(gs: seq<RawSeg>): seq<byte> {
    if gs == [] then [] else EncodeSeg(gs[0]) + EncodeSegs(gs[1..])
  }

  function EncodeData(gs: seq<RawSeg>): seq<byte> { WriteUleb(|gs|) + EncodeSegs(gs) }

  function SegsOf(gs: seq<RawSeg>): (segs: seq<Seg>)
    ensures |segs| == |gs| && forall i | 0 <= i < |gs| :: segs[i] == SegOf(gs[i])
  {
    if gs == [] then [] else [SegOf(gs[0])] + SegsOf(gs[1..])
  }

  lemma PayloadRoundTrip(data: seq<byte>, t: seq<byte>)
    ensures ReadPayload(EncodePayload(data) + t) == Got(|data|, |EncodePayload(data)|)
  {
    UlebRoundTrip(|data|, data + t);
    assert EncodePayload(data) + t == WriteUleb(|data|) + (data + t);
  }

  lemma InitRoundTrip(v: int, t: seq<byte>, strict: bool)
    ensures ReadInit(EncodeInit(v) + t, strict) == Got(v, |EncodeInit(v)|)
  {
    SlebRoundTrip(v, [0x0b] + t);
    assert (EncodeInit(v) + t)[1..] == WriteSleb(v) + ([0x0b] + t);
  }

  lemma ActiveRoundTrip(start: int, data: seq<byte>, t: seq<byte>, strict: bool)
    ensures var e := EncodeInit(start) + EncodePayload(data);
      ReadActive(e + t, strict) == Got(Seg(Some(start), |data|), |e|)
  {
    var a, b := EncodeInit(start), EncodePayload(data);
    InitRoundTrip(start, b + t, strict);
    PayloadRoundTrip(data, t);
    assert a + b + t == a + (b + t) && (a + b + t)[|a|..] == b + t;
  }

  lemma ExplicitRoundTrip(memory: nat, start: int, data: seq<byte>, t: seq<byte>)
    ensures var e := WriteUleb(memory) + (EncodeInit(start) + EncodePayload(data));
      ReadExplicit(e + t) == Got(Seg(Some(start), |data|), |e|)
  {
    var a, b := WriteUleb(memory), EncodeInit(start) + EncodePayload(data);
    UlebRoundTrip(memory, b + t);
    ActiveRoundTrip(start, data, t, false);
    assert a + b + t == a + (b + t) && (a + b + t)[|a|..] == b + t;
  }

  lemma FlagRoundTrip(flag: nat, e: seq<byte>, t: seq<byte>, g: Seg)
    requires ReadBehind(flag, e + t) == Got(g, |e|)
    ensures ReadSeg(WriteUleb(flag) + e + t) == Got(g, |WriteUleb(flag) + e|)
  {
    var f := WriteUleb(flag);
    UlebRoundTrip(flag, e + t);
    assert f + e + t == f + (e + t) && (f + e + t)[|f|..] == e + t;
  }

  lemma SegRoundTrip(g: RawSeg, t: seq<byte>)
    ensures ReadSeg(EncodeSeg(g) + t) == Got(SegOf(g), |EncodeSeg(g)|)
  {
    match g {
      case Active(start, data) =>
        ActiveRoundTrip(start, data, t, true);
        FlagRoundTrip(0, EncodeInit(start) + EncodePayload(data), t, SegOf(g));
      case Passive(data) =>
        PayloadRoundTrip(data, t);
        FlagRoundTrip(1, EncodePayload(data), t, SegOf(g));
      case Explicit(memory, start, data) =>
        ExplicitRoundTrip(memory, start, data, t);
        FlagRoundTrip(2, WriteUleb(memory) + (EncodeInit(start) + EncodePayload(data)), t, SegOf(g));
    }
  }

  lemma {:induction false} SegsRoundTrip(gs: seq<RawSeg>)
    ensures ReadSegs(EncodeSegs(gs), |gs|) == Some(SegsOf(gs))
  {
    if gs != [] {
      SegRoundTrip(gs[0], EncodeSegs(gs[1..]));
      SegsRoundTrip(gs[1..]);
      assert EncodeSegs(gs)[|EncodeSeg(gs[0])|..] == EncodeSegs(gs[1..]);
    }
  }

  /** Reading a DATA section finds the start and length of every segment in it. */
  lemma DataRoundTrip(gs: seq<RawSeg>)
    ensures ReadData(EncodeData(gs)) == Some(SegsOf(gs))
  {
    UlebRoundTrip(|gs|, EncodeSegs(gs));
    SegsRoundTrip(gs);
    assert EncodeData(gs)[|WriteUleb(|gs|)|..] == EncodeSegs(gs);
  }

  // ---- The loop -----------------------------------------------------------------------------

  method ReadPayloadAt(buf: seq<byte>, off: nat) returns (r: Read<nat>)
    requires off <= |buf|
    ensures r == ReadPayload(buf[off..])
  {
    var n := ReadUlebAt(buf, off);
    r := if n.Fail? || off + n.used + n.value > |buf| then Fail else Got(n.value, n.used + n.value);
  }

  method ReadInitAt(buf: seq<byte>, off: nat, strict: bool) returns (r: Read<int>)
    requires off <= |buf|
    ensures r == ReadInit(buf[off..], strict)
  {
    if off == |buf| || (strict && buf[off] != 0x41) { return Fail; }
    DropTwice(buf, off, 1, off + 1);
    var v := ReadSlebAt(buf, off + 1);
    if v.Fail? || off + 1 + v.used >= |buf| || (strict && buf[off + 1 + v.used] != 0x0b) { return Fail; }
    r := Got(v.value, 2 + v.used);
  }

  method ReadActiveAt(buf: seq<byte>, off: nat, strict: bool) returns (r: Read<Seg>)
    requires off <= |buf|
    ensures r == ReadActive(buf[off..], strict)
  {
    var v := ReadInitAt(buf, off, strict);
    if v.Fail? { return Fail; }
    var at := off + v.used;
    DropTwice(buf, off, v.used, at);
    var n := ReadPayloadAt(buf, at);
    r := if n.Fail? then Fail else Got(Seg(Some(v.value), n.value), v.used + n.used);
  }

  method ReadExplicitAt(buf: seq<byte>, off: nat) returns (r: Read<Seg>)
    requires off <= |buf|
    ensures r == ReadExplicit(buf[off..])
  {
    var m := ReadUlebAt(buf, off);
    if m.Fail? { return Fail; }
    var at := off + m.used;
    DropTwice(buf, off, m.used, at);
    var g := ReadActiveAt(buf, at, false);
    r := if g.Fail? then Fail else Got(g.value, m.used + g.used);
  }

  method ReadSegAt(buf: seq<byte>, off: nat) returns (r: Read<Seg>)
    requires off <= |buf|
    ensures r == ReadSeg(buf[off..])
  {
    var flag := ReadUlebAt(buf, off);
    if flag.Fail? { return Fail; }
    var at := off + flag.used;
    DropTwice(buf, off, flag.used, at);
    var g: Read<Seg> := Fail;
    if flag.value == 0 {
      g := ReadActiveAt(buf, at, true);
    } else if flag.value == 1 {
      var n := ReadPayloadAt(buf, at);
      if n.Got? { g := Got(Seg(None, n.value), n.used); }
    } else if flag.value == 2 {
      g := ReadExplicitAt(buf, at);
    }
    r := if g.Fail? then Fail else Got(g.value, flag.used + g.used);
  }

  ghost function Behind(segs: seq<Seg>, rest: Option<seq<Seg>>): Option<seq<Seg>> {
    if rest.None? then None else Some(segs + rest.value)
  }

  lemma BehindTurn(segs: seq<Seg>, s: seq<byte>, n: nat, g: Read<Seg>)
    requires g == ReadSeg(s)
    ensures g.Fail? ==> ReadSegs(s, n + 1).None?
    ensures g.Got? ==> Behind(segs, ReadSegs(s, n + 1)) == Behind(segs + [g.value], ReadSegs(s[g.used..], n))
  {
    if g.Got? && ReadSegs(s[g.used..], n).Some? {
      var rest := ReadSegs(s[g.used..], n).value;
      assert segs + ([g.value] + rest) == segs + [g.value] + rest;
    }
  }

  /** One segment and the offset after it. */
  method NextSeg(body: seq<byte>, off: nat, segs: seq<Seg>, ghost more: nat) returns (g: Option<Seg>, next: nat)
    requires off <= |body|
    ensures next <= |body|
    ensures g.None? ==> ReadSegs(body[off..], more + 1).None?
    ensures g.Some? ==> Behind(segs, ReadSegs(body[off..], more + 1)) == Behind(segs + [g.value], ReadSegs(body[next..], more))
  {
    var r := ReadSegAt(body, off);
    BehindTurn(segs, body[off..], more, r);
    if r.Fail? { return None, off; }
    next := off + r.used;
    DropTwice(body, off, r.used, next);
    g := Some(r.value);
  }

  /** parse_data_segments */
  method ReadDataLoop(body: seq<byte>) returns (r: Option<seq<Seg>>)
    ensures r == ReadData(body)
  {
    var count := ReadUlebAt(body, 0);
    if count.Fail? { return None; }
    var off: nat, left, segs := count.used, count.value, [];
    ghost var spec := ReadSegs(body[off..], left);
    if spec.Some? { assert [] + spec.value == spec.value; }
    while left > 0
      invariant off <= |body| && spec == Behind(segs, ReadSegs(body[off..], left))
      decreases left
    {
      left := left - 1;
      var g, next := NextSeg(body, off, segs, left);
      if g.None? { return None; }
      off, segs := next, segs + [g.value];
    }
    assert segs + [] == segs;
    r := Some(segs);
  }
}
