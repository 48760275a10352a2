/**
 * LEB128 integers (section 5.2.2 of the WebAssembly Core Specification), as the
 * object-file tools read and write them.
 */
module Leb128 {
  import opened Bytes

  /** What a reader found at the front of its input, and how many bytes it took. */
  datatype Read<+T> = Fail | Got(value: T, used: nat)

  function ReadUleb(s: seq<byte>): (r: Read<nat>)
    ensures r.Got? ==> 1 <= r.used <= |s|
  {
    if s == [] then Fail
    else if s[0] < 128 then Got(s[0], 1)
    else
      match ReadUleb(s[1..])
      case Fail => Fail
      case Got(v, n) => Got(s[0] - 128 + 128 * v, n + 1)
  }

  function WriteUleb(v: nat): (s: seq<byte>)
    ensures |s| >= 1
  {
    if v < 128 then [v] else [v % 128 + 128] + WriteUleb(v / 128)
  }

  /** Signed: bit 6 of the last byte is the sign. */
  function ReadSleb(s: seq<byte>): (r: Read<int>)
    ensures r.Got? ==> 1 <= r.used <= |s|
  {
    if s == [] then Fail
    else if s[0] < 64 then Got(s[0], 1)
    else if s[0] < 128 then Got(s[0] as int - 128, 1)
    else
      match ReadSleb(s[1..])
      case Fail => Fail
      case Got(v, n) => Got(s[0] - 128 + 128 * v, n + 1)
  }

  /** The reference signed encoding; no tool writes one. */
  function WriteSleb(v: int): (s: seq<byte>)
    ensures |s| >= 1
    decreases if v < 0 then -v else v
  {
    if -64 <= v < 64 then [v % 128] else [v % 128 + 128] + WriteSleb(v / 128)
  }

  /** The bytes from an offset on; past the end there are none to read. */
  function From(buf: seq<byte>, off: nat): seq<byte> {
    if off <= |buf| then buf[off..] else []
  }

  /** Dropping a bytes and then b is dropping c. */
  lemma DropTwice(s: seq<byte>, a: nat, b: nat, c: nat)
    requires c == a + b && c <= |s|
    ensures s[a..][b..] == s[c..]
  {}

  lemma {:induction false} UlebRoundTrip(v: nat, t: seq<byte>)
    ensures ReadUleb(WriteUleb(v) + t) == Got(v, |WriteUleb(v)|)
  {
    if v >= 128 {
      UlebRoundTrip(v / 128, t);
      assert (WriteUleb(v) + t)[1..] == WriteUleb(v / 128) + t;
    }
  }

  lemma {:induction false} SlebRoundTrip(v: int, t: seq<byte>)
    ensures ReadSleb(WriteSleb(v) + t) == Got(v, |WriteSleb(v)|)
    decreases if v < 0 then -v else v
  {
    if !(-64 <= v < 64) {
      SlebRoundTrip(v / 128, t);
      assert (WriteSleb(v) + t)[1..] == WriteSleb(v / 128) + t;
    }
  }

  /** Reading looks at nothing past the bytes it takes. */
  lemma {:induction false} UlebLocal(s: seq<byte>, t: seq<byte>)
    requires ReadUleb(s).Got?
    ensures ReadUleb(s[..ReadUleb(s).used] + t) == ReadUleb(s)
  {
    var u := s[..ReadUleb(s).used] + t;
    if s[0] >= 128 {
      UlebLocal(s[1..], t);
      assert u[1..] == s[1..][..ReadUleb(s[1..]).used] + t;
    }
  }

  lemma UlebAlone(s: seq<byte>, k: nat)
    requires ReadUleb(s).Got? && ReadUleb(s).used == k
    ensures ReadUleb(s[..k]) == ReadUleb(s)
  {
    UlebLocal(s, []);
    assert s[..k] + [] == s[..k];
  }

  lemma UlebExtends(s: seq<byte>, t: seq<byte>)
    requires ReadUleb(s).Got?
    ensures ReadUleb(s + t) == ReadUleb(s)
  {
    var n := ReadUleb(s).used;
    UlebLocal(s, s[n..] + t);
    assert s[..n] + (s[n..] + t) == s + t;
  }

  /** The written form is a shortest encoding. */
  lemma {:induction false} UlebShortest(s: seq<byte>)
    requires ReadUleb(s).Got?
    ensures |WriteUleb(ReadUleb(s).value)| <= ReadUleb(s).used
  {
    if s[0] >= 128 {
      UlebShortest(s[1..]);
      var v := ReadUleb(s[1..]).value;
      assert (s[0] - 128 + 128 * v) / 128 == v;
    }
  }

  /** What a reader that already holds `value` and has 1 << shift == `scale` will return. */
  ghost function Continued(value: int, scale: int, taken: nat, rest: Read<int>): Read<int> {
    if rest.Fail? then Fail else Got(value + scale * rest.value, taken + rest.used)
  }

  lemma Scale(value: int, scale: int, low: int, v: int)
    ensures value + scale * (low + 128 * v) == value + low * scale + (scale * 128) * v
  {
    assert scale * (low + 128 * v) == scale * low + scale * (128 * v);
  }

  lemma UlebContinues(s: seq<byte>, value: int, scale: int, taken: nat)
    requires s != [] && s[0] >= 128
    ensures Continued(value, scale, taken, ReadUleb(s))
         == Continued(value + (s[0] - 128) * scale, scale * 128, taken + 1, ReadUleb(s[1..]))
  {
    var rest := ReadUleb(s[1..]);
    if rest.Got? { Scale(value, scale, s[0] - 128, rest.value); }
  }

  lemma SlebContinues(s: seq<byte>, value: int, scale: int, taken: nat)
    requires s != [] && s[0] >= 128
    ensures Continued(value, scale, taken, ReadSleb(s))
         == Continued(value + (s[0] - 128) * scale, scale * 128, taken + 1, ReadSleb(s[1..]))
  {
    var rest := ReadSleb(s[1..]);
    if rest.Got? { Scale(value, scale, s[0] - 128, rest.value); }
  }

  lemma UlebEnds(s: seq<byte>, value: int, scale: int, taken: nat)
    requires s != [] && s[0] < 128
    ensures Continued(value, scale, taken, ReadUleb(s)) == Got(value + s[0] * scale, taken + 1)
  {}

  lemma SlebEnds(s: seq<byte>, value: int, scale: int, taken: nat)
    requires s != [] && s[0] < 128
    ensures Continued(value, scale, taken, ReadSleb(s))
         == Got(if s[0] >= 64 then value + s[0] * scale - scale * 128 else value + s[0] * scale, taken + 1)
  {}

  lemma StaysNatural(value: int, scale: int, low: int)
    requires 0 <= value && 1 <= scale && 0 <= low
    ensures 0 <= value + low * scale && 1 <= scale * 128
  {}

  /** read_uleb: `scale` is 1 << shift. */
  method ReadUlebAt(buf: seq<byte>, start: nat) returns (r: Read<nat>)
    ensures r == ReadUleb(From(buf, start))
  {
    var value: int, scale: int, off := 0, 1, start;
    ghost var rest := From(buf, start);
    while off < |buf|
      invariant start <= off && rest == From(buf, off) && 0 <= value && 1 <= scale
      invariant Continued(value, scale, off - start, ReadUleb(rest)) == ReadUleb(From(buf, start))
    {
      var b: int := buf[off];
      if b < 128 {
        UlebEnds(rest, value, scale, off - start);
        StaysNatural(value, scale, b);
        return Got(value + b * scale, off + 1 - start);
      }
      UlebContinues(rest, value, scale, off - start);
      StaysNatural(value, scale, b - 128);
      value, scale, off, rest := value + (b - 128) * scale, scale * 128, off + 1, rest[1..];
    }
    r := Fail;
  }

  /** read_sleb */
  method ReadSlebAt(buf: seq<byte>, start: nat) returns (r: Read<int>)
    ensures r == ReadSleb(From(buf, start))
  {
    var value: int, scale: int, off := 0, 1, start;
    ghost var rest := From(buf, start);
    while off < |buf|
      invariant start <= off && rest == From(buf, off)
      invariant Continued(value, scale, off - start, ReadSleb(rest)) == ReadSleb(From(buf, start))
    {
      var b: int := buf[off];
      if b < 128 {
        SlebEnds(rest, value, scale, off - start);
        value, scale := value + b * scale, scale * 128;
        return Got(if b >= 64 then value - scale else value, off + 1 - start);
      }
      SlebContinues(rest, value, scale, off - start);
      value, scale, off, rest := value + (b - 128) * scale, scale * 128, off + 1, rest[1..];
    }
    r := Fail;
  }

  /** write_uleb */
  method WriteUlebLoop(v: nat) returns (out: seq<byte>)
    ensures out == WriteUleb(v)
  {
    var n := v;
    out := [];
    while n >= 128
      invariant out + WriteUleb(n) == WriteUleb(v)
    {
      out := out + [n % 128 + 128];
      n := n / 128;
    }
    out := out + [n];
  }
}
