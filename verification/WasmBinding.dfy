/**
 * Rebinding one absolute value, or a start/stop pair of them, to the data
 * segments of the file.
 */
module WasmBinding {
  import opened Bytes

  /** A data segment: passive ones have no start. */
  datatype Seg = Seg(start: Option<int>, size: nat)

  /** The tests the tool applies to a segment and a value. */
  datatype Test = Holds | Inside | StartsAt | EndsAt

  predicate Meets(t: Test, s: Seg, v: int) {
    s.start.Some? &&
    match t
    case Holds => s.start.value <= v <= s.start.value + s.size
    case Inside => s.start.value <= v < s.start.value + s.size
    case StartsAt => v == s.start.value
    case EndsAt => v == s.start.value + s.size
  }

  /** The first segment from i on that passes, or |segs|. */
  function First(t: Test, segs: seq<Seg>, v: int, i: nat): (k: nat)
    requires i <= |segs|
    ensures i <= k <= |segs| && (k < |segs| ==> Meets(t, segs[k], v))
    ensures forall j | i <= j < k :: !Meets(t, segs[j], v)
    decreases |segs| - i
  {
    if i == |segs| || Meets(t, segs[i], v) then i else First(t, segs, v, i + 1)
  }

  /** The first segment that holds both values, or |segs|. */
  function FirstBoth(segs: seq<Seg>, v: int, w: int, i: nat): (k: nat)
    requires i <= |segs|
    ensures i <= k <= |segs| && (k < |segs| ==> Meets(Holds, segs[k], v) && Meets(Holds, segs[k], w))
    ensures forall j | i <= j < k :: !(Meets(Holds, segs[j], v) && Meets(Holds, segs[j], w))
    decreases |segs| - i
  {
    if i == |segs| || (Meets(Holds, segs[i], v) && Meets(Holds, segs[i], w)) then i else FirstBoth(segs, v, w, i + 1)
  }

  /** The last of the first n segments that holds v, or -1. */
  function LastHolding(segs: seq<Seg>, v: int, n: nat): (k: int)
    requires n <= |segs|
    ensures -1 <= k < n && (k >= 0 ==> Meets(Holds, segs[k], v))
    ensures forall j | k < j < n :: !Meets(Holds, segs[j], v)
  {
    if n == 0 then -1 else if Meets(Holds, segs[n - 1], v) then n - 1 else LastHolding(segs, v, n - 1)
  }

  datatype Cand = Cand(seg: nat, offset: nat)

  /** A binding that means the same address. */
  predicate Means(segs: seq<Seg>, c: Cand, v: int) {
    && c.seg < |segs| && segs[c.seg].start.Some? && c.offset <= segs[c.seg].size
    && segs[c.seg].start.value + c.offset == v
  }

  function Bind(segs: seq<Seg>, k: nat, v: int): (c: Cand)
    requires k < |segs| && Meets(Holds, segs[k], v)
    ensures Means(segs, c, v) && c.seg == k
  {
    Cand(k, v - segs[k].start.value)
  }

  /** find_segment_for_value: strictly inside or at a start, else at an end. */
  function FindSegment(segs: seq<Seg>, v: int): (r: Option<Cand>)
    ensures r.Some? ==> Means(segs, r.value, v)
  {
    var k := First(Inside, segs, v, 0);
    if k < |segs| then Some(Bind(segs, k, v))
    else
      var e := First(EndsAt, segs, v, 0);
      if e < |segs| then Some(Bind(segs, e, v)) else None
  }

  datatype Pair = Pair(start: Cand, stop: Cand)

  /** The pair loop of main: one common segment if there is one, else the outer edges. */
  function ChoosePair(segs: seq<Seg>, v: int, w: int): (r: Option<Pair>)
    ensures r.Some? ==> Means(segs, r.value.start, v) && Means(segs, r.value.stop, w)
  {
    var n := |segs|;
    var k := FirstBoth(segs, v, w, 0);
    if First(Holds, segs, v, 0) == n || First(Holds, segs, w, 0) == n then None
    else if k < n then Some(Pair(Bind(segs, k, v), Bind(segs, k, w)))
    else
      var a := if First(StartsAt, segs, v, 0) < n then First(StartsAt, segs, v, 0) else First(Holds, segs, v, 0);
      var b := if First(EndsAt, segs, w, 0) < n then First(EndsAt, segs, w, 0) else LastHolding(segs, w, n);
      Some(Pair(Bind(segs, a, v), Bind(segs, b, w)))
  }

  /** A value is rebound exactly if some segment holds it. */
  lemma FindSegmentComplete(segs: seq<Seg>, v: int)
    ensures FindSegment(segs, v).Some? <==> exists i | 0 <= i < |segs| :: Meets(Holds, segs[i], v)
  {
    if i :| 0 <= i < |segs| && Meets(Holds, segs[i], v) {
      assert Meets(Inside, segs[i], v) || Meets(EndsAt, segs[i], v);
    }
  }

  /** A pair is rebound exactly if each end has a segment, and to one segment if any holds both. */
  lemma PairComplete(segs: seq<Seg>, v: int, w: int)
    ensures ChoosePair(segs, v, w).Some?
       <==> (exists i | 0 <= i < |segs| :: Meets(Holds, segs[i], v)) && (exists j | 0 <= j < |segs| :: Meets(Holds, segs[j], w))
    ensures (exists i | 0 <= i < |segs| :: Meets(Holds, segs[i], v) && Meets(Holds, segs[i], w))
       ==> ChoosePair(segs, v, w).Some? && ChoosePair(segs, v, w).value.start.seg == ChoosePair(segs, v, w).value.stop.seg
  {
  }

  // ---- The loops --------------------------------------------------------------------------

  /** Exactly the bindings of v, by segment. */
  ghost predicate AreCandidates(segs: seq<Seg>, n: nat, v: int, cs: seq<Cand>)
    requires n <= |segs|
  {
    && (forall p | 0 <= p < |cs| :: cs[p].seg < n && Meets(Holds, segs[cs[p].seg], v) && cs[p] == Bind(segs, cs[p].seg, v))
    && (forall p, q | 0 <= p < q < |cs| :: cs[p].seg < cs[q].seg)
    && (forall i | 0 <= i < n && Meets(Holds, segs[i], v) :: Bind(segs, i, v) in cs)
  }

  /** find_candidates */
  method FindCandidates(segs: seq<Seg>, v: int) returns (cs: seq<Cand>)
    ensures AreCandidates(segs, |segs|, v, cs)
  {
    cs := [];
    var i := 0;
    while i < |segs|
      invariant 0 <= i <= |segs| && AreCandidates(segs, i, v, cs)
    {
      if segs[i].start.Some? && segs[i].start.value <= v <= segs[i].start.value + segs[i].size {
        cs := cs + [Cand(i, v - segs[i].start.value)];
      }
      i := i + 1;
    }
  }

  /** find_segment_for_value */
  method FindSegmentLoop(segs: seq<Seg>, v: int) returns (r: Option<Cand>)
    ensures r == FindSegment(segs, v)
  {
    for i := 0 to |segs|
      invariant forall j | 0 <= j < i :: !Meets(Inside, segs[j], v)
    {
      var s := segs[i];
      if s.start.Some? && s.start.value <= v < s.start.value + s.size {
        return Some(Cand(i, v - s.start.value));
      }
    }
    for i := 0 to |segs|
      invariant forall j | 0 <= j < i :: !Meets(EndsAt, segs[j], v)
    {
      var s := segs[i];
      if s.start.Some? && v == s.start.value + s.size { return Some(Cand(i, s.size)); }
    }
    r := None;
  }

  /** The stop candidate in the segment of a start candidate. */
  method SameSegment(segs: seq<Seg>, v: int, w: int, c: Cand, ecs: seq<Cand>) returns (r: Option<Cand>)
    requires AreCandidates(segs, |segs|, w, ecs) && c.seg < |segs| && Meets(Holds, segs[c.seg], v) && c == Bind(segs, c.seg, v)
    ensures r.Some? <==> Meets(Holds, segs[c.seg], w)
    ensures r.Some? ==> r.value == Bind(segs, c.seg, w)
  {
    for q := 0 to |ecs|
      invariant forall q' | 0 <= q' < q :: ecs[q'].seg != c.seg
    {
      if c.seg == ecs[q].seg && ecs[q].offset - c.offset == w - v { return Some(ecs[q]); }
    }
    r := None;
  }

  /** The nested loop over start and stop candidates. */
  method FirstCommon(segs: seq<Seg>, v: int, w: int, scs: seq<Cand>, ecs: seq<Cand>) returns (r: Option<Pair>)
    requires AreCandidates(segs, |segs|, v, scs) && AreCandidates(segs, |segs|, w, ecs)
    ensures var k := FirstBoth(segs, v, w, 0);
      r == if k < |segs| then Some(Pair(Bind(segs, k, v), Bind(segs, k, w))) else None
  {
    ghost var k := FirstBoth(segs, v, w, 0);
    assert k < |segs| ==> Bind(segs, k, v) in scs;
    for p := 0 to |scs|
      invariant forall p' | 0 <= p' < p :: !Meets(Holds, segs[scs[p'].seg], w)
    {
      var stop := SameSegment(segs, v, w, scs[p], ecs);
      if stop.Some? { return Some(Pair(scs[p], stop.value)); }
    }
    r := None;
  }

  /** The first start candidate at offset 0, else the first. */
  method PickStart(segs: seq<Seg>, v: int, cs: seq<Cand>) returns (c: Cand)
    requires AreCandidates(segs, |segs|, v, cs) && cs != []
    ensures var k := First(StartsAt, segs, v, 0);
      c.seg == if k < |segs| then k else First(Holds, segs, v, 0)
    ensures c.seg < |segs| && Meets(Holds, segs[c.seg], v) && c == Bind(segs, c.seg, v)
  {
    ghost var k, h := First(StartsAt, segs, v, 0), First(Holds, segs, v, 0);
    assert k < |segs| ==> Bind(segs, k, v) in cs;
    assert Bind(segs, h, v) in cs;
    for p := 0 to |cs|
      invariant forall p' | 0 <= p' < p :: cs[p'].offset != 0
    {
      if cs[p].offset == 0 { return cs[p]; }
    }
    c := cs[0];
  }

  /** The first stop candidate at the end of its segment, else the last. */
  method PickStop(segs: seq<Seg>, w: int, cs: seq<Cand>) returns (c: Cand)
    requires AreCandidates(segs, |segs|, w, cs) && cs != []
    ensures var k := First(EndsAt, segs, w, 0);
      c.seg == if k < |segs| then k else LastHolding(segs, w, |segs|)
    ensures c.seg < |segs| && Meets(Holds, segs[c.seg], w) && c == Bind(segs, c.seg, w)
  {
    ghost var k, h := First(EndsAt, segs, w, 0), LastHolding(segs, w, |segs|);
    assert k < |segs| ==> Bind(segs, k, w) in cs;
    assert h >= 0 ==> Bind(segs, h, w) in cs;
    for q := 0 to |cs|
      invariant forall q' | 0 <= q' < q :: cs[q'].offset != segs[cs[q'].seg].size
    {
      if cs[q].offset == segs[cs[q].seg].size { return cs[q]; }
    }
    c := cs[|cs| - 1];
  }

  /** The body of the pair loop of main. */
  method ChoosePairLoop(segs: seq<Seg>, v: int, w: int) returns (r: Option<Pair>)
    ensures r == ChoosePair(segs, v, w)
  {
    var scs := FindCandidates(segs, v);
    var ecs := FindCandidates(segs, w);
    if scs == [] || ecs == [] { return None; }
    r := FirstCommon(segs, v, w, scs, ecs);
    if r.None? {
      var c := PickStart(segs, v, scs);
      var e := PickStop(segs, w, ecs);
      r := Some(Pair(c, e));
    }
  }
}
