/**
 * URLFS: reads of a remote file through an LRU cache of fixed-size chunks.
 * The server answers each request with the exact range, with the whole body,
 * or with an error status; which one is its choice every time.
 */
module UrlFs {
  import opened Bytes
  import opened Lru

  const CHUNK_SIZE: nat := 524288   // 512 KiB
  const MAX_CACHED_CHUNKS: nat := 32

  datatype Answer = Ranged | WholeBody | Refused(status: int)

  /** A Map entry; a Map is the sequence of its entries in insertion order. */
  datatype Entry = Entry(key: nat, chunk: seq<byte>)

  function Keys(m: seq<Entry>): seq<nat> {
    seq(|m|, i requires 0 <= i < |m| => m[i].key)
  }

  /** Chunk idx of the file. */
  function Chunk(file: seq<byte>, idx: nat): seq<byte>
    requires idx * CHUNK_SIZE <= |file|
  {
    file[idx * CHUNK_SIZE..Min(idx * CHUNK_SIZE + CHUNK_SIZE, |file|)]
  }

  function Delete(m: seq<Entry>, key: nat): seq<Entry> {
    if m == [] then [] else if m[0].key == key then m[1..] else [m[0]] + Delete(m[1..], key)
  }

  lemma {:induction false} DeleteKeys(m: seq<Entry>, key: nat)
    ensures Keys(Delete(m, key)) == Remove(Keys(m), key)
    ensures forall e | e in Delete(m, key) :: e in m
  {
    if m != [] {
      assert Keys(m)[1..] == Keys(m[1..]);
      DeleteKeys(m[1..], key);
      if m[0].key != key {
        assert Keys([m[0]] + Delete(m[1..], key)) == [m[0].key] + Keys(Delete(m[1..], key));
      }
    }
  }

  predicate Correct(file: seq<byte>, m: seq<Entry>) {
    forall e | e in m :: e.key * CHUNK_SIZE < |file| && e.chunk == Chunk(file, e.key)
  }

  /** The most recently used distinct chunks, in recency order, with the file's bytes. */
  ghost predicate Mirrors(file: seq<byte>, m: seq<Entry>, used: seq<nat>) {
    && Keys(m) == Last(Recency(used), MAX_CACHED_CHUNKS)
    && Correct(file, m)
  }

  lemma RecencyNext(used: seq<nat>, idx: nat)
    ensures Recency(used + [idx]) == Remove(Recency(used), idx) + [idx] && Distinct(Recency(used))
  {
    RecencyMeaning(used);
    assert (used + [idx])[..|used|] == used;
  }

  lemma KeysAppend(m: seq<Entry>, e: Entry)
    ensures Keys(m + [e]) == Keys(m) + [e.key]
  {
  }

  /** A hit: delete and set again. */
  lemma HitMirrors(file: seq<byte>, m: seq<Entry>, used: seq<nat>, e: Entry)
    requires Mirrors(file, m, used) && e in m && e.key in Keys(m)
    ensures Mirrors(file, Delete(m, e.key) + [e], used + [e.key])
  {
    RecencyNext(used, e.key);
    TouchHit(Recency(used), e.key, MAX_CACHED_CHUNKS);
    DeleteKeys(m, e.key);
    KeysAppend(Delete(m, e.key), e);
  }

  /** The cache after a new entry, the oldest dropped if it is over the cap. */
  function Admit(m: seq<Entry>, e: Entry): seq<Entry> {
    if |m| + 1 > MAX_CACHED_CHUNKS then (m + [e])[1..] else m + [e]
  }

  lemma MissMirrors(file: seq<byte>, m: seq<Entry>, used: seq<nat>, e: Entry)
    requires Mirrors(file, m, used) && e.key !in Keys(m)
    requires e.key * CHUNK_SIZE < |file| && e.chunk == Chunk(file, e.key)
    ensures Mirrors(file, Admit(m, e), used + [e.key])
  {
    RecencyNext(used, e.key);
    TouchMiss(Recency(used), e.key, MAX_CACHED_CHUNKS);
    KeysAppend(m, e);
    assert Keys((m + [e])[1..]) == Keys(m + [e])[1..];
  }

  lemma SliceOfSlice(file: seq<byte>, start: nat, end: nat, off: nat, n: nat)
    requires start + off + n <= end <= |file|
    ensures file[start..end][off..off + n] == file[start + off..start + off + n]
  {
    var a, b := file[start..end][off..off + n], file[start + off..start + off + n];
    assert |a| == |b| && forall d | 0 <= d < n :: a[d] == b[d];
  }

  /** The bytes of the file at pos, from the chunk that covers it. */
  lemma ChunkSlice(file: seq<byte>, pos: nat, want: nat)
    requires pos < |file|
    requires want <= |Chunk(file, pos / CHUNK_SIZE)| - pos % CHUNK_SIZE
    ensures var c := Chunk(file, pos / CHUNK_SIZE);
      c[pos % CHUNK_SIZE..pos % CHUNK_SIZE + want] == file[pos..pos + want]
  {
    var start, off := pos / CHUNK_SIZE * CHUNK_SIZE, pos % CHUNK_SIZE;
    assert start + off == pos;
    SliceOfSlice(file, start, Min(start + CHUNK_SIZE, |file|), off, want);
  }

  /** How many bytes a read at position gets. */
  function Clip(size: nat, position: nat, length: nat): nat {
    if position >= size then 0 else Min(length, size - position)
  }

  /** The part of the file a read asks for, clipped at its end. */
  function Slice(file: seq<byte>, position: nat, length: nat): seq<byte> {
    if position >= |file| then [] else file[position..position + Clip(|file|, position, length)]
  }

  /** b with n bytes of the file, from `position` on, written over it from `at` on. */
  function Written(file: seq<byte>, b: seq<byte>, at: nat, position: nat, n: nat): (r: seq<byte>)
    requires at + n <= |b| && (n > 0 ==> position + n <= |file|)
    ensures |r| == |b|
  {
    if n == 0 then b else Written(file, b, at, position, n - 1)[at + n - 1 := file[position + n - 1]]
  }

  lemma {:induction false} WrittenAt(file: seq<byte>, b: seq<byte>, at: nat, position: nat, n: nat, k: nat)
    requires at + n <= |b| && (n > 0 ==> position + n <= |file|) && k < |b|
    ensures Written(file, b, at, position, n)[k] == if at <= k < at + n then file[position + (k - at)] else b[k]
    decreases n
  {
    if n > 0 { WrittenAt(file, b, at, position, n - 1, k); }
  }

  lemma WrittenIs(file: seq<byte>, b: seq<byte>, at: nat, position: nat, n: nat)
    requires at + n <= |b| && (n > 0 ==> position + n <= |file|)
    ensures Written(file, b, at, position, n) == b[..at] + Slice(file, position, n) + b[at + n..]
  {
    var w, v := Written(file, b, at, position, n), b[..at] + Slice(file, position, n) + b[at + n..];
    forall k | 0 <= k < |b| ensures w[k] == v[k] { WrittenAt(file, b, at, position, n, k); }
  }

  /** Bytes written right after others. */
  lemma {:induction false} WrittenOn(file: seq<byte>, b: seq<byte>, offset: nat, position: nat, n: nat, at: nat, pos: nat, m: nat)
    requires at == offset + n && pos == position + n && at + m <= |b| && pos + m <= |file|
    ensures Written(file, Written(file, b, offset, position, n), at, pos, m) == Written(file, b, offset, position, n + m)
    decreases m
  {
    if m > 0 { WrittenOn(file, b, offset, position, n, at, pos, m - 1); }
  }

  /** The chunk at pos / CHUNK_SIZE covers position pos. */
  lemma ChunkCovers(file: seq<byte>, pos: nat)
    requires pos < |file|
    ensures var idx := pos / CHUNK_SIZE;
      && idx * CHUNK_SIZE < |file| && pos - idx * CHUNK_SIZE == pos % CHUNK_SIZE
      && pos % CHUNK_SIZE < |Chunk(file, idx)|
  {
  }

  /** The bytes from pos on that lie in the chunk of pos and before end. */
  function InChunk(pos: nat, end: nat): (n: nat)
    requires pos < end
    ensures 0 < n <= end - pos
  {
    Min(end - pos, CHUNK_SIZE - pos % CHUNK_SIZE)
  }

  /** What a chunk has from pos on, up to end. */
  lemma PieceIs(file: seq<byte>, pos: nat, end: nat, idx: nat, off: int, chunk: seq<byte>)
    requires pos < end <= |file| && idx == pos / CHUNK_SIZE && off == pos - idx * CHUNK_SIZE
    requires idx * CHUNK_SIZE < |file| && chunk == Chunk(file, idx)
    ensures 0 <= off < |chunk| && Min(end - pos, |chunk| - off) == InChunk(pos, end)
    ensures chunk[off..off + InChunk(pos, end)] == file[pos..pos + InChunk(pos, end)]
  {
    ChunkCovers(file, pos);
    ChunkSlice(file, pos, InChunk(pos, end));
  }

  // ---- Which chunks a read uses ---------------------------------------------------------------

  /** The chunks that hold the bytes from pos up to end, in order. */
  function Touched(pos: nat, end: nat): seq<nat>
    decreases end - pos
  {
    if pos >= end then [] else [pos / CHUNK_SIZE] + Touched(pos + InChunk(pos, end), end)
  }

  /** From its first chunk to its last, without a gap. */
  lemma {:induction false} TouchedAre(pos: nat, end: nat)
    requires pos < end
    ensures |Touched(pos, end)| == (end - 1) / CHUNK_SIZE - pos / CHUNK_SIZE + 1
    ensures forall i | 0 <= i < |Touched(pos, end)| :: Touched(pos, end)[i] == pos / CHUNK_SIZE + i
    decreases end - pos
  {
    var next := pos + InChunk(pos, end);
    if next < end {
      TouchedAre(next, end);
      assert next / CHUNK_SIZE == pos / CHUNK_SIZE + 1;
    }
  }

  /** Stopping early uses the first of the chunks. */
  lemma {:induction false} TouchedPrefix(pos: nat, mid: nat, end: nat)
    requires pos <= mid <= end
    ensures Touched(pos, mid) <= Touched(pos, end)
    decreases mid - pos
  {
    if pos < mid {
      TouchedAre(pos, mid);
      TouchedAre(pos, end);
      assert (mid - 1) / CHUNK_SIZE <= (end - 1) / CHUNK_SIZE;
    }
  }

  /** One turn of a read uses one more chunk, and ends at a chunk boundary or at the end. */
  lemma TouchedTurn(position: nat, pos: nat, end: nat, next: nat)
    requires position <= pos < end && (pos == position || pos % CHUNK_SIZE == 0) && next == pos + InChunk(pos, end)
    ensures Touched(position, next) == Touched(position, pos) + [pos / CHUNK_SIZE]
    ensures next == end || next % CHUNK_SIZE == 0
  {
    var q := pos / CHUNK_SIZE;
    assert (next - 1) / CHUNK_SIZE == q;
    TouchedAre(position, next);
    if pos > position {
      assert (pos - 1) / CHUNK_SIZE == q - 1;
      TouchedAre(position, pos);
    }
  }

  /** Where a read of the bytes from `position` up to `end` stands after k turns. */
  function Stop(position: nat, end: nat, k: nat): (p: nat)
    requires position <= end
    ensures position <= p <= end
  {
    if k == 0 then position
    else
      var p := Stop(position, end, k - 1);
      if p == end then end else p + InChunk(p, end)
  }

  /** The chunks those turns used. */
  function Turns(position: nat, end: nat, k: nat): seq<nat>
    requires position <= end
  {
    if k == 0 then []
    else
      var p := Stop(position, end, k - 1);
      Turns(position, end, k - 1) + (if p == end then [] else [p / CHUNK_SIZE])
  }

  lemma TurnsOn(start: seq<nat>, position: nat, end: nat, k: nat, pos: nat)
    requires position <= end && pos == Stop(position, end, k) < end
    ensures start + Turns(position, end, k) + [pos / CHUNK_SIZE] == start + Turns(position, end, k + 1)
    ensures Stop(position, end, k + 1) == pos + InChunk(pos, end)
  {}

  /** They are the chunks of the bytes read, and the read stands at a chunk boundary or at an end. */
  lemma {:induction false} TurnsTouch(position: nat, end: nat, k: nat)
    requires position <= end
    ensures var p := Stop(position, end, k);
      Turns(position, end, k) == Touched(position, p) && (p == position || p == end || p % CHUNK_SIZE == 0)
  {
    if k > 0 {
      TurnsTouch(position, end, k - 1);
      var p := Stop(position, end, k - 1);
      if p < end { TouchedTurn(position, p, end, Stop(position, end, k)); }
    }
  }

  class Backend {
    const file: seq<byte>                // the remote file, which does not change
    const server: nat -> Answer          // how request number n is answered
    var requests: nat
    var cache: seq<Entry>
    ghost var used: seq<nat>             // every chunk handed out, oldest first

    ghost predicate Valid()
      reads this
    {
      Mirrors(file, cache, used)
    }

    /** Some request from number a up to, not including, b is refused. */
    ghost predicate RefusedOne(a: nat, b: int) {
      exists n: nat :: a <= n < b && server(n).Refused?
    }

    constructor (f: seq<byte>, s: nat -> Answer)
      ensures Valid() && file == f && server == s && used == [] && requests == 0
    {
      file, server, requests, cache, used := f, s, 0, [], [];
    }

    /** fetchChunk: None stands for the thrown error. */
    method FetchChunk(idx: nat) returns (r: Option<seq<byte>>)
      requires idx * CHUNK_SIZE < |file|
      modifies this`requests
      ensures requests == old(requests) + 1
      ensures r == if server(old(requests)).Refused? then None else Some(Chunk(file, idx))
    {
      var start := idx * CHUNK_SIZE;
      var end := Min(start + CHUNK_SIZE, |file|) - 1;
      var answer := server(requests);
      requests := requests + 1;
      if answer.Refused? { return None; }
      var buf := if answer.Ranged? then file[start..end + 1] else file;
      if answer.WholeBody? && |buf| > end - start + 1 {
        buf := buf[start..end + 1];
      } else {
        assert buf == file[start..end + 1];
      }
      return Some(buf);
    }

    method Find(idx: nat) returns (at: int)
      ensures at == -1 ==> idx !in Keys(cache)
      ensures at != -1 ==> 0 <= at < |cache| && cache[at].key == idx && idx in Keys(cache)
    {
      at := 0;
      while at < |cache|
        invariant 0 <= at <= |cache| && idx !in Keys(cache)[..at]
      {
        if cache[at].key == idx {
          assert Keys(cache)[at] == idx;
          return;
        }
        at := at + 1;
      }
      assert Keys(cache)[..at] == Keys(cache);
      at := -1;
    }

    /** getChunk: one request on a miss, none on a hit. */
    method GetChunk(idx: nat) returns (r: Option<seq<byte>>)
      requires Valid() && idx * CHUNK_SIZE < |file|
      modifies this
      ensures Valid()
      ensures requests == old(requests) + (if idx in old(Keys(cache)) then 0 else 1)
      ensures r.Some? ==> r.value == Chunk(file, idx) && used == old(used) + [idx]
      ensures r.None? <==> idx !in old(Keys(cache)) && server(old(requests)).Refused?
      ensures r.None? ==> used == old(used) && cache == old(cache)
    {
      var at := Find(idx);
      if at != -1 {
        var hit := cache[at];
        HitMirrors(file, cache, used, hit);
        cache := Delete(cache, idx);
        cache := cache + [hit];
        used := used + [idx];
        return Some(hit.chunk);
      }
      r := FetchChunk(idx);
      if r.None? { return; }
      MissMirrors(file, cache, used, Entry(idx, r.value));
      cache := cache + [Entry(idx, r.value)];
      if |cache| > MAX_CACHED_CHUNKS { cache := cache[1..]; }
      used := used + [idx];
    }

    /** buffer.set(piece, at) */
    method Set(buffer: array<byte>, at: nat, piece: seq<byte>)
      requires at + |piece| <= buffer.Length
      modifies buffer
      ensures buffer[..] == old(buffer[..])[..at] + piece + old(buffer[..])[at + |piece|..]
    {
      forall k | 0 <= k < |piece| { buffer[at + k] := piece[k]; }
    }

    /** What the chunk at pos has, up to end. */
    method PieceAt(pos: nat, end: nat) returns (r: Option<seq<byte>>)
      requires Valid() && pos < end <= |file|
      modifies this
      ensures Valid() && old(requests) <= requests <= old(requests) + 1
      ensures r.None? <==> RefusedOne(old(requests), requests)
      ensures r.Some? ==> |r.value| == InChunk(pos, end) <= end - pos && r.value == file[pos..pos + |r.value|]
      ensures used == old(used) + (if r.Some? then [pos / CHUNK_SIZE] else [])
    {
      ChunkCovers(file, pos);
      var idx := pos / CHUNK_SIZE;
      var got := GetChunk(idx);
      if got.None? { return None; }
      var chunk := got.value;
      var inChunkOff := pos - idx * CHUNK_SIZE;
      PieceIs(file, pos, end, idx, inChunkOff, chunk);
      var want := Min(end - pos, |chunk| - inChunkOff);
      r := Some(chunk[inChunkOff..inChunkOff + want]);
    }

    /** One turn of the read loop: that piece, copied to buffer[at..]. */
    method CopyFromChunk(buffer: array<byte>, at: nat, pos: nat, end: nat) returns (r: Option<nat>)
      requires Valid() && pos < end <= |file| && at + (end - pos) <= buffer.Length
      modifies this, buffer
      ensures Valid() && old(requests) <= requests <= old(requests) + 1
      ensures r.None? <==> RefusedOne(old(requests), requests)
      ensures r.None? ==> buffer[..] == old(buffer[..])
      ensures used == old(used) + (if r.Some? then [pos / CHUNK_SIZE] else [])
      ensures r.Some? ==>
        r.value == InChunk(pos, end) && buffer[..] == Written(file, old(buffer[..]), at, pos, r.value)
    {
      var piece := PieceAt(pos, end);
      if piece.None? { return None; }
      WrittenIs(file, buffer[..], at, pos, |piece.value|);
      Set(buffer, at, piece.value);
      return Some(|piece.value|);
    }

    /** Turn k of a read that began with the buffer `b` and the chunks `start` used, and has copied n bytes. */
    method Turn(buffer: array<byte>, at: nat, pos: nat, end: nat, ghost b: seq<byte>, ghost offset: nat,
                ghost position: nat, ghost n: nat, ghost start: seq<nat>, ghost k: nat) returns (r: Option<nat>)
      requires Valid() && position <= pos < end <= |file| && at + (end - pos) <= buffer.Length == |b|
      requires pos == position + n == Stop(position, end, k) && at == offset + n
      requires buffer[..] == Written(file, b, offset, position, n) && used == start + Turns(position, end, k)
      modifies this, buffer
      ensures Valid() && old(requests) <= requests <= old(requests) + 1
      ensures r.None? <==> RefusedOne(old(requests), requests)
      ensures r.None? ==> buffer[..] == old(buffer[..]) && used == old(used)
      ensures r.Some? ==>
        && 0 < r.value <= end - pos && pos + r.value == Stop(position, end, k + 1)
        && buffer[..] == Written(file, b, offset, position, n + r.value) && used == start + Turns(position, end, k + 1)
    {
      r := CopyFromChunk(buffer, at, pos, end);
      if r.None? { return; }
      WrittenOn(file, b, offset, position, n, at, pos, r.value);
      TurnsOn(start, position, end, k, pos);
    }

    /** The loop of a read, up to `end`, with k turns done. */
    method ReadLoop(buffer: array<byte>, offset: nat, position: nat, end: nat) returns (r: Option<nat>, ghost k: nat)
      requires Valid() && position <= end <= |file| && offset + (end - position) <= buffer.Length
      modifies this, buffer
      ensures Valid() && old(requests) <= requests
      ensures r.None? <==> RefusedOne(old(requests), requests)
      ensures r.None? ==> !RefusedOne(old(requests), requests - 1)
      ensures var p := Stop(position, end, k);
        && (if r.None? then p < end else p == end && r.value == end - position)
        && buffer[..] == Written(file, old(buffer[..]), offset, position, p - position)
      ensures used == old(used) + Turns(position, end, k)
    {
      var pos, at := position, offset;
      ghost var b, n := buffer[..], 0;
      k := 0;
      while pos < end
        invariant Valid() && pos == position + n == Stop(position, end, k) && at == offset + n
        invariant buffer[..] == Written(file, b, offset, position, n) && used == old(used) + Turns(position, end, k)
        invariant old(requests) <= requests && !RefusedOne(old(requests), requests)
        decreases end - pos
      {
        var want := Turn(buffer, at, pos, end, b, offset, position, n, old(used), k);
        if want.None? { return None, k; }
        pos, at, n, k := pos + want.value, at + want.value, n + want.value, k + 1;
      }
      r := Some(pos - position);
    }

    /**
     * stream_ops.read: the slice of the file at `position`, clipped at its end,
     * copied to buffer[offset..]. It fails exactly if a request of this read was
     * refused, and then at the first refusal. In either case n bytes were copied,
     * and their chunks, in order, and no others were used.
     */
    method Read(buffer: array<byte>, offset: nat, length: nat, position: nat) returns (r: Option<nat>, ghost n: nat)
      requires Valid() && offset + length <= buffer.Length
      modifies this, buffer
      ensures Valid() && old(requests) <= requests
      ensures r.None? <==> RefusedOne(old(requests), requests)
      ensures r.None? ==> !RefusedOne(old(requests), requests - 1)
      ensures if r.None? then n < Clip(|file|, position, length) else r.value == n == Clip(|file|, position, length)
      ensures buffer[..] == old(buffer[..])[..offset] + Slice(file, position, n) + old(buffer[..])[offset + n..]
      ensures used == old(used) + Touched(position, position + n)
    {
      WrittenIs(file, buffer[..], offset, position, 0);
      if position >= |file| { return Some(0), 0; }
      var end := Min(position + length, |file|);
      ghost var k;
      r, k := ReadLoop(buffer, offset, position, end);
      TurnsTouch(position, end, k);
      n := Stop(position, end, k) - position;
      WrittenIs(file, old(buffer[..]), offset, position, n);
    }
  }

  datatype Request = Request(offset: nat, length: nat, position: nat)

  /** The chunks a sequence of reads uses, in order. */
  function AllTouched(size: nat, wanted: seq<Request>): seq<nat> {
    if wanted == [] then []
    else
      var n := |wanted| - 1;
      var q := wanted[n];
      AllTouched(size, wanted[..n]) + Touched(q.position, q.position + Clip(size, q.position, q.length))
  }

  lemma AllTouchedTurn(start: seq<nat>, size: nat, wanted: seq<Request>, i: nat)
    requires i < |wanted|
    ensures var q := wanted[i];
      start + AllTouched(size, wanted[..i]) + Touched(q.position, q.position + Clip(size, q.position, q.length))
      == start + AllTouched(size, wanted[..i + 1])
  {
    assert wanted[..i + 1][..i] == wanted[..i];
  }

  /** The reads so far got their slices of the file. */
  predicate Served(file: seq<byte>, wanted: seq<Request>, got: seq<seq<byte>>) {
    |got| <= |wanted| && forall i | 0 <= i < |got| :: got[i] == Slice(file, wanted[i].position, wanted[i].length)
  }

  lemma ServedTurn(file: seq<byte>, wanted: seq<Request>, got: seq<seq<byte>>, bytes: seq<byte>)
    requires Served(file, wanted, got) && |got| < |wanted|
    requires bytes == Slice(file, wanted[|got|].position, wanted[|got|].length)
    ensures Served(file, wanted, got + [bytes])
  {}

  method ReadOne(b: Backend, buffer: array<byte>, q: Request) returns (bytes: seq<byte>)
    requires b.Valid() && q.offset + q.length <= buffer.Length && forall n: nat :: !b.server(n).Refused?
    modifies b, buffer
    ensures b.Valid() && bytes == Slice(b.file, q.position, q.length)
    ensures b.used == old(b.used) + Touched(q.position, q.position + Clip(|b.file|, q.position, q.length))
  {
    var n, _ := b.Read(buffer, q.offset, q.length, q.position);
    assert n.Some?;
    bytes := buffer[q.offset..q.offset + n.value];
  }

  /**
   * A server that never refuses: every read of every sequence of reads succeeds with
   * the clipped slice, and the cache is that of the chunks of all the reads in order.
   */
  method ReadAll(b: Backend, buffer: array<byte>, wanted: seq<Request>) returns (got: seq<seq<byte>>)
    requires b.Valid() && forall n: nat :: !b.server(n).Refused?
    requires forall i | 0 <= i < |wanted| :: wanted[i].offset + wanted[i].length <= buffer.Length
    modifies b, buffer
    ensures b.Valid() && b.used == old(b.used) + AllTouched(|b.file|, wanted)
    ensures |got| == |wanted| && Served(b.file, wanted, got)
  {
    got := [];
    for i := 0 to |wanted|
      invariant b.Valid() && |got| == i && Served(b.file, wanted, got)
      invariant b.used == old(b.used) + AllTouched(|b.file|, wanted[..i])
    {
      AllTouchedTurn(old(b.used), |b.file|, wanted, i);
      var bytes := ReadOne(b, buffer, wanted[i]);
      ServedTurn(b.file, wanted, got, bytes);
      got := got + [bytes];
    }
    assert wanted[..|wanted|] == wanted;
  }

  lemma LastInOrder(h: seq<nat>, n: nat, keys: seq<nat>)
    requires keys == Last(Recency(h), n)
    ensures |keys| <= n && Distinct(keys) && forall i | 0 <= i < |keys| :: keys[i] in h
    ensures forall i, j | 0 <= i < j < |keys| :: LastUse(h, keys[i]) < LastUse(h, keys[j])
  {
    RecencyMeaning(h);
    var order := Recency(h);
    var skip := |order| - |keys|;
    assert forall i | 0 <= i < |keys| :: keys[i] == order[skip + i];
  }

  /** A chunk is cached exactly when fewer than 32 others were used after its last use. */
  lemma CachedIffRecent(b: Backend, idx: nat)
    requires b.Valid()
    ensures idx in Keys(b.cache) <==> idx in b.used && |Since(b.used, idx)| < MAX_CACHED_CHUNKS
    ensures |b.cache| <= MAX_CACHED_CHUNKS && Distinct(Keys(b.cache))
    ensures forall i, j | 0 <= i < j < |b.cache| ::
      b.cache[i].key in b.used && b.cache[j].key in b.used
      && LastUse(b.used, b.cache[i].key) < LastUse(b.used, b.cache[j].key)
  {
    HeldIffRecent(b.used, MAX_CACHED_CHUNKS, idx);
    var keys := Keys(b.cache);
    LastInOrder(b.used, MAX_CACHED_CHUNKS, keys);
    assert forall i | 0 <= i < |keys| :: b.cache[i].key == keys[i];
  }
}
