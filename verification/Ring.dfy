/**
 * One direction of a proxied connection: a single-producer, single-consumer
 * byte ring together with what its two users have in flight.
 *
 * `taken` is every byte ever received from the source socket and `delivered`
 * every byte ever accepted by the destination socket. Positions are absolute:
 * byte i of the stream lives in slot i % RING_CAP while it is in the ring.
 */
module Ring {
  import opened Bytes

  const RING_CAP: nat := 4194304

  /** What the producer holds between ring_writable and ring_pcommit. */
  datatype Producer = PIdle | Room(k: nat) | Got(n: nat, k: nat)

  /** What the consumer holds between ring_readable and ring_ccommit. */
  datatype Consumer = CIdle | Avail(k: nat) | Put(w: nat, k: nat)

  datatype Pipe = Pipe(
    buf: seq<byte>, head: nat, tail: nat,
    prod: Producer, cons: Consumer,
    taken: seq<byte>, delivered: seq<byte>, drained: bool)

  /** Bytes received into the buffer whose commit is still to come. */
  function Uncommitted(p: Pipe): nat {
    if p.prod.Got? then p.prod.n else 0
  }

  /** Bytes sent from the buffer whose commit is still to come. */
  function Unreleased(p: Pipe): nat {
    if p.cons.Put? then p.cons.w else 0
  }

  /** Contiguous room at the head, as ring_writable reports it. */
  function Writable(p: Pipe): int {
    Min(RING_CAP - (p.head - p.tail), RING_CAP - p.head % RING_CAP)
  }

  /** Contiguous data at the tail, as ring_readable reports it. */
  function Readable(p: Pipe): int {
    Min(p.head - p.tail, RING_CAP - p.tail % RING_CAP)
  }

  // ---- The ring operations, each one atomic access to head or tail --------

  function Reserve(p: Pipe): Pipe {
    if Writable(p) <= 0 then p.(prod := PIdle) else p.(prod := Room(Writable(p)))
  }

  function Receive(p: Pipe, data: seq<byte>): Pipe
    requires p.prod.Room? && p.head % RING_CAP + |data| <= |p.buf|
  {
    var off := p.head % RING_CAP;
    p.(buf := p.buf[..off] + data + p.buf[off + |data|..],
       prod := Got(|data|, p.prod.k),
       taken := p.taken + data)
  }

  function CommitHead(p: Pipe): Pipe {
    p.(head := p.head + Uncommitted(p), prod := PIdle)
  }

  function Peek(p: Pipe): Pipe {
    if Readable(p) <= 0 then p.(cons := CIdle) else p.(cons := Avail(Readable(p)))
  }

  function Deliver(p: Pipe, w: nat): Pipe
    requires p.cons.Avail? && p.tail % RING_CAP + w <= |p.buf|
  {
    var off := p.tail % RING_CAP;
    p.(delivered := p.delivered + p.buf[off..off + w], cons := Put(w, p.cons.k))
  }

  function CommitTail(p: Pipe): Pipe {
    p.(tail := p.tail + Unreleased(p), cons := CIdle)
  }

  function DrainTo(p: Pipe, h: nat): Pipe {
    p.(tail := h, drained := true)
  }

  // ---- Invariant ------------------------------------------------------------

  predicate Sized(p: Pipe) {
    && |p.buf| == RING_CAP
    && p.tail <= p.head <= p.tail + RING_CAP
    && |p.taken| == p.head + Uncommitted(p)
  }

  predicate ProducerFits(p: Pipe) {
    match p.prod
    case PIdle => true
    case Room(k) => 0 < k && p.head + k <= p.tail + RING_CAP && p.head % RING_CAP + k <= RING_CAP
    case Got(n, k) => 0 < n <= k && p.head + k <= p.tail + RING_CAP && p.head % RING_CAP + k <= RING_CAP
  }

  predicate ConsumerFits(p: Pipe) {
    match p.cons
    case CIdle => true
    case Avail(k) => 0 < k && p.tail + k <= p.head && p.tail % RING_CAP + k <= RING_CAP
    case Put(w, k) => 0 < w <= k && p.tail + k <= p.head && p.tail % RING_CAP + k <= RING_CAP
  }

  /** Every undelivered byte of the stream is in its slot. */
  predicate Stored(p: Pipe)
    requires Sized(p)
  {
    forall i | p.tail <= i < |p.taken| :: p.buf[i % RING_CAP] == p.taken[i]
  }

  predicate Prefixed(p: Pipe) {
    && p.delivered <= p.taken
    && |p.delivered| <= p.tail + Unreleased(p)
    && (!p.drained ==> |p.delivered| == p.tail + Unreleased(p))
  }

  predicate Inv(p: Pipe) {
    Sized(p) && ProducerFits(p) && ConsumerFits(p) && Stored(p) && Prefixed(p)
  }

  /** The bytes between tail and head, in stream order. */
  function Contents(p: Pipe): seq<byte>
    requires Sized(p)
  {
    seq(p.head - p.tail, i requires 0 <= i => p.buf[(p.tail + i) % RING_CAP])
  }

  lemma SlotShift(a: nat, d: nat)
    requires a % RING_CAP + d < RING_CAP
    ensures (a + d) % RING_CAP == a % RING_CAP + d
  {
  }

  /** Two positions less than a capacity apart never share a slot. */
  lemma SlotsDistinct(i: nat, j: nat)
    requires i < j < i + RING_CAP
    ensures i % RING_CAP != j % RING_CAP
  {
  }

  // ---- Each operation keeps the invariant -------------------------------------

  lemma ReserveKeeps(p: Pipe)
    requires Inv(p) && p.prod.PIdle?
    ensures Inv(Reserve(p))
  {
  }

  lemma ReceiveKeeps(p: Pipe, data: seq<byte>)
    requires Inv(p) && p.prod.Room? && 0 < |data| <= p.prod.k
    ensures Inv(Receive(p, data))
  {
    var q := Receive(p, data);
    var off := p.head % RING_CAP;
    forall i | q.tail <= i < |q.taken| ensures q.buf[i % RING_CAP] == q.taken[i] {
      if i < p.head {
        if off <= i % RING_CAP < off + |data| {
          SlotShift(p.head, i % RING_CAP - off);
          SlotsDistinct(i, p.head + (i % RING_CAP - off));
        }
      } else {
        SlotShift(p.head, i - p.head);
      }
    }
  }

  lemma CommitHeadKeeps(p: Pipe)
    requires Inv(p)
    ensures Inv(CommitHead(p))
  {
  }

  lemma PeekKeeps(p: Pipe)
    requires Inv(p) && p.cons.CIdle?
    ensures Inv(Peek(p))
  {
  }

  /** A run of slots that does not wrap holds the matching run of the stream. */
  lemma SlotRun(p: Pipe, from: nat, w: nat)
    requires Sized(p) && Stored(p) && p.tail <= from && from + w <= |p.taken|
    requires from % RING_CAP + w <= RING_CAP
    ensures p.buf[from % RING_CAP..from % RING_CAP + w] == p.taken[from..from + w]
  {
    var run := p.buf[from % RING_CAP..from % RING_CAP + w];
    forall d | 0 <= d < w ensures run[d] == p.taken[from..from + w][d] {
      SlotShift(from, d);
      assert p.buf[(from + d) % RING_CAP] == p.taken[from + d];
    }
  }

  lemma DeliverKeeps(p: Pipe, w: nat)
    requires Inv(p) && p.cons.Avail? && 0 < w <= p.cons.k && !p.drained
    ensures Inv(Deliver(p, w))
    ensures Deliver(p, w).delivered == p.taken[..p.tail + w]
  {
    SlotRun(p, p.tail, w);
    assert p.delivered == p.taken[..p.tail];
    assert p.taken[..p.tail] + p.taken[p.tail..p.tail + w] == p.taken[..p.tail + w];
  }

  lemma CommitTailKeeps(p: Pipe)
    requires Inv(p)
    ensures Inv(CommitTail(p))
  {
  }

  /** Draining from the consumer's side of the commit loses nothing already delivered. */
  lemma DrainKeeps(p: Pipe)
    requires Inv(p) && p.prod.PIdle? && p.cons.CIdle?
    ensures Inv(DrainTo(p, p.head))
  {
  }

  /** The stream is what was released, then the ring, then what is received but uncommitted. */
  predicate Accounted(p: Pipe)
    requires Sized(p)
  {
    && p.tail <= |p.delivered|
    && p.taken == p.delivered[..p.tail] + Contents(p) + p.taken[p.head..]
    && (p.prod.PIdle? && p.cons.CIdle? ==> p.taken == p.delivered + Contents(p))
  }

  lemma Conservation(p: Pipe)
    requires Inv(p)
    ensures !p.drained ==> Accounted(p)
  {
    assert Contents(p) == p.taken[p.tail..p.head];
    if !p.drained {
      assert p.delivered[..p.tail] == p.taken[..p.tail];
      assert p.taken == p.taken[..p.tail] + p.taken[p.tail..p.head] + p.taken[p.head..];
    }
  }
}
