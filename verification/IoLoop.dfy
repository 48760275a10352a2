/**
 * host_io and lkl_io are the same procedure seen from the two ends: receive
 * into one ring until end of file, send from the other until it is shut, then
 * pass a half-close on. This module is that procedure for one end, one atomic
 * access or socket call per step, with the other thread as interference.
 */
module IoLoop {
  import opened Bytes
  import opened Ring

  /** What a socket call or poll answers; a reply that does not fit the call stalls the thread. */
  datatype Reply =
    | Data(data: seq<byte>)   // recv/read: a positive count, with the bytes
    | Count(w: nat)           // send/write: a positive count
    | Again | Intr            // EAGAIN, EINTR
    | Closed                  // end of file, or any other error
    | Fine                    // poll without an error event; connect accepted

  datatype IoPc =
    | RdGate | RdLoop | Recv | RdCommit | RdEof
    | WrGate | WrLoop | Send | WrCommit | SendFailed
    | ShutGate | ShutEof | ShutHead | ShutTail(h: nat) | ShutCall | ShutStore
    | Outside

  /** This end's flags: its source is at end of file, its sink is shut; `issued` records SHUT_WR. */
  datatype Flags = Flags(eof: bool, shut: bool, issued: bool)

  /** One end: it produces into `inp` and consumes from `out`. */
  datatype End = End(pc: IoPc, f: Flags, inp: Pipe, out: Pipe)

  /** A receive that the reservation allows. */
  predicate Fits(p: Pipe, r: Reply) {
    r.Data? && p.prod.Room? && 0 < |r.data| <= p.prod.k && p.head % RING_CAP + |r.data| <= |p.buf|
  }

  /** A send that the peeked data allows. */
  predicate Sends(p: Pipe, r: Reply) {
    r.Count? && p.cons.Avail? && 0 < r.w <= p.cons.k && p.tail % RING_CAP + r.w <= |p.buf|
  }

  function ReceiveStep(s: End, r: Reply): End {
    match s.pc
    case RdGate => s.(pc := if s.f.eof then WrGate else RdLoop)
    case RdLoop => s.(inp := Reserve(s.inp), pc := if Writable(s.inp) <= 0 then WrGate else Recv)
    case Recv =>
      if Fits(s.inp, r) then s.(inp := Receive(s.inp, r.data), pc := RdCommit)
      else if r.Again? then s.(inp := s.inp.(prod := PIdle), pc := WrGate)
      else if r.Intr? then s.(inp := s.inp.(prod := PIdle), pc := RdLoop)
      else if r.Closed? then s.(inp := s.inp.(prod := PIdle), pc := RdEof)
      else s
    case RdCommit =>
      s.(inp := CommitHead(s.inp),
         pc := if s.inp.prod.Got? && s.inp.prod.n < s.inp.prod.k then WrGate else RdLoop)
    case RdEof => s.(f := s.f.(eof := true), pc := WrGate)
    case _ => s
  }

  function SendStep(s: End, r: Reply): End {
    match s.pc
    case WrGate => s.(pc := if s.f.shut then ShutGate else WrLoop)
    case WrLoop => s.(out := Peek(s.out), pc := if Readable(s.out) <= 0 then ShutGate else Send)
    case Send =>
      if Sends(s.out, r) then s.(out := Deliver(s.out, r.w), pc := WrCommit)
      else if r.Again? then s.(out := s.out.(cons := CIdle), pc := ShutGate)
      else if r.Intr? then s.(out := s.out.(cons := CIdle), pc := WrLoop)
      else if r.Closed? then s.(out := s.out.(cons := CIdle), pc := SendFailed)
      else s
    case WrCommit =>
      s.(out := CommitTail(s.out),
         pc := if s.out.cons.Put? && s.out.cons.w < s.out.cons.k then ShutGate else WrLoop)
    case _ => s
  }

  /** The half-close: own sink open, peer at end of file, ring empty, then SHUT_WR. */
  function ShutStep(s: End, peerEof: bool): End {
    match s.pc
    case ShutGate => s.(pc := if s.f.shut then Outside else ShutEof)
    case ShutEof => s.(pc := if peerEof then ShutHead else Outside)
    case ShutHead => s.(pc := ShutTail(s.out.head))
    case ShutTail(h) => s.(pc := if s.out.tail == h then ShutCall else Outside)
    case ShutCall => s.(f := s.f.(issued := true), pc := ShutStore)
    case ShutStore => s.(f := s.f.(shut := true), pc := Outside)
    case _ => s
  }

  predicate Receiving(pc: IoPc) { pc.RdLoop? || pc.Recv? || pc.RdCommit? || pc.RdEof? }
  predicate Sending(pc: IoPc) { pc.WrLoop? || pc.Send? || pc.WrCommit? || pc.SendFailed? }
  predicate Shutting(pc: IoPc) {
    pc.ShutEof? || pc.ShutHead? || pc.ShutTail? || pc.ShutCall? || pc.ShutStore?
  }

  /** One step of the procedure; SendFailed is left to the thread, Outside does nothing. */
  function IoStep(s: End, peerEof: bool, r: Reply): End {
    if s.pc.RdGate? || Receiving(s.pc) then ReceiveStep(s, r)
    else if s.pc.WrGate? || Sending(s.pc) then SendStep(s, r)
    else ShutStep(s, peerEof)
  }

  // ---- Invariant of one end -------------------------------------------------------

  predicate Held(s: End) {
    && (s.inp.prod.Room? <==> s.pc.Recv?) && (s.inp.prod.Got? <==> s.pc.RdCommit?)
    && (s.out.cons.Avail? <==> s.pc.Send?) && (s.out.cons.Put? <==> s.pc.WrCommit?)
  }

  /** A raised flag means this end is out of that loop for good. */
  predicate Gated(s: End) {
    && (Receiving(s.pc) ==> !s.f.eof)
    && (Sending(s.pc) || Shutting(s.pc) ==> !s.f.shut)
    && (s.out.drained ==> s.f.shut)
  }

  predicate ShutKnown(s: End, peerEof: bool) {
    && (s.pc.ShutHead? || s.pc.ShutTail? || s.pc.ShutCall? || s.pc.ShutStore? ==> peerEof)
    && (s.pc.ShutTail? ==> s.pc.h == s.out.head)
    && (s.pc.ShutCall? || s.pc.ShutStore? ==> s.out.tail == s.out.head)
  }

  /** Once SHUT_WR is out, everything ever taken for this sink has been delivered to it. */
  predicate ShutLossless(s: End, peerEof: bool) {
    s.f.issued ==>
      peerEof && (s.f.shut || s.pc.ShutStore?) && |s.out.delivered| == |s.out.taken|
  }

  predicate EndInv(s: End, peerEof: bool) {
    Held(s) && Gated(s) && ShutKnown(s, peerEof) && ShutLossless(s, peerEof)
  }

  /** The peer's end of `out` is at rest once the peer is at end of file. */
  predicate PeerQuiet(s: End, peerEof: bool) {
    peerEof ==> s.out.prod.PIdle?
  }

  // ---- What one step may do, and what it may suffer ----------------------------------

  /** A change made by the producer, who makes none once `stopped`. */
  predicate ProducerSide(p: Pipe, q: Pipe, stopped: bool) {
    && q.tail == p.tail && q.cons == p.cons && q.delivered == p.delivered && q.drained == p.drained
    && (stopped ==> q == p)
  }

  /** A change made by the consumer, who makes none once `stopped`. */
  predicate ConsumerSide(p: Pipe, q: Pipe, stopped: bool) {
    && q.buf == p.buf && q.head == p.head && q.prod == p.prod && q.taken == p.taken && q.drained == p.drained
    && (stopped ==> q == p)
  }

  /** What a step of this end leaves alone. */
  predicate Guarantee(s: End, t: End) {
    && (s.f.eof ==> t.f.eof) && (s.f.shut ==> t.f.shut)
    && ProducerSide(s.inp, t.inp, s.f.eof)
    && ConsumerSide(s.out, t.out, s.f.shut)
  }

  lemma ReceiveGuarantee(s: End, r: Reply)
    requires Held(s) && Gated(s)
    ensures Guarantee(s, ReceiveStep(s, r))
  {
  }

  lemma SendGuarantee(s: End, r: Reply)
    requires Held(s) && Gated(s)
    ensures Guarantee(s, SendStep(s, r))
  {
  }

  lemma IoGuarantee(s: End, peerEof: bool, r: Reply)
    requires Held(s) && Gated(s)
    ensures Guarantee(s, IoStep(s, peerEof, r))
  {
    if s.pc.RdGate? || Receiving(s.pc) { ReceiveGuarantee(s, r); }
    else if s.pc.WrGate? || Sending(s.pc) { SendGuarantee(s, r); }
  }

  lemma ReceivePipesKept(s: End, r: Reply)
    requires Held(s) && Inv(s.inp) && Inv(s.out)
    ensures Inv(ReceiveStep(s, r).inp) && Inv(ReceiveStep(s, r).out)
  {
    match s.pc
    case RdLoop => ReserveKeeps(s.inp);
    case Recv => if Fits(s.inp, r) { ReceiveKeeps(s.inp, r.data); }
    case RdCommit => CommitHeadKeeps(s.inp);
    case _ =>
  }

  lemma SendPipesKept(s: End, r: Reply)
    requires Held(s) && Gated(s) && Inv(s.inp) && Inv(s.out)
    ensures Inv(SendStep(s, r).inp) && Inv(SendStep(s, r).out)
  {
    match s.pc
    case WrLoop => PeekKeeps(s.out);
    case Send => if Sends(s.out, r) { DeliverKeeps(s.out, r.w); }
    case WrCommit => CommitTailKeeps(s.out);
    case _ =>
  }

  /** Steps of this end keep both pipes well formed. */
  lemma IoPipesKept(s: End, peerEof: bool, r: Reply)
    requires Held(s) && Gated(s) && Inv(s.inp) && Inv(s.out)
    ensures Inv(IoStep(s, peerEof, r).inp) && Inv(IoStep(s, peerEof, r).out)
  {
    if s.pc.RdGate? || Receiving(s.pc) { ReceivePipesKept(s, r); }
    else if s.pc.WrGate? || Sending(s.pc) { SendPipesKept(s, r); }
  }

  lemma ReceiveKeepsEnd(s: End, peerEof: bool, r: Reply)
    requires EndInv(s, peerEof) && (s.pc.RdGate? || Receiving(s.pc))
    ensures EndInv(ReceiveStep(s, r), peerEof)
  {
  }

  lemma SendKeepsEnd(s: End, peerEof: bool, r: Reply)
    requires EndInv(s, peerEof) && (s.pc.WrGate? || Sending(s.pc))
    ensures EndInv(SendStep(s, r), peerEof)
  {
  }

  lemma ShutKeepsEnd(s: End, peerEof: bool)
    requires EndInv(s, peerEof) && (s.pc.ShutGate? || Shutting(s.pc) || s.pc.Outside?)
    requires Inv(s.out) && PeerQuiet(s, peerEof)
    ensures EndInv(ShutStep(s, peerEof), peerEof)
  {
  }

  lemma IoKeepsEnd(s: End, peerEof: bool, r: Reply)
    requires EndInv(s, peerEof) && Inv(s.out) && PeerQuiet(s, peerEof)
    ensures EndInv(IoStep(s, peerEof, r), peerEof)
  {
    if s.pc.RdGate? || Receiving(s.pc) { ReceiveKeepsEnd(s, peerEof, r); }
    else if s.pc.WrGate? || Sending(s.pc) { SendKeepsEnd(s, peerEof, r); }
    else { ShutKeepsEnd(s, peerEof); }
  }

  /** Interference: a peer step that keeps its own guarantee keeps this end's invariant. */
  lemma Interference(s: End, t: End, peerEof: bool, peerEof': bool)
    requires EndInv(s, peerEof) && (peerEof ==> peerEof')
    requires t.pc == s.pc && t.f == s.f
    requires ProducerSide(s.out, t.out, peerEof)
    requires ConsumerSide(s.inp, t.inp, false)
    ensures EndInv(t, peerEof')
  {
  }

  /** At rest: neither loop nor half-close is under way. */
  predicate Resting(pc: IoPc) { pc.Outside? || pc.RdGate? || pc.WrGate? || pc.ShutGate? }

  /** Raising flags while at rest, or moving between resting points, keeps the invariant. */
  lemma RaisedKeepsEnd(s: End, t: End, peerEof: bool, peerEof': bool)
    requires EndInv(s, peerEof) && (peerEof ==> peerEof')
    requires t.inp == s.inp && t.out == s.out && t.f.issued == s.f.issued
    requires (s.f.eof ==> t.f.eof) && (s.f.shut ==> t.f.shut)
    requires (t.pc == s.pc && t.f == s.f) || (Resting(s.pc) && Resting(t.pc))
    ensures EndInv(t, peerEof')
  {
  }
}
