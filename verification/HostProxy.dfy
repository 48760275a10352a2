/**
 * The host proxy splice for one connection: the host thread and the LKL thread
 * as two program counters over shared atomics, one atomic access per step.
 *
 * Socket results are chosen by the environment, so a run is any sequence of
 * events: which thread moves and what its socket answers.
 */
module HostProxy {
  import opened Ring
  import opened IoLoop

  datatype HostPc =
    | HTop                             // poll result for this connection
    | HErrShut | HErrLoad | HErrReq    // POLLERR/HUP/NVAL, after host_read_eof
    | HSweep                           // is lkl_fd open?
    | HIo(io: IoPc)                    // host_io
    | HFailEof | HFailLoad | HFailReq  // host_io, send failed, after host_wr_shut
    | HDone(d: DonePc)                 // conn_done
    | HFree | HGone                    // conn_free

  /** conn_done: the four flags in order, then both rings. */
  datatype DonePc =
    | AtHostEof | AtHostShut | AtLklEof | AtLklShut
    | AtInHead | AtInTail(h: nat) | AtOutHead | AtOutTail(h: nat)

  datatype LklPc =
    | LTop | LConnect                  // lkl_connect_new
    | LFail(c: FailPc)                 // connect failed
    | LForce                           // lkl_do_force_close
    | LClose(x: ClosePc)               // a forced close, under the table lock
    | LPoll | LErrEof | LErrShut
    | LIo(io: IoPc)                    // lkl_io

  datatype FailPc = SetHostEof | SetHostShut | SetLklEof | SetLklShut

  datatype ClosePc =
    | TakeFd | SetEof | SetShut | InHead | InTail(h: nat) | OutHead | OutTail(h: nat)

  /** The connection; `connected`, `forced` and the `issued` flags are histories no code reads. */
  datatype Conn = Conn(
    h2l: Pipe, l2h: Pipe, host: Flags, lkl: Flags,
    closeReq: bool, lklOpen: bool, attached: bool,
    hpc: HostPc, lpc: LklPc,
    connected: bool,      // lkl_fd was set at some time
    forced: bool)         // a forced close began

  datatype Event = Host(r: Reply) | Lkl(r: Reply)

  function HostEnd(s: Conn): End {
    End(if s.hpc.HIo? then s.hpc.io else Outside, s.host, s.h2l, s.l2h)
  }

  function LklEnd(s: Conn): End {
    End(if s.lpc.LIo? then s.lpc.io else Outside, s.lkl, s.l2h, s.h2l)
  }

  /** A connection as host_accept attaches it; malloc leaves the buffers arbitrary. */
  predicate Init(s: Conn) {
    && |s.h2l.buf| == RING_CAP && s.h2l == Pipe(s.h2l.buf, 0, 0, PIdle, CIdle, [], [], false)
    && |s.l2h.buf| == RING_CAP && s.l2h == Pipe(s.l2h.buf, 0, 0, PIdle, CIdle, [], [], false)
    && s.host == Flags(false, false, false) && s.lkl == Flags(false, false, false)
    && !s.closeReq && !s.lklOpen && s.attached && s.hpc == HTop && s.lpc == LTop
    && !s.connected && !s.forced
  }

  // ---- Host thread -----------------------------------------------------------------

  function HostIoStep(s: Conn, r: Reply): Conn
    requires s.hpc.HIo?
  {
    if s.hpc.io.SendFailed? then s.(host := s.host.(shut := true), hpc := HFailEof)
    else
      var t := IoStep(HostEnd(s), s.lkl.eof, r);
      s.(h2l := t.inp, l2h := t.out, host := t.f,
         hpc := if t.pc.Outside? then HDone(AtHostEof) else HIo(t.pc))
  }

  function HostDoneStep(s: Conn): Conn
    requires s.hpc.HDone?
  {
    s.(hpc :=
      match s.hpc.d
      case AtHostEof => if s.host.eof then HDone(AtHostShut) else HTop
      case AtHostShut => if s.host.shut then HDone(AtLklEof) else HTop
      case AtLklEof => if s.lkl.eof then HDone(AtLklShut) else HTop
      case AtLklShut => if s.lkl.shut then HDone(AtInHead) else HTop
      case AtInHead => HDone(AtInTail(s.h2l.head))
      case AtInTail(h) => if s.h2l.tail == h then HDone(AtOutHead) else HTop
      case AtOutHead => HDone(AtOutTail(s.l2h.head))
      case AtOutTail(h) => if s.l2h.tail == h then HFree else HTop)
  }

  /** Where the host thread goes from a point outside host_io and conn_done. */
  function HostGoes(s: Conn, r: Reply): HostPc {
    match s.hpc
    case HTop => if r.Closed? then HErrShut else HSweep
    case HErrShut => HErrLoad
    case HErrLoad => if s.lkl.eof then HSweep else HErrReq
    case HErrReq => HSweep
    case HSweep => if s.lklOpen then HIo(RdGate) else HDone(AtHostEof)
    case HFailEof => HFailLoad
    case HFailLoad => if s.lkl.eof then HIo(ShutGate) else HFailReq
    case HFailReq => HIo(ShutGate)
    // conn_free takes the table lock, which a forced close holds throughout
    case HFree => if s.lpc.LClose? then HFree else HGone
    case _ => s.hpc
  }

  /** The store made at that point: the poll error sets eof then shut, a failed send shut then eof. */
  function HostTopStep(s: Conn, r: Reply): Conn {
    s.(host := s.host.(eof := s.host.eof || (s.hpc.HTop? && r.Closed?) || s.hpc.HFailEof?,
                       shut := s.host.shut || s.hpc.HErrShut?),
       closeReq := s.closeReq || s.hpc.HErrReq? || s.hpc.HFailReq?,
       attached := s.attached && !(s.hpc.HFree? && !s.lpc.LClose?),
       hpc := HostGoes(s, r))
  }

  function HostStep(s: Conn, r: Reply): Conn {
    if s.hpc.HIo? then HostIoStep(s, r)
    else if s.hpc.HDone? then HostDoneStep(s)
    else HostTopStep(s, r)
  }

  // ---- LKL thread ------------------------------------------------------------------

  function LklIoStep(s: Conn, r: Reply): Conn
    requires s.lpc.LIo?
  {
    if s.lpc.io.SendFailed? then s.(lkl := s.lkl.(shut := true), lpc := LIo(ShutGate))
    else
      var t := IoStep(LklEnd(s), s.host.eof, r);
      s.(l2h := t.inp, h2l := t.out, lkl := t.f, lpc := if t.pc.Outside? then LTop else LIo(t.pc))
  }

  /** Close the socket, raise both flags, then drop what is in either ring. */
  function LklCloseStep(s: Conn): Conn
    requires s.lpc.LClose?
  {
    s.(lklOpen := s.lklOpen && !s.lpc.x.TakeFd?,
       forced := true,
       lkl := s.lkl.(eof := s.lkl.eof || s.lpc.x.SetEof?, shut := s.lkl.shut || s.lpc.x.SetShut?),
       h2l := if s.lpc.x.InTail? then DrainTo(s.h2l, s.lpc.x.h) else s.h2l,
       l2h := if s.lpc.x.OutTail? then DrainTo(s.l2h, s.lpc.x.h) else s.l2h,
       lpc :=
         match s.lpc.x
         case TakeFd => LClose(SetEof)
         case SetEof => LClose(SetShut)
         case SetShut => LClose(InHead)
         case InHead => LClose(InTail(s.h2l.head))
         case InTail(h) => LClose(OutHead)
         case OutHead => LClose(OutTail(s.l2h.head))
         case OutTail(h) => LPoll)
  }

  function LklFailStep(s: Conn): Conn
    requires s.lpc.LFail?
  {
    s.(host := s.host.(eof := s.host.eof || s.lpc.c.SetHostEof?, shut := s.host.shut || s.lpc.c.SetHostShut?),
       lkl := s.lkl.(eof := s.lkl.eof || s.lpc.c.SetLklEof?, shut := s.lkl.shut || s.lpc.c.SetLklShut?),
       lpc :=
         match s.lpc.c
         case SetHostEof => LFail(SetHostShut)
         case SetHostShut => LFail(SetLklEof)
         case SetLklEof => LFail(SetLklShut)
         case SetLklShut => LForce)
  }

  /** Where the LKL thread goes from a point outside lkl_io, a failed connect and a forced close. */
  function LklGoes(s: Conn, r: Reply): LklPc {
    match s.lpc
    case LTop => if s.attached && !s.lklOpen && !s.lkl.eof then LConnect else LForce
    case LConnect => if r.Closed? then LFail(SetHostEof) else LForce
    case LForce => if s.attached && s.lklOpen && s.closeReq then LClose(TakeFd) else LPoll
    case LPoll =>
      if !s.attached || !s.lklOpen || r.Intr? then LTop
      else if r.Closed? then LErrEof else LIo(RdGate)
    case LErrEof => LErrShut
    case LErrShut => LIo(RdGate)
    case _ => s.lpc
  }

  function LklTopStep(s: Conn, r: Reply): Conn {
    var opens := s.lpc.LConnect? && !r.Closed?;
    s.(lklOpen := s.lklOpen || opens,
       connected := s.connected || opens,
       lkl := s.lkl.(eof := s.lkl.eof || s.lpc.LErrEof?, shut := s.lkl.shut || s.lpc.LErrShut?),
       lpc := LklGoes(s, r))
  }

  function LklStep(s: Conn, r: Reply): Conn {
    if s.lpc.LIo? then LklIoStep(s, r)
    else if s.lpc.LClose? then LklCloseStep(s)
    else if s.lpc.LFail? then LklFailStep(s)
    else LklTopStep(s, r)
  }

  function Step(s: Conn, e: Event): Conn {
    match e
    case Host(r) => HostStep(s, r)
    case Lkl(r) => LklStep(s, r)
  }

  /** The state after a run. */
  function Exec(s: Conn, run: seq<Event>): Conn {
    if run == [] then s else Step(Exec(s, run[..|run| - 1]), run[|run| - 1])
  }

  /** conn_done, evaluated at one instant. */
  predicate Done(s: Conn) {
    && s.host.eof && s.host.shut && s.lkl.eof && s.lkl.shut
    && s.h2l.head == s.h2l.tail && s.l2h.head == s.l2h.tail
  }

  // ---- Invariant ---------------------------------------------------------------------

  /** Both ends are in order, and an end at end of file is at rest as a producer. */
  predicate Ends(s: Conn) {
    && EndInv(HostEnd(s), s.lkl.eof) && EndInv(LklEnd(s), s.host.eof)
    && (s.host.eof ==> s.h2l.prod.PIdle?) && (s.lkl.eof ==> s.l2h.prod.PIdle?)
    && Inv(s.h2l) && Inv(s.l2h)
  }

  predicate InHostIo(pc: HostPc) { pc.HIo? || pc.HFailEof? || pc.HFailLoad? || pc.HFailReq? }
  predicate InLklIo(pc: LklPc) { pc.LIo? || pc.LErrEof? || pc.LErrShut? }

  /** The life of lkl_fd: connected at most once, closed only by force. */
  predicate Lifecycle(s: Conn) {
    && (InHostIo(s.hpc) || InLklIo(s.lpc) || s.lklOpen || s.forced ==> s.connected)
    && (s.lpc.LConnect? || s.lpc.LFail? ==> !s.connected && !s.lkl.shut)
    && (s.lpc.LConnect? || (s.lpc.LFail? && !s.lpc.c.SetLklShut?) ==> !s.lkl.eof)
    && (s.lpc.LFail? && s.lpc.c.SetLklShut? ==> s.lkl.eof)
    && (s.connected && !s.lklOpen ==> s.forced)
    && (s.lkl.shut && !s.connected ==> s.lkl.eof)
    && (s.hpc.HGone? <==> !s.attached)
    && (s.lpc.LClose? ==> s.attached)
  }

  /** The host thread raises both its flags before it asks for a forced close. */
  predicate Requesting(s: Conn) {
    && (s.closeReq ==> s.host.eof && s.host.shut)
    && (s.hpc.HErrShut? ==> s.host.eof)
    && (s.hpc.HErrLoad? || s.hpc.HErrReq? ==> s.host.eof && s.host.shut)
    && (s.hpc.HFailEof? ==> s.host.shut)
    && (s.hpc.HFailLoad? || s.hpc.HFailReq? ==> s.host.eof && s.host.shut)
  }

  /** How far a forced close has come. */
  predicate Forcing(s: Conn) {
    && (s.forced ==> s.closeReq && !s.lklOpen && !InLklIo(s.lpc))
    && (s.lpc.LClose? && s.lpc.x.TakeFd? ==> s.lklOpen && s.closeReq && !s.forced)
    && (s.lpc.LClose? && !s.lpc.x.TakeFd? ==> s.forced)
    && (s.forced && s.lpc != LClose(SetEof) ==> s.lkl.eof)
    && (s.forced && s.lpc != LClose(SetEof) && s.lpc != LClose(SetShut) ==> s.lkl.shut)
    && (s.h2l.drained || s.l2h.drained ==> s.forced && s.lkl.eof && s.lkl.shut)
  }

  predicate Draining(s: Conn) {
    && (s.lpc.LClose? && s.lpc.x.InTail? ==> s.lpc.x.h == s.h2l.head)
    && (s.lpc.LClose? && s.lpc.x.OutTail? ==> s.lpc.x.h == s.l2h.head)
    && (s.forced && (s.lpc.LClose? ==> s.lpc.x.OutHead? || s.lpc.x.OutTail?) ==> s.h2l.tail == s.h2l.head)
    && (s.forced && !s.lpc.LClose? ==> s.l2h.tail == s.l2h.head)
  }

  predicate Flagged(s: Conn) {
    s.host.eof && s.host.shut && s.lkl.eof && s.lkl.shut
  }

  /** conn_done as the host thread has established it so far. */
  predicate Finishing(s: Conn) {
    && (s.hpc.HFree? || s.hpc.HGone? ==> Done(s))
    && (s.hpc.HDone? ==>
          match s.hpc.d
          case AtHostEof => true
          case AtHostShut => s.host.eof
          case AtLklEof => s.host.eof && s.host.shut
          case AtLklShut => s.host.eof && s.host.shut && s.lkl.eof
          case AtInHead => Flagged(s)
          case AtInTail(h) => Flagged(s) && h == s.h2l.head
          case AtOutHead => Flagged(s) && s.h2l.head == s.h2l.tail
          case AtOutTail(h) => Flagged(s) && s.h2l.head == s.h2l.tail && h == s.l2h.head)
  }

  predicate Control(s: Conn) {
    Lifecycle(s) && Requesting(s) && Forcing(s) && Draining(s) && Finishing(s)
  }

  predicate Good(s: Conn) {
    Ends(s) && Control(s)
  }

  // ---- Preservation: the host thread -----------------------------------------------------

  lemma HostIoEnds(s: Conn, r: Reply)
    requires Good(s) && s.hpc.HIo?
    ensures Ends(HostIoStep(s, r))
  {
    var a, b := HostEnd(s), LklEnd(s);
    var s' := HostIoStep(s, r);
    if !s.hpc.io.SendFailed? {
      IoPipesKept(a, s.lkl.eof, r);
      IoKeepsEnd(a, s.lkl.eof, r);
      IoGuarantee(a, s.lkl.eof, r);
      Interference(b, LklEnd(s'), s.host.eof, s'.host.eof);
    }
  }

  lemma HostIoControl(s: Conn, r: Reply)
    requires Good(s) && s.hpc.HIo?
    ensures Control(HostIoStep(s, r))
  {
    IoGuarantee(HostEnd(s), s.lkl.eof, r);
  }

  predicate Raised(f: Flags, g: Flags) {
    (f.eof ==> g.eof) && (f.shut ==> g.shut) && g.issued == f.issued
  }

  /** A host step that touches no ring and only raises flags, at rest. */
  predicate HostQuiet(s: Conn, t: Conn) {
    && t.h2l == s.h2l && t.l2h == s.l2h && t.lkl == s.lkl && t.lpc == s.lpc
    && Raised(s.host, t.host) && Resting(HostEnd(s).pc) && Resting(HostEnd(t).pc)
  }

  /** The same for the LKL thread, which may raise the host's flags while the host is at rest. */
  predicate LklQuiet(s: Conn, t: Conn) {
    && t.h2l == s.h2l && t.l2h == s.l2h && t.hpc == s.hpc
    && Raised(s.lkl, t.lkl) && Resting(LklEnd(s).pc) && Resting(LklEnd(t).pc)
    && (t.host == s.host || (Raised(s.host, t.host) && Resting(HostEnd(s).pc)))
  }

  lemma QuietStepKeepsEnds(s: Conn, t: Conn)
    requires Ends(s) && (HostQuiet(s, t) || LklQuiet(s, t))
    ensures Ends(t)
  {
    RaisedKeepsEnd(HostEnd(s), HostEnd(t), s.lkl.eof, t.lkl.eof);
    RaisedKeepsEnd(LklEnd(s), LklEnd(t), s.host.eof, t.host.eof);
  }

  lemma HostTopIsQuiet(s: Conn, r: Reply)
    requires !s.hpc.HIo?
    ensures HostQuiet(s, HostTopStep(s, r))
  {
  }

  lemma HostDoneIsQuiet(s: Conn)
    requires s.hpc.HDone?
    ensures HostQuiet(s, HostDoneStep(s))
  {
  }

  lemma LklTopIsQuiet(s: Conn, r: Reply)
    requires !s.lpc.LIo?
    ensures LklQuiet(s, LklTopStep(s, r))
  {
  }

  lemma LklFailIsQuiet(s: Conn)
    requires s.lpc.LFail? && Lifecycle(s)
    ensures LklQuiet(s, LklFailStep(s))
  {
  }

  lemma LklCloseIsQuiet(s: Conn)
    requires s.lpc.LClose? && !s.lpc.x.InTail? && !s.lpc.x.OutTail?
    ensures LklQuiet(s, LklCloseStep(s))
  {
  }

  lemma HostDoneControl(s: Conn)
    requires Control(s) && s.hpc.HDone?
    ensures Control(HostDoneStep(s))
  {
  }

  lemma HostTopControl(s: Conn, r: Reply)
    requires Control(s) && !s.hpc.HIo? && !s.hpc.HDone?
    ensures Control(HostTopStep(s, r))
  {
  }

  // ---- Preservation: the LKL thread ------------------------------------------------------

  lemma LklIoEnds(s: Conn, r: Reply)
    requires Good(s) && s.lpc.LIo?
    ensures Ends(LklIoStep(s, r))
  {
    var a, b := LklEnd(s), HostEnd(s);
    var s' := LklIoStep(s, r);
    if !s.lpc.io.SendFailed? {
      IoPipesKept(a, s.host.eof, r);
      IoKeepsEnd(a, s.host.eof, r);
      IoGuarantee(a, s.host.eof, r);
      Interference(b, HostEnd(s'), s.lkl.eof, s'.lkl.eof);
    }
  }

  lemma LklIoControl(s: Conn, r: Reply)
    requires Good(s) && s.lpc.LIo?
    ensures Control(LklIoStep(s, r))
  {
    IoGuarantee(LklEnd(s), s.host.eof, r);
  }

  lemma LklCloseControl(s: Conn)
    requires Control(s) && s.lpc.LClose?
    ensures Control(LklCloseStep(s))
  {
  }

  lemma LklCloseKept(s: Conn)
    requires Good(s) && s.lpc.LClose?
    ensures Good(LklCloseStep(s))
  {
    LklCloseControl(s);
    match s.lpc.x
    case InTail(h) => DrainKeeps(s.h2l);
    case OutTail(h) => DrainKeeps(s.l2h);
    case _ =>
      LklCloseIsQuiet(s);
      QuietStepKeepsEnds(s, LklCloseStep(s));
  }

  lemma LklFailControl(s: Conn)
    requires Control(s) && s.lpc.LFail?
    ensures Control(LklFailStep(s))
  {
  }

  lemma LklTopControl(s: Conn, r: Reply)
    requires Control(s) && !s.lpc.LIo? && !s.lpc.LClose? && !s.lpc.LFail?
    ensures Control(LklTopStep(s, r))
  {
  }

  // ---- Every run ------------------------------------------------------------------------

  lemma HostStepKeeps(s: Conn, r: Reply)
    requires Good(s)
    ensures Good(HostStep(s, r))
  {
    if s.hpc.HIo? {
      HostIoEnds(s, r);
      HostIoControl(s, r);
    } else if s.hpc.HDone? {
      HostDoneControl(s);
      HostDoneIsQuiet(s);
      QuietStepKeepsEnds(s, HostDoneStep(s));
    } else {
      HostTopControl(s, r);
      HostTopIsQuiet(s, r);
      QuietStepKeepsEnds(s, HostTopStep(s, r));
    }
  }

  lemma LklStepKeeps(s: Conn, r: Reply)
    requires Good(s)
    ensures Good(LklStep(s, r))
  {
    if s.lpc.LIo? {
      LklIoEnds(s, r);
      LklIoControl(s, r);
    } else if s.lpc.LClose? {
      LklCloseKept(s);
    } else if s.lpc.LFail? {
      LklFailControl(s);
      LklFailIsQuiet(s);
      QuietStepKeepsEnds(s, LklFailStep(s));
    } else {
      LklTopControl(s, r);
      LklTopIsQuiet(s, r);
      QuietStepKeepsEnds(s, LklTopStep(s, r));
    }
  }

  /** The invariant holds after every run of the two threads. */
  lemma {:induction false} Reachable(s: Conn, run: seq<Event>)
    requires Init(s)
    ensures Good(Exec(s, run))
  {
    if run != [] {
      var before := Exec(s, run[..|run| - 1]);
      Reachable(s, run[..|run| - 1]);
      match run[|run| - 1]
      case Host(r) => HostStepKeeps(before, r);
      case Lkl(r) => LklStepKeeps(before, r);
    }
  }

  /** What a later state still knows of an earlier one. */
  predicate Later(s: Conn, t: Conn) {
    && (s.host.eof ==> t.host.eof && t.h2l.head == s.h2l.head && t.h2l.taken == s.h2l.taken)
    && (s.lkl.eof ==> t.lkl.eof && t.l2h.head == s.l2h.head && t.l2h.taken == s.l2h.taken)
    && (s.host.shut ==> t.host.shut && t.l2h.delivered == s.l2h.delivered)
    && (s.lkl.shut ==> t.lkl.shut && t.h2l.delivered == s.h2l.delivered)
    && (s.host.issued ==> t.host.issued) && (s.lkl.issued ==> t.lkl.issued)
    && (s.closeReq ==> t.closeReq) && (s.connected ==> t.connected)
    && (s.host.shut && !t.l2h.drained ==> t.l2h.tail == s.l2h.tail)
    && (s.forced ==> t.forced && !t.lklOpen)
    && (s.forced && !s.lpc.LClose? ==> !t.lpc.LClose?)
    && (!s.attached ==> !t.attached && t.h2l == s.h2l && t.l2h == s.l2h)
  }

  lemma HostIoLater(s: Conn, r: Reply)
    requires Good(s) && s.hpc.HIo?
    ensures Later(s, HostIoStep(s, r))
  {
    IoGuarantee(HostEnd(s), s.lkl.eof, r);
  }

  lemma HostStepLater(s: Conn, r: Reply)
    requires Good(s)
    ensures Later(s, HostStep(s, r))
  {
    if s.hpc.HIo? { HostIoLater(s, r); }
    else if s.hpc.HDone? { HostDoneIsQuiet(s); }
    else { HostTopIsQuiet(s, r); }
  }

  lemma LklIoLater(s: Conn, r: Reply)
    requires Good(s) && s.lpc.LIo?
    ensures Later(s, LklIoStep(s, r))
  {
    IoGuarantee(LklEnd(s), s.host.eof, r);
  }

  lemma LklStepLater(s: Conn, r: Reply)
    requires Good(s)
    ensures Later(s, LklStep(s, r))
  {
    if s.lpc.LIo? { LklIoLater(s, r); }
  }

  /** Along every run, from any reachable state to any state after it. */
  lemma {:induction false} RunLater(s: Conn, run: seq<Event>, more: seq<Event>)
    requires Init(s)
    ensures Good(Exec(s, run)) && Good(Exec(s, run + more))
    ensures Later(Exec(s, run), Exec(s, run + more))
  {
    Reachable(s, run);
    if more == [] {
      assert run + more == run;
    } else {
      var shorter := more[..|more| - 1];
      assert (run + more)[..|run + more| - 1] == run + shorter;
      RunLater(s, run, shorter);
      var mid := Exec(s, run + shorter);
      match more[|more| - 1] {
        case Host(r) => HostStepLater(mid, r);
        case Lkl(r) => LklStepLater(mid, r);
      }
      Reachable(s, run + more);
    }
  }

  // ---- What the proxy promises ------------------------------------------------------------

  /**
   * In every reachable state each ring is within capacity, what its sink has
   * accepted is a prefix of what its source gave, and until a forced close
   * begins the source bytes are exactly the released ones, the ring contents
   * and the received-but-uncommitted ones.
   */
  lemma BytesConserved(s: Conn, run: seq<Event>)
    requires Init(s)
    ensures var t := Exec(s, run);
      && Sized(t.h2l) && t.h2l.delivered <= t.h2l.taken && (!t.forced ==> Accounted(t.h2l))
      && Sized(t.l2h) && t.l2h.delivered <= t.l2h.taken && (!t.forced ==> Accounted(t.l2h))
  {
    Reachable(s, run);
    Conservation(Exec(s, run).h2l);
    Conservation(Exec(s, run).l2h);
  }

  /**
   * Once lkl_close_req is set the host thread never again moves h2l.head or
   * l2h.tail: from then on the source of h2l gives nothing, its head stays,
   * and l2h.tail stays unless the LKL thread drains it.
   */
  lemma CloseRequestHandsOver(s: Conn, run: seq<Event>, more: seq<Event>, r: Reply)
    requires Init(s) && Exec(s, run).closeReq
    ensures var t, u := Exec(s, run), Exec(s, run + more);
      && u.closeReq
      && HostStep(u, r).h2l == u.h2l && HostStep(u, r).l2h == u.l2h
      && u.h2l.head == t.h2l.head && u.h2l.taken == t.h2l.taken && u.l2h.delivered == t.l2h.delivered
      && (!u.forced ==> u.l2h.tail == t.l2h.tail)
  {
    RunLater(s, run, more);
    var u := Exec(s, run + more);
    if u.hpc.HIo? { IoGuarantee(HostEnd(u), u.lkl.eof, r); }
  }

  /**
   * When a forced close has run, conn_done holds at once and for ever, the LKL
   * socket is never opened again, and what was delivered is still a prefix.
   */
  lemma ForcedCloseIsFinal(s: Conn, run: seq<Event>, more: seq<Event>)
    requires Init(s) && Exec(s, run).forced && !Exec(s, run).lpc.LClose?
    ensures Done(Exec(s, run))
    ensures var u := Exec(s, run + more);
      && Done(u) && u.forced && !u.lklOpen && !u.lpc.LConnect?
      && u.h2l.delivered <= u.h2l.taken && u.l2h.delivered <= u.l2h.taken
  {
    RunLater(s, run, more);
  }

  /**
   * SHUT_WR reaches a side only when every byte ever taken from the other side
   * has been delivered to it, and no byte is taken afterwards.
   */
  lemma HalfCloseIsLossless(s: Conn, run: seq<Event>, more: seq<Event>)
    requires Init(s)
    ensures var t, u := Exec(s, run), Exec(s, run + more);
      && (t.lkl.issued ==> t.h2l.delivered == t.h2l.taken == u.h2l.taken && u.h2l.delivered == u.h2l.taken)
      && (t.host.issued ==> t.l2h.delivered == t.l2h.taken == u.l2h.taken && u.l2h.delivered == u.l2h.taken)
  {
    RunLater(s, run, more);
  }

  /**
   * conn_free runs only on a finished connection. Without a forced close both
   * directions have then been delivered in full; in any case nothing moves in
   * either ring afterwards.
   */
  lemma FreedOnlyWhenFinished(s: Conn, run: seq<Event>, more: seq<Event>)
    requires Init(s) && !Exec(s, run).attached
    ensures var t, u := Exec(s, run), Exec(s, run + more);
      && Done(t) && u.h2l == t.h2l && u.l2h == t.l2h
      && (!t.forced ==> t.h2l.delivered == t.h2l.taken && t.l2h.delivered == t.l2h.taken)
  {
    RunLater(s, run, more);
  }
}
