/** Runs that reach what the theorems of the host proxy speak of. */
module HostProxyRuns {
  import opened Bytes
  import opened Ring
  import opened IoLoop
  import opened HostProxy

  const H: Event := Host(Intr)
  const L: Event := Lkl(Intr)

  /** One more event. */
  lemma Go(s: Conn, run: seq<Event>, t: Conn, e: Event, u: Conn) returns (longer: seq<Event>)
    requires Exec(s, run) == t && Step(t, e) == u
    ensures longer == run + [e] && Exec(s, longer) == u
  {
    longer := run + [e];
    assert longer[..|longer| - 1] == run;
  }

  /** An accepted connection, whatever is in its buffers. */
  lemma Fresh(a: seq<byte>, b: seq<byte>) returns (s: Conn)
    requires |a| == RING_CAP == |b|
    ensures Init(s)
  {
    s := Conn(Pipe(a, 0, 0, PIdle, CIdle, [], [], false), Pipe(b, 0, 0, PIdle, CIdle, [], [], false),
              Flags(false, false, false), Flags(false, false, false), false, false, true, HTop, LTop, false, false);
  }

  /** The LKL socket connects. */
  lemma Connects(s: Conn) returns (run: seq<Event>)
    requires Init(s)
    ensures Exec(s, run) == s.(lklOpen := true, connected := true, lpc := LForce)
  {
    run := Go(s, [], s, L, s.(lpc := LConnect));
    run := Go(s, run, s.(lpc := LConnect), L, s.(lklOpen := true, connected := true, lpc := LForce));
  }

  /** The host socket fails: a forced close is requested. */
  lemma Requests(s: Conn, run: seq<Event>, t: Conn) returns (longer: seq<Event>)
    requires Exec(s, run) == t && t.hpc == HTop && !t.lkl.eof
    ensures Exec(s, longer) == t.(hpc := HSweep, host := t.host.(eof := true, shut := true), closeReq := true)
  {
    var a := Step(t, Host(Closed));
    longer := Go(s, run, t, Host(Closed), a);
    var b := Step(a, H);
    longer := Go(s, longer, a, H, b);
    var c := Step(b, H);
    longer := Go(s, longer, b, H, c);
    longer := Go(s, longer, c, H, Step(c, H));
  }

  /** The LKL thread closes its socket and raises its flags. */
  lemma Closes(s: Conn, run: seq<Event>, t: Conn) returns (longer: seq<Event>)
    requires Exec(s, run) == t && t.lpc == LForce && t.attached && t.lklOpen && t.closeReq
    ensures Exec(s, longer)
         == t.(lklOpen := false, forced := true, lkl := t.lkl.(eof := true, shut := true), lpc := LClose(InHead))
  {
    var a := Step(t, L);
    longer := Go(s, run, t, L, a);
    var b := Step(a, L);
    longer := Go(s, longer, a, L, b);
    var c := Step(b, L);
    longer := Go(s, longer, b, L, c);
    longer := Go(s, longer, c, L, Step(c, L));
  }

  /** It takes both rings over and empties them. */
  lemma Drains(s: Conn, run: seq<Event>, t: Conn) returns (longer: seq<Event>)
    requires Exec(s, run) == t && t.lpc == LClose(InHead) && t.forced
    ensures Exec(s, longer) == t.(h2l := DrainTo(t.h2l, t.h2l.head), l2h := DrainTo(t.l2h, t.l2h.head), lpc := LPoll)
  {
    var a := Step(t, L);
    longer := Go(s, run, t, L, a);
    var b := Step(a, L);
    longer := Go(s, longer, a, L, b);
    var c := Step(b, L);
    longer := Go(s, longer, b, L, c);
    longer := Go(s, longer, c, L, Step(c, L));
  }

  /** The host thread finds its own flags set. */
  lemma SeesHostFlags(s: Conn, run: seq<Event>, t: Conn) returns (longer: seq<Event>)
    requires Exec(s, run) == t && t.hpc == HSweep && !t.lklOpen && t.host.eof && t.host.shut
    ensures Exec(s, longer) == t.(hpc := HDone(AtLklEof))
  {
    var a := Step(t, H);
    longer := Go(s, run, t, H, a);
    var b := Step(a, H);
    longer := Go(s, longer, a, H, b);
    longer := Go(s, longer, b, H, Step(b, H));
  }

  /** Then those of the LKL thread. */
  lemma SeesLklFlags(s: Conn, run: seq<Event>, t: Conn) returns (longer: seq<Event>)
    requires Exec(s, run) == t && t.hpc == HDone(AtLklEof) && t.lkl.eof && t.lkl.shut
    ensures Exec(s, longer) == t.(hpc := HDone(AtInHead))
  {
    var a := Step(t, H);
    longer := Go(s, run, t, H, a);
    longer := Go(s, longer, a, H, Step(a, H));
  }

  /** Then one empty ring, */
  lemma SeesEmptyIn(s: Conn, run: seq<Event>, t: Conn) returns (longer: seq<Event>)
    requires Exec(s, run) == t && t.hpc == HDone(AtInHead) && t.h2l.head == t.h2l.tail
    ensures Exec(s, longer) == t.(hpc := HDone(AtOutHead))
  {
    var a := Step(t, H);
    longer := Go(s, run, t, H, a);
    longer := Go(s, longer, a, H, Step(a, H));
  }

  /** and the other, and frees the connection. */
  lemma Frees(s: Conn, run: seq<Event>, t: Conn) returns (longer: seq<Event>)
    requires Exec(s, run) == t && t.hpc == HDone(AtOutHead) && t.l2h.head == t.l2h.tail && !t.lpc.LClose?
    ensures Exec(s, longer) == t.(hpc := HGone, attached := false)
  {
    var a := Step(t, H);
    longer := Go(s, run, t, H, a);
    var b := Step(a, H);
    longer := Go(s, longer, a, H, b);
    longer := Go(s, longer, b, H, Step(b, H));
  }

  /** A failing host socket leads to a close request, a forced close and the end of the connection. */
  lemma FailureEndsConnection(s: Conn) returns (requested: seq<Event>, forced: seq<Event>, freed: seq<Event>)
    requires Init(s)
    ensures Exec(s, requested).closeReq
    ensures Exec(s, forced).forced && !Exec(s, forced).lpc.LClose?
    ensures !Exec(s, freed).attached
  {
    requested := Connects(s);
    requested := Requests(s, requested, Exec(s, requested));
    forced := Closes(s, requested, Exec(s, requested));
    forced := Drains(s, forced, Exec(s, forced));
    freed := SeesHostFlags(s, forced, Exec(s, forced));
    freed := SeesLklFlags(s, freed, Exec(s, freed));
    freed := SeesEmptyIn(s, freed, Exec(s, freed));
    freed := Frees(s, freed, Exec(s, freed));
  }

  // ---- A transfer that ends by half-closes ---------------------------------------------------

  /** Connected, both threads at the top of their loops, no flag raised, both rings empty; d and e taken from host and LKL. */
  predicate Calm(t: Conn, d: seq<byte>, e: seq<byte>) {
    && t.lklOpen && t.attached && !t.forced && !t.closeReq && t.hpc == HTop && t.lpc == LTop
    && t.host == Flags(false, false, false) && t.lkl == Flags(false, false, false)
    && t.h2l.head == t.h2l.tail && t.l2h.head == t.l2h.tail && t.h2l.taken == d && t.l2h.taken == e
    && t.h2l.prod.PIdle? && t.h2l.cons.CIdle? && t.l2h.prod.PIdle? && t.l2h.cons.CIdle?
  }

  lemma BecomesCalm(s: Conn) returns (run: seq<Event>)
    requires Init(s)
    ensures Calm(Exec(s, run), [], [])
  {
    run := Connects(s);
    var t := Exec(s, run);
    var a := Step(t, L);
    run := Go(s, run, t, L, a);
    run := Go(s, run, a, L, Step(a, L));
  }

  lemma HostEnters(s: Conn, run: seq<Event>, t: Conn) returns (longer: seq<Event>)
    requires Exec(s, run) == t && t.hpc == HTop && t.lklOpen
    ensures Exec(s, longer) == t.(hpc := HIo(RdGate))
  {
    var a := Step(t, Host(Fine));
    longer := Go(s, run, t, Host(Fine), a);
    longer := Go(s, longer, a, H, Step(a, H));
  }

  /** The host thread asks its socket for bytes. */
  lemma HostAsks(s: Conn, run: seq<Event>, t: Conn) returns (longer: seq<Event>)
    requires Exec(s, run) == t && t.hpc == HIo(RdGate) && !t.host.eof && Writable(t.h2l) > 0
    ensures Exec(s, longer) == t.(hpc := HIo(Recv), h2l := t.h2l.(prod := Room(Writable(t.h2l))))
  {
    var a := Step(t, H);
    longer := Go(s, run, t, H, a);
    longer := Go(s, longer, a, H, Step(a, H));
  }

  /** It gets one byte. */
  lemma HostTakes(s: Conn, run: seq<Event>, t: Conn, b: byte) returns (longer: seq<Event>, u: Conn)
    requires Exec(s, run) == t && t.hpc == HIo(Recv) && t.h2l.prod.Room? && t.h2l.prod.k > 0 && |t.h2l.buf| == RING_CAP
    ensures Exec(s, longer) == u == t.(hpc := u.hpc, h2l := u.h2l) && (u.hpc == HIo(RdLoop) || u.hpc == HIo(WrGate))
    ensures u.h2l == t.h2l.(buf := u.h2l.buf, head := t.h2l.head + 1, taken := t.h2l.taken + [b], prod := PIdle)
    ensures |u.h2l.buf| == RING_CAP
  {
    var e := Host(Data([b]));
    var a := Step(t, e);
    longer := Go(s, run, t, e, a);
    u := Step(a, H);
    longer := Go(s, longer, a, H, u);
  }

  /** There is no more for now. */
  lemma HostHasEnough(s: Conn, run: seq<Event>, t: Conn) returns (longer: seq<Event>)
    requires Exec(s, run) == t && t.hpc == HIo(RdLoop) && t.h2l.prod.PIdle? && Writable(t.h2l) > 0
    ensures Exec(s, longer) == t.(hpc := HIo(WrGate))
  {
    var a := Step(t, H);
    longer := Go(s, run, t, H, a);
    longer := Go(s, longer, a, Host(Again), Step(a, Host(Again)));
  }

  lemma HostTakesNone(s: Conn, run: seq<Event>, t: Conn) returns (longer: seq<Event>)
    requires Exec(s, run) == t && t.hpc == HIo(Recv)
    ensures Exec(s, longer) == t.(hpc := HIo(WrGate), h2l := t.h2l.(prod := PIdle))
  {
    longer := Go(s, run, t, Host(Again), Step(t, Host(Again)));
  }

  lemma HostTurnsToSending(s: Conn, run: seq<Event>, t: Conn) returns (longer: seq<Event>)
    requires Exec(s, run) == t && t.hpc == HIo(WrGate) && !t.host.shut
    ensures Exec(s, longer) == t.(hpc := HIo(WrLoop))
  {
    longer := Go(s, run, t, H, Step(t, H));
  }

  /** The host thread sends the one byte there is. */
  lemma HostSendsOne(s: Conn, run: seq<Event>, t: Conn) returns (longer: seq<Event>, u: Conn)
    requires Exec(s, run) == t && t.hpc == HIo(WrLoop) && t.l2h.cons.CIdle?
    requires t.l2h.head == t.l2h.tail + 1 && |t.l2h.buf| == RING_CAP
    ensures Exec(s, longer) == u == t.(hpc := HIo(WrLoop), l2h := u.l2h)
    ensures u.l2h == t.l2h.(tail := t.l2h.head, delivered := u.l2h.delivered)
  {
    var a := Step(t, H);
    longer := Go(s, run, t, H, a);
    var b := Step(a, Host(Count(1)));
    longer := Go(s, longer, a, Host(Count(1)), b);
    u := Step(b, H);
    longer := Go(s, longer, b, H, u);
  }

  /** Nothing to send. */
  lemma HostSendsNone(s: Conn, run: seq<Event>, t: Conn) returns (longer: seq<Event>)
    requires Exec(s, run) == t && t.hpc == HIo(WrLoop) && !t.host.shut && t.l2h.head == t.l2h.tail && t.l2h.cons.CIdle?
    ensures Exec(s, longer) == t.(hpc := HIo(ShutEof))
  {
    var a := Step(t, H);
    longer := Go(s, run, t, H, a);
    longer := Go(s, longer, a, H, Step(a, H));
  }

  /** The other side is still open, so the host thread goes round. */
  lemma HostGoesRound(s: Conn, run: seq<Event>, t: Conn) returns (longer: seq<Event>)
    requires Exec(s, run) == t && t.hpc == HIo(ShutEof) && !t.lkl.eof && !t.host.shut
    ensures Exec(s, longer) == t.(hpc := HTop)
  {
    var a := Step(t, H);
    longer := Go(s, run, t, H, a);
    var b := Step(a, H);
    longer := Go(s, longer, a, H, b);
    if b.hpc.HDone? { longer := Go(s, longer, b, H, Step(b, H)); }
  }

  lemma LklEnters(s: Conn, run: seq<Event>, t: Conn) returns (longer: seq<Event>)
    requires Exec(s, run) == t && t.lpc == LTop && t.attached && t.lklOpen && !t.closeReq
    ensures Exec(s, longer) == t.(lpc := LIo(RdGate))
  {
    var a := Step(t, L);
    longer := Go(s, run, t, L, a);
    var b := Step(a, L);
    longer := Go(s, longer, a, L, b);
    longer := Go(s, longer, b, Lkl(Fine), Step(b, Lkl(Fine)));
  }

  lemma LklAsks(s: Conn, run: seq<Event>, t: Conn) returns (longer: seq<Event>)
    requires Exec(s, run) == t && t.lpc == LIo(RdGate) && !t.lkl.eof && Writable(t.l2h) > 0
    ensures Exec(s, longer) == t.(lpc := LIo(Recv), l2h := t.l2h.(prod := Room(Writable(t.l2h))))
  {
    var a := Step(t, L);
    longer := Go(s, run, t, L, a);
    longer := Go(s, longer, a, L, Step(a, L));
  }

  /** Its socket has nothing. */
  lemma LklTakesNone(s: Conn, run: seq<Event>, t: Conn) returns (longer: seq<Event>)
    requires Exec(s, run) == t && t.lpc == LIo(Recv)
    ensures Exec(s, longer) == t.(lpc := LIo(WrGate), l2h := t.l2h.(prod := PIdle))
  {
    longer := Go(s, run, t, Lkl(Again), Step(t, Lkl(Again)));
  }

  lemma LklTakes(s: Conn, run: seq<Event>, t: Conn, b: byte) returns (longer: seq<Event>, u: Conn)
    requires Exec(s, run) == t && t.lpc == LIo(Recv) && t.l2h.prod.Room? && t.l2h.prod.k > 0 && |t.l2h.buf| == RING_CAP
    ensures Exec(s, longer) == u == t.(lpc := u.lpc, l2h := u.l2h) && (u.lpc == LIo(RdLoop) || u.lpc == LIo(WrGate))
    ensures u.l2h == t.l2h.(buf := u.l2h.buf, head := t.l2h.head + 1, taken := t.l2h.taken + [b], prod := PIdle)
    ensures |u.l2h.buf| == RING_CAP
  {
    var e := Lkl(Data([b]));
    var a := Step(t, e);
    longer := Go(s, run, t, e, a);
    u := Step(a, L);
    longer := Go(s, longer, a, L, u);
  }

  lemma LklHasEnough(s: Conn, run: seq<Event>, t: Conn) returns (longer: seq<Event>)
    requires Exec(s, run) == t && t.lpc == LIo(RdLoop) && t.l2h.prod.PIdle? && Writable(t.l2h) > 0
    ensures Exec(s, longer) == t.(lpc := LIo(WrGate))
  {
    var a := Step(t, L);
    longer := Go(s, run, t, L, a);
    longer := Go(s, longer, a, Lkl(Again), Step(a, Lkl(Again)));
  }

  lemma LklTurnsToSending(s: Conn, run: seq<Event>, t: Conn) returns (longer: seq<Event>)
    requires Exec(s, run) == t && t.lpc == LIo(WrGate) && !t.lkl.shut
    ensures Exec(s, longer) == t.(lpc := LIo(WrLoop))
  {
    longer := Go(s, run, t, L, Step(t, L));
  }

  /** The LKL thread sends the one byte there is. */
  lemma LklSendsOne(s: Conn, run: seq<Event>, t: Conn) returns (longer: seq<Event>, u: Conn)
    requires Exec(s, run) == t && t.lpc == LIo(WrLoop) && t.h2l.cons.CIdle?
    requires t.h2l.head == t.h2l.tail + 1 && |t.h2l.buf| == RING_CAP
    ensures Exec(s, longer) == u == t.(lpc := LIo(WrLoop), h2l := u.h2l)
    ensures u.h2l == t.h2l.(tail := t.h2l.head, delivered := u.h2l.delivered)
  {
    var a := Step(t, L);
    longer := Go(s, run, t, L, a);
    var b := Step(a, Lkl(Count(1)));
    longer := Go(s, longer, a, Lkl(Count(1)), b);
    u := Step(b, L);
    longer := Go(s, longer, b, L, u);
  }

  /** Nothing more to send. */
  lemma LklSendsNone(s: Conn, run: seq<Event>, t: Conn) returns (longer: seq<Event>)
    requires Exec(s, run) == t && t.lpc == LIo(WrLoop) && !t.lkl.shut && t.h2l.head == t.h2l.tail && t.h2l.cons.CIdle?
    ensures Exec(s, longer) == t.(lpc := LIo(ShutEof))
  {
    var a := Step(t, L);
    longer := Go(s, run, t, L, a);
    longer := Go(s, longer, a, L, Step(a, L));
  }

  lemma LklGoesRound(s: Conn, run: seq<Event>, t: Conn) returns (longer: seq<Event>)
    requires Exec(s, run) == t && t.lpc == LIo(ShutEof) && !t.host.eof
    ensures Exec(s, longer) == t.(lpc := LTop)
  {
    longer := Go(s, run, t, L, Step(t, L));
  }

  /** The host thread puts one byte into its ring. */
  lemma HostPuts(s: Conn, run: seq<Event>, t: Conn, b: byte) returns (longer: seq<Event>, u: Conn)
    requires Exec(s, run) == t && |t.h2l.buf| == RING_CAP && Calm(t, t.h2l.taken, t.l2h.taken)
    ensures Exec(s, longer) == u == t.(h2l := u.h2l) && |u.h2l.buf| == RING_CAP
    ensures u.h2l == t.h2l.(buf := u.h2l.buf, head := t.h2l.head + 1, taken := t.h2l.taken + [b])
  {
    longer := HostEnters(s, run, t);
    longer := HostAsks(s, longer, Exec(s, longer));
    longer, u := HostTakes(s, longer, Exec(s, longer), b);
    if u.hpc == HIo(RdLoop) { longer := HostHasEnough(s, longer, u); }
    longer := HostTurnsToSending(s, longer, Exec(s, longer));
    longer := HostSendsNone(s, longer, Exec(s, longer));
    longer := HostGoesRound(s, longer, Exec(s, longer));
    u := Exec(s, longer);
  }

  /** The LKL thread takes it out. */
  lemma LklGets(s: Conn, run: seq<Event>, t: Conn) returns (longer: seq<Event>, u: Conn)
    requires Exec(s, run) == t && |t.h2l.buf| == RING_CAP && t.h2l.head == t.h2l.tail + 1
    requires Calm(t.(h2l := t.h2l.(tail := t.h2l.head)), t.h2l.taken, t.l2h.taken)
    ensures Exec(s, longer) == u && Calm(u, t.h2l.taken, t.l2h.taken)
  {
    longer := LklEnters(s, run, t);
    longer := LklAsks(s, longer, Exec(s, longer));
    longer := LklTakesNone(s, longer, Exec(s, longer));
    longer := LklTurnsToSending(s, longer, Exec(s, longer));
    longer, u := LklSendsOne(s, longer, Exec(s, longer));
    longer := LklSendsNone(s, longer, u);
    longer := LklGoesRound(s, longer, Exec(s, longer));
    u := Exec(s, longer);
  }

  /** The LKL thread puts one byte into its ring. */
  lemma LklPuts(s: Conn, run: seq<Event>, t: Conn, b: byte) returns (longer: seq<Event>, u: Conn)
    requires Exec(s, run) == t && |t.l2h.buf| == RING_CAP && Calm(t, t.h2l.taken, t.l2h.taken)
    ensures Exec(s, longer) == u == t.(l2h := u.l2h) && |u.l2h.buf| == RING_CAP
    ensures u.l2h == t.l2h.(buf := u.l2h.buf, head := t.l2h.head + 1, taken := t.l2h.taken + [b])
  {
    longer := LklEnters(s, run, t);
    longer := LklAsks(s, longer, Exec(s, longer));
    longer, u := LklTakes(s, longer, Exec(s, longer), b);
    if u.lpc == LIo(RdLoop) { longer := LklHasEnough(s, longer, u); }
    longer := LklTurnsToSending(s, longer, Exec(s, longer));
    longer := LklSendsNone(s, longer, Exec(s, longer));
    longer := LklGoesRound(s, longer, Exec(s, longer));
    u := Exec(s, longer);
  }

  /** The host thread takes it out. */
  lemma HostGets(s: Conn, run: seq<Event>, t: Conn) returns (longer: seq<Event>, u: Conn)
    requires Exec(s, run) == t && |t.l2h.buf| == RING_CAP && t.l2h.head == t.l2h.tail + 1
    requires Calm(t.(l2h := t.l2h.(tail := t.l2h.head)), t.h2l.taken, t.l2h.taken)
    ensures Exec(s, longer) == u && Calm(u, t.h2l.taken, t.l2h.taken)
  {
    longer := HostEnters(s, run, t);
    longer := HostAsks(s, longer, Exec(s, longer));
    longer := HostTakesNone(s, longer, Exec(s, longer));
    longer := HostTurnsToSending(s, longer, Exec(s, longer));
    longer, u := HostSendsOne(s, longer, Exec(s, longer));
    longer := HostSendsNone(s, longer, u);
    longer := HostGoesRound(s, longer, Exec(s, longer));
    u := Exec(s, longer);
  }

  /** A byte passed on, from the host or from LKL. */
  datatype Passed = FromHost(b: byte) | FromLkl(b: byte)

  function HostBytes(bs: seq<Passed>): seq<byte> {
    if bs == [] then []
    else HostBytes(bs[..|bs| - 1]) + (if bs[|bs| - 1].FromHost? then [bs[|bs| - 1].b] else [])
  }

  function LklBytes(bs: seq<Passed>): seq<byte> {
    if bs == [] then []
    else LklBytes(bs[..|bs| - 1]) + (if bs[|bs| - 1].FromLkl? then [bs[|bs| - 1].b] else [])
  }

  lemma PassOne(s: Conn, run: seq<Event>, t: Conn, x: Passed) returns (longer: seq<Event>, u: Conn)
    requires Init(s) && Exec(s, run) == t && Calm(t, t.h2l.taken, t.l2h.taken)
    ensures Exec(s, longer) == u
    ensures Calm(u, t.h2l.taken + (if x.FromHost? then [x.b] else []), t.l2h.taken + (if x.FromLkl? then [x.b] else []))
  {
    Reachable(s, run);
    if x.FromHost? {
      longer, u := HostPuts(s, run, t, x.b);
      longer, u := LklGets(s, longer, u);
    } else {
      longer, u := LklPuts(s, run, t, x.b);
      longer, u := HostGets(s, longer, u);
    }
  }

  /** Any bytes can be passed on in either direction and any order, however often the rings wrap. */
  lemma {:induction false} Transfers(s: Conn, bs: seq<Passed>) returns (run: seq<Event>)
    requires Init(s)
    ensures Calm(Exec(s, run), HostBytes(bs), LklBytes(bs))
  {
    if bs == [] {
      run := BecomesCalm(s);
    } else {
      var n := |bs| - 1;
      run := Transfers(s, bs[..n]);
      var u: Conn;
      run, u := PassOne(s, run, Exec(s, run), bs[n]);
    }
  }

  /** The host socket is at end of file. */
  lemma HostEnds(s: Conn, run: seq<Event>, t: Conn) returns (longer: seq<Event>)
    requires Exec(s, run) == t && t.hpc == HIo(Recv) && t.h2l.prod.Room?
    ensures Exec(s, longer) == t.(hpc := HIo(WrGate), h2l := t.h2l.(prod := PIdle), host := t.host.(eof := true))
  {
    var a := Step(t, Host(Closed));
    longer := Go(s, run, t, Host(Closed), a);
    longer := Go(s, longer, a, H, Step(a, H));
  }

  /** The LKL socket too. */
  lemma LklEnds(s: Conn, run: seq<Event>, t: Conn) returns (longer: seq<Event>)
    requires Exec(s, run) == t && t.lpc == LIo(Recv) && t.l2h.prod.Room? && !t.lkl.shut
    ensures Exec(s, longer) == t.(lpc := LIo(WrLoop), l2h := t.l2h.(prod := PIdle), lkl := t.lkl.(eof := true))
  {
    var a := Step(t, Lkl(Closed));
    longer := Go(s, run, t, Lkl(Closed), a);
    var b := Step(a, L);
    longer := Go(s, longer, a, L, b);
    longer := Go(s, longer, b, L, Step(b, L));
  }

  /** The LKL thread finds the host at end of file */
  lemma LklSeesEof(s: Conn, run: seq<Event>, t: Conn) returns (longer: seq<Event>)
    requires Exec(s, run) == t && t.lpc == LIo(ShutEof) && t.host.eof
    ensures Exec(s, longer) == t.(lpc := LIo(ShutHead))
  {
    longer := Go(s, run, t, L, Step(t, L));
  }

  lemma LklSeesHead(s: Conn, run: seq<Event>, t: Conn) returns (longer: seq<Event>)
    requires Exec(s, run) == t && t.lpc == LIo(ShutHead)
    ensures Exec(s, longer) == t.(lpc := LIo(ShutTail(t.h2l.head)))
  {
    longer := Go(s, run, t, L, Step(t, L));
  }

  /** and the ring empty, */
  lemma LklMayShut(s: Conn, run: seq<Event>, t: Conn) returns (longer: seq<Event>)
    requires Exec(s, run) == t && t.lpc == LIo(ShutTail(t.h2l.tail))
    ensures Exec(s, longer) == t.(lpc := LIo(ShutCall))
  {
    longer := Go(s, run, t, L, Step(t, L));
  }

  /** and sends SHUT_WR. */
  lemma LklShuts(s: Conn, run: seq<Event>, t: Conn) returns (longer: seq<Event>)
    requires Exec(s, run) == t && t.lpc == LIo(ShutCall)
    ensures Exec(s, longer) == t.(lpc := LTop, lkl := t.lkl.(issued := true, shut := true))
  {
    var a := Step(t, L);
    longer := Go(s, run, t, L, a);
    longer := Go(s, longer, a, L, Step(a, L));
  }

  lemma HostSkipsReading(s: Conn, run: seq<Event>, t: Conn) returns (longer: seq<Event>)
    requires Exec(s, run) == t && t.hpc == HIo(RdGate) && t.host.eof
    ensures Exec(s, longer) == t.(hpc := HIo(WrGate))
  {
    longer := Go(s, run, t, H, Step(t, H));
  }

  lemma HostSeesEof(s: Conn, run: seq<Event>, t: Conn) returns (longer: seq<Event>)
    requires Exec(s, run) == t && t.hpc == HIo(ShutEof) && t.lkl.eof
    ensures Exec(s, longer) == t.(hpc := HIo(ShutHead))
  {
    longer := Go(s, run, t, H, Step(t, H));
  }

  lemma HostSeesHead(s: Conn, run: seq<Event>, t: Conn) returns (longer: seq<Event>)
    requires Exec(s, run) == t && t.hpc == HIo(ShutHead)
    ensures Exec(s, longer) == t.(hpc := HIo(ShutTail(t.l2h.head)))
  {
    longer := Go(s, run, t, H, Step(t, H));
  }

  lemma HostMayShut(s: Conn, run: seq<Event>, t: Conn) returns (longer: seq<Event>)
    requires Exec(s, run) == t && t.hpc == HIo(ShutTail(t.l2h.tail))
    ensures Exec(s, longer) == t.(hpc := HIo(ShutCall))
  {
    longer := Go(s, run, t, H, Step(t, H));
  }

  lemma HostShuts(s: Conn, run: seq<Event>, t: Conn) returns (longer: seq<Event>)
    requires Exec(s, run) == t && t.hpc == HIo(ShutCall)
    ensures Exec(s, longer) == t.(hpc := HDone(AtHostEof), host := t.host.(issued := true, shut := true))
  {
    var a := Step(t, H);
    longer := Go(s, run, t, H, a);
    longer := Go(s, longer, a, H, Step(a, H));
  }

  lemma SeesOwnFlags(s: Conn, run: seq<Event>, t: Conn) returns (longer: seq<Event>)
    requires Exec(s, run) == t && t.hpc == HDone(AtHostEof) && t.host.eof && t.host.shut
    ensures Exec(s, longer) == t.(hpc := HDone(AtLklEof))
  {
    var a := Step(t, H);
    longer := Go(s, run, t, H, a);
    longer := Go(s, longer, a, H, Step(a, H));
  }

  /** The host thread reads end of file and goes round. */
  lemma HostFinishesReading(s: Conn, run: seq<Event>, t: Conn) returns (longer: seq<Event>)
    requires Exec(s, run) == t && Calm(t, t.h2l.taken, t.l2h.taken)
    ensures Exec(s, longer) == t.(host := Flags(true, false, false))
  {
    longer := HostEnters(s, run, t);
    longer := HostAsks(s, longer, Exec(s, longer));
    longer := HostEnds(s, longer, Exec(s, longer));
    longer := HostTurnsToSending(s, longer, Exec(s, longer));
    longer := HostSendsNone(s, longer, Exec(s, longer));
    longer := HostGoesRound(s, longer, Exec(s, longer));
  }

  /** The LKL thread reads end of file and half-closes. */
  lemma LklFinishes(s: Conn, run: seq<Event>, t: Conn) returns (longer: seq<Event>)
    requires Exec(s, run) == t && t.host.eof && Calm(t.(host := Flags(false, false, false)), t.h2l.taken, t.l2h.taken)
    ensures Exec(s, longer) == t.(lkl := Flags(true, true, true))
  {
    longer := LklEnters(s, run, t);
    longer := LklAsks(s, longer, Exec(s, longer));
    longer := LklEnds(s, longer, Exec(s, longer));
    longer := LklSendsNone(s, longer, Exec(s, longer));
    longer := LklSeesEof(s, longer, Exec(s, longer));
    longer := LklSeesHead(s, longer, Exec(s, longer));
    longer := LklMayShut(s, longer, Exec(s, longer));
    longer := LklShuts(s, longer, Exec(s, longer));
  }

  /** The host thread half-closes. */
  lemma HostFinishes(s: Conn, run: seq<Event>, t: Conn) returns (longer: seq<Event>)
    requires Exec(s, run) == t && t.hpc == HTop && t.lklOpen && t.host == Flags(true, false, false) && t.lkl.eof
    requires t.l2h.head == t.l2h.tail && t.l2h.cons.CIdle?
    ensures Exec(s, longer) == t.(hpc := HDone(AtLklEof), host := Flags(true, true, true))
  {
    longer := HostEnters(s, run, t);
    longer := HostSkipsReading(s, longer, Exec(s, longer));
    longer := HostTurnsToSending(s, longer, Exec(s, longer));
    longer := HostSendsNone(s, longer, Exec(s, longer));
    longer := HostSeesEof(s, longer, Exec(s, longer));
    longer := HostSeesHead(s, longer, Exec(s, longer));
    longer := HostMayShut(s, longer, Exec(s, longer));
    longer := HostShuts(s, longer, Exec(s, longer));
    longer := SeesOwnFlags(s, longer, Exec(s, longer));
  }

  /**
   * For any bytes each way, in any order, there is a run that takes exactly them, sends
   * SHUT_WR both ways, and frees the connection without a forced close, all delivered.
   */
  lemma TransferEndsConnection(s: Conn, bs: seq<Passed>) returns (run: seq<Event>)
    requires Init(s)
    ensures var t := Exec(s, run);
      && !t.attached && !t.forced && t.lkl.issued && t.host.issued
      && t.h2l.taken == HostBytes(bs) == t.h2l.delivered && t.l2h.taken == LklBytes(bs) == t.l2h.delivered
  {
    run := Transfers(s, bs);
    run := HostFinishesReading(s, run, Exec(s, run));
    run := LklFinishes(s, run, Exec(s, run));
    run := HostFinishes(s, run, Exec(s, run));
    run := SeesLklFlags(s, run, Exec(s, run));
    run := SeesEmptyIn(s, run, Exec(s, run));
    run := Frees(s, run, Exec(s, run));
    FreedOnlyWhenFinished(s, run, []);
  }
}
