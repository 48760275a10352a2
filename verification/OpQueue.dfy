/**
 * The op queue of a native session: serialize and guard of session-base.ts,
 * op and _dispose of native-session.ts, the watchdog, the host's fatal report
 * and the fatal listeners, as events on one JavaScript thread.
 */
module OpQueue {

  /** A serialized call, by how far its engine call and its promise have come. */
  datatype Status =
    | Queued       // waiting for its turn in the chain
    | Running      // engine call outstanding, promise pending
    | Orphaned     // promise rejected by the fatal error, engine call still outstanding
    | Settled      // engine call settled, and with it the promise
    | Skipped      // rejected at its turn: the session was fatal or disposed

  /** `guarded` is false only for the disk open of attachPath and attachUrl. */
  datatype Op = Op(guarded: bool, st: Status)

  datatype Phase =
    | Open
    | Draining     // close(): awaiting the queue or the fatal signal
    | Closing      // between engine calls of _dispose
    | Calling      // awaiting one engine call of _dispose
    | Closed

  datatype Start = OfOp(i: nat) | OfDispose

  /** `started`, `registered` and `fired` are histories. */
  datatype Session = Session(
    disposed: bool, fatal: bool,
    ops: seq<Op>, turn: nat,                 // ops[..turn] have had their turn
    phase: Phase, last: Status,              // the latest engine call of _dispose
    fatalCbs: set<nat>,
    started: seq<Start>, registered: multiset<nat>, fired: multiset<nat>)

  datatype Event =
    | Submit(guarded: bool)   // serialize
    | Turn(throws: bool)      // the chain reaches the next op; its engine call may throw at once
    | Settle(i: nat)          // the engine settles the call of op i
    | Watchdog(i: nat)        // the timer of op i
    | HostFatal               // the bridge reports a dead engine
    | Close                   // close()
    | Drained                 // the race in _dispose is decided
    | CloseCall               // _dispose makes its next engine call
    | CloseSettle             // the engine settles it
    | CloseWatchdog           // its timer
    | CloseNext               // _dispose continues after its call
    | CloseDone               // _dispose has no engine call left to make
    | Listen(cb: nat)         // onFatal
    | Unlisten(cb: nat)       // its unsubscribe function
    | Fire(cb: nat)           // fireFatal reaches listener cb

  predicate Init(s: Session) {
    && !s.disposed && !s.fatal && s.ops == [] && s.turn == 0 && s.phase == Open && s.last == Settled
    && s.fatalCbs == {} && s.started == [] && s.registered == multiset{} && s.fired == multiset{}
  }

  /** The promise of the call is settled, so the chain moves past it. */
  predicate PromiseSettled(st: Status) { st.Orphaned? || st.Settled? || st.Skipped? }

  /** The engine is still working on the call. */
  predicate Outstanding(st: Status) { st.Running? || st.Orphaned? }

  function Abandon(op: Op): Op {
    if op.guarded && op.st.Running? then op.(st := Orphaned) else op
  }

  /** fireFatal: rejects every pending guarded op before any listener runs. */
  function FireFatal(s: Session): Session {
    if s.fatal then s
    else s.(fatal := true,
            ops := seq(|s.ops|, i requires 0 <= i < |s.ops| => Abandon(s.ops[i])),
            last := if s.last.Running? then Orphaned else s.last)
  }

  predicate TurnReady(s: Session) {
    s.turn < |s.ops| && (s.turn == 0 || PromiseSettled(s.ops[s.turn - 1].st))
  }

  predicate QueueIdle(s: Session) {
    s.turn == |s.ops| && (s.turn == 0 || PromiseSettled(s.ops[s.turn - 1].st))
  }

  function TakeTurn(s: Session, throws: bool): Session
    requires TurnReady(s)
  {
    var go := !s.fatal && !s.disposed;
    var st := if !go then Skipped else if throws then Settled else Running;
    s.(ops := s.ops[s.turn := s.ops[s.turn].(st := st)], turn := s.turn + 1,
       started := if st.Running? then s.started + [OfOp(s.turn)] else s.started)
  }

  function OpStep(s: Session, e: Event): Session {
    match e
    case Submit(guarded) => if s.disposed then s else s.(ops := s.ops + [Op(guarded, Queued)])
    case Turn(throws) => if TurnReady(s) then TakeTurn(s, throws) else s
    case Settle(i) =>
      if i < |s.ops| && Outstanding(s.ops[i].st) then s.(ops := s.ops[i := s.ops[i].(st := Settled)]) else s
    case Watchdog(i) =>
      if i < |s.ops| && s.ops[i].guarded && s.ops[i].st.Running? then FireFatal(s) else s
    case HostFatal => FireFatal(s)
    case _ => s
  }

  /** close() and _dispose; an engine call is made only while the session is not fatal. */
  function CloseStep(s: Session, e: Event): Session {
    match e
    case Close => if s.disposed then s else s.(disposed := true, phase := Draining)
    case Drained => if s.phase.Draining? && (s.fatal || QueueIdle(s)) then s.(phase := Closing) else s
    case CloseCall =>
      if s.phase.Closing? && !s.fatal
      then s.(phase := Calling, last := Running, started := s.started + [OfDispose]) else s
    case CloseSettle => if Outstanding(s.last) then s.(last := Settled) else s
    case CloseWatchdog => if s.last.Running? then FireFatal(s) else s
    case CloseNext => if s.phase.Calling? && PromiseSettled(s.last) then s.(phase := Closing) else s
    case CloseDone => if s.phase.Closing? then s.(phase := Closed) else s
    case _ => s
  }

  function ListenStep(s: Session, e: Event): Session {
    match e
    case Listen(cb) =>
      if s.fatal then s.(registered := s.registered + multiset{cb}, fired := s.fired + multiset{cb})
      else s.(registered := s.registered + multiset{cb}, fatalCbs := s.fatalCbs + {cb})
    case Unlisten(cb) => s.(fatalCbs := s.fatalCbs - {cb})
    case Fire(cb) =>
      if s.fatal && cb in s.fatalCbs
      then s.(fatalCbs := s.fatalCbs - {cb}, fired := s.fired + multiset{cb}) else s
    case _ => s
  }

  function Step(s: Session, e: Event): Session {
    if e.Submit? || e.Turn? || e.Settle? || e.Watchdog? || e.HostFatal? then OpStep(s, e)
    else if e.Listen? || e.Unlisten? || e.Fire? then ListenStep(s, e)
    else CloseStep(s, e)
  }

  function Exec(s: Session, run: seq<Event>): Session {
    if run == [] then s else Step(Exec(s, run[..|run| - 1]), run[|run| - 1])
  }

  // ---- Invariant ----------------------------------------------------------------------------

  /** What may be said of op i. */
  predicate OpOk(s: Session, i: nat)
    requires i < |s.ops|
  {
    var op := s.ops[i];
    && (op.st.Queued? <==> i >= s.turn)
    && (i + 1 < s.turn ==> PromiseSettled(op.st))
    && (op.st.Orphaned? ==> s.fatal && op.guarded)
    && (op.st.Running? ==> !op.guarded || !s.fatal)
  }

  predicate Chain(s: Session) {
    s.turn <= |s.ops| && forall i | 0 <= i < |s.ops| :: OpOk(s, i)
  }

  predicate Disposal(s: Session) {
    && (s.phase.Open? <==> !s.disposed)
    && (s.phase.Open? || s.phase.Draining? ==> s.last.Settled?)
    && (s.phase.Closing? || s.phase.Calling? ==> s.fatal || QueueIdle(s))
    && (s.last.Settled? || s.last.Running? || s.last.Orphaned?)
    && (s.last.Orphaned? ==> s.fatal)
    && (s.last.Running? ==> !s.fatal && s.phase.Calling?)
  }

  /** Engine calls so far: ops in submission order, then those of _dispose. */
  predicate History(s: Session) {
    && (forall k | 0 <= k < |s.started| && s.started[k].OfOp? :: s.started[k].i < s.turn)
    && (forall j, k | 0 <= j < k < |s.started| && s.started[k].OfOp? ::
          s.started[j].OfOp? && s.started[j].i < s.started[k].i)
    && (OfDispose in s.started ==> s.disposed)
  }

  ghost predicate Listeners(s: Session) {
    && (forall cb :: s.fired[cb] + (if cb in s.fatalCbs then 1 else 0) <= s.registered[cb])
    && (!s.fatal ==> s.fired == multiset{})
  }

  ghost predicate Inv(s: Session) {
    Chain(s) && Disposal(s) && History(s) && Listeners(s)
  }

  lemma FireFatalKeeps(s: Session)
    requires Inv(s)
    ensures Inv(FireFatal(s))
  {
    var t := FireFatal(s);
    forall i | 0 <= i < |t.ops| ensures OpOk(t, i) { assert OpOk(s, i); }
    if s.turn > 0 { assert OpOk(s, s.turn - 1); }
  }

  lemma TurnKeeps(s: Session, throws: bool)
    requires Inv(s) && TurnReady(s)
    ensures Inv(TakeTurn(s, throws))
  {
    var t := TakeTurn(s, throws);
    forall i | 0 <= i < |t.ops| ensures OpOk(t, i) { assert OpOk(s, i); }
  }

  lemma SubmitKeeps(s: Session, guarded: bool)
    requires Inv(s)
    ensures Inv(OpStep(s, Submit(guarded)))
  {
    var t := OpStep(s, Submit(guarded));
    forall i | 0 <= i < |t.ops| ensures OpOk(t, i) { if i < |s.ops| { assert OpOk(s, i); } }
  }

  lemma SettleKeeps(s: Session, i: nat)
    requires Inv(s)
    ensures Inv(OpStep(s, Settle(i)))
  {
    var t := OpStep(s, Settle(i));
    forall j | 0 <= j < |t.ops| ensures OpOk(t, j) { assert OpOk(s, j); }
  }

  lemma CloseKeeps(s: Session, e: Event)
    requires Inv(s)
    ensures Inv(CloseStep(s, e))
  {
    if e.CloseWatchdog? { FireFatalKeeps(s); }
    var t := CloseStep(s, e);
    if !e.CloseWatchdog? {
      forall i | 0 <= i < |t.ops| ensures OpOk(t, i) { assert OpOk(s, i); }
    }
  }

  lemma ListenKeeps(s: Session, e: Event)
    requires Inv(s)
    ensures Inv(ListenStep(s, e))
  {
    var t := ListenStep(s, e);
    forall i | 0 <= i < |t.ops| ensures OpOk(t, i) { assert OpOk(s, i); }
  }

  lemma StepKeeps(s: Session, e: Event)
    requires Inv(s)
    ensures Inv(Step(s, e))
  {
    match e
    case Submit(guarded) => SubmitKeeps(s, guarded);
    case Turn(throws) => if TurnReady(s) { TurnKeeps(s, throws); }
    case Settle(i) => SettleKeeps(s, i);
    case Watchdog(i) => FireFatalKeeps(s);
    case HostFatal => FireFatalKeeps(s);
    case Listen(cb) => ListenKeeps(s, e);
    case Unlisten(cb) => ListenKeeps(s, e);
    case Fire(cb) => ListenKeeps(s, e);
    case _ => CloseKeeps(s, e);
  }

  lemma {:induction false} Reachable(s: Session, run: seq<Event>)
    requires Init(s)
    ensures Inv(Exec(s, run))
  {
    if run != [] {
      Reachable(s, run[..|run| - 1]);
      StepKeeps(Exec(s, run[..|run| - 1]), run[|run| - 1]);
    }
  }

  // ---- What the session promises ---------------------------------------------------------------

  /** No engine call is outstanding, neither of an op nor of _dispose. */
  predicate EngineFree(s: Session) {
    !Outstanding(s.last) && forall i | 0 <= i < |s.ops| :: !Outstanding(s.ops[i].st)
  }

  lemma StartStep(s: Session, e: Event)
    requires Inv(s) && Step(s, e).started != s.started
    ensures EngineFree(s) && !s.fatal
  {
    forall i | 0 <= i < |s.ops| ensures !Outstanding(s.ops[i].st) { assert OpOk(s, i); }
  }

  /**
   * An engine call never starts while an earlier one is unsettled, whatever
   * the watchdogs, the host and close() have done, and never once the session
   * is fatal.
   */
  lemma StartsAlone(s: Session, run: seq<Event>, e: Event)
    requires Init(s) && Step(Exec(s, run), e).started != Exec(s, run).started
    ensures EngineFree(Exec(s, run)) && !Exec(s, run).fatal
  {
    Reachable(s, run);
    StartStep(Exec(s, run), e);
  }

  /** Ops reach the engine in submission order, and _dispose only after all of them. */
  lemma StartsInOrder(s: Session, run: seq<Event>, j: nat, k: nat)
    requires Init(s) && j < k < |Exec(s, run).started| && Exec(s, run).started[k].OfOp?
    ensures Exec(s, run).started[j].OfOp? && Exec(s, run).started[j].i < Exec(s, run).started[k].i
  {
    Reachable(s, run);
  }

  predicate Dead(s: Session) {
    && s.fatal && !s.last.Running?
    && forall i | 0 <= i < |s.ops| && s.ops[i].guarded :: !s.ops[i].st.Running?
  }

  /** What a fatal session still does to one op: nothing starts, what waits is skipped. */
  predicate OnlyEnds(a: Op, b: Op) {
    && b.guarded == a.guarded
    && (a.st.Queued? ==> b.st.Queued? || b.st.Skipped?)
    && (a.st.Skipped? ==> b.st.Skipped?)
    && (a.st.Settled? ==> b.st.Settled?)
    && (Outstanding(a.st) ==> b.st == a.st || b.st.Settled?)
  }

  lemma FatalIsDead(s: Session)
    requires Inv(s) && s.fatal
    ensures Dead(s)
  {
    forall i | 0 <= i < |s.ops| && s.ops[i].guarded ensures !s.ops[i].st.Running? { assert OpOk(s, i); }
  }

  /** Nothing was started between two states, and every op of the first only ended. */
  predicate OnlyEnding(s: Session, t: Session) {
    && t.started == s.started && |s.ops| <= |t.ops|
    && forall i | 0 <= i < |s.ops| :: OnlyEnds(s.ops[i], t.ops[i])
  }

  lemma OnlyEndingTrans(a: Session, b: Session, c: Session)
    requires OnlyEnding(a, b) && OnlyEnding(b, c)
    ensures OnlyEnding(a, c)
  {
    forall i | 0 <= i < |a.ops| ensures OnlyEnds(a.ops[i], c.ops[i]) {
      assert OnlyEnds(a.ops[i], b.ops[i]) && OnlyEnds(b.ops[i], c.ops[i]);
    }
  }

  lemma FatalStep(s: Session, e: Event)
    requires Dead(s) && Inv(s)
    ensures Dead(Step(s, e)) && OnlyEnding(s, Step(s, e))
  {
    var t := Step(s, e);
    forall i | 0 <= i < |s.ops| ensures OnlyEnds(s.ops[i], t.ops[i]) { assert OpOk(s, i); }
    forall i | 0 <= i < |t.ops| && t.ops[i].guarded ensures !t.ops[i].st.Running? {
      if i < |s.ops| { assert OpOk(s, i); }
    }
  }

  /**
   * After a fatal error every pending guarded op has been rejected, no call of
   * an op or of _dispose ever starts again, and what is queued is only skipped.
   */
  lemma {:induction false} FatalIsFinal(s: Session, run: seq<Event>, more: seq<Event>)
    requires Init(s) && Exec(s, run).fatal
    ensures Dead(Exec(s, run)) && Dead(Exec(s, run + more))
    ensures OnlyEnding(Exec(s, run), Exec(s, run + more))
  {
    Reachable(s, run);
    FatalIsDead(Exec(s, run));
    if more == [] {
      assert run + more == run;
    } else {
      var shorter := more[..|more| - 1];
      assert (run + more)[..|run + more| - 1] == run + shorter;
      FatalIsFinal(s, run, shorter);
      Reachable(s, run + shorter);
      FatalStep(Exec(s, run + shorter), more[|more| - 1]);
      OnlyEndingTrans(Exec(s, run), Exec(s, run + shorter), Exec(s, run + more));
    }
  }

  /** A listener runs at most once for each time it was registered, and only after a fatal error. */
  lemma ListenersFireOnce(s: Session, run: seq<Event>, cb: nat)
    requires Init(s)
    ensures var t := Exec(s, run); t.fired[cb] <= t.registered[cb] && (t.fired[cb] > 0 ==> t.fatal)
  {
    Reachable(s, run);
  }

  // ---- How often a listener runs -----------------------------------------------------------------

  /** How often onFatal was called with cb while the session was already fatal. */
  function LateListens(s: Session, run: seq<Event>, cb: nat): nat {
    if run == [] then 0
    else
      var n := |run| - 1;
      LateListens(s, run[..n], cb) + (if run[n] == Listen(cb) && Exec(s, run[..n]).fatal then 1 else 0)
  }

  /** fireFatal found cb among the listeners and called it. */
  predicate Reached(s: Session, run: seq<Event>, cb: nat) {
    run != [] &&
    var n := |run| - 1;
    Reached(s, run[..n], cb)
    || (run[n] == Fire(cb) && Exec(s, run[..n]).fatal && cb in Exec(s, run[..n]).fatalCbs)
  }

  lemma FireCount(s: Session, e: Event, cb: nat)
    ensures var late := if e == Listen(cb) && s.fatal then 1 else 0;
      var found := if e == Fire(cb) && s.fatal && cb in s.fatalCbs then 1 else 0;
      Step(s, e).fired[cb] == s.fired[cb] + late + found
    ensures s.fatal ==> Step(s, e).fatal && (cb !in s.fatalCbs || e == Fire(cb) ==> cb !in Step(s, e).fatalCbs)
  {}

  /** A listener has run once for each late onFatal, and once if fireFatal reached it. */
  lemma {:induction false} TimesFired(s: Session, run: seq<Event>, cb: nat)
    requires Init(s)
    ensures var t := Exec(s, run);
      && t.fired[cb] == LateListens(s, run, cb) + (if Reached(s, run, cb) then 1 else 0)
      && (Reached(s, run, cb) ==> t.fatal && cb !in t.fatalCbs)
  {
    if run != [] {
      var n := |run| - 1;
      TimesFired(s, run[..n], cb);
      FireCount(Exec(s, run[..n]), run[n], cb);
    }
  }

  /** A function runs at most once over a run if and only if these two add up to at most one. */
  lemma RunsAtMostOnceIff(s: Session, run: seq<Event>, cb: nat)
    requires Init(s)
    ensures Exec(s, run).fired[cb] <= 1
       <==> LateListens(s, run, cb) + (if Reached(s, run, cb) then 1 else 0) <= 1
    ensures LateListens(s, run, cb) == 0 ==> Exec(s, run).fired[cb] <= 1
  {
    TimesFired(s, run, cb);
  }

  lemma ExecOne(s: Session, run: seq<Event>, e: Event)
    ensures Exec(s, run + [e]) == Step(Exec(s, run), e)
  {
    assert (run + [e])[..|run|] == run;
  }

  lemma Registered(s: Session, cb: nat)
    requires Init(s)
    ensures var t := Exec(s, [Listen(cb), HostFatal]); t.fatal && t.fatalCbs == {cb} && t.fired == multiset{}
  {
    ExecOne(s, [], Listen(cb));
    ExecOne(s, [Listen(cb)], HostFatal);
    assert [] + [Listen(cb)] == [Listen(cb)] && [Listen(cb)] + [HostFatal] == [Listen(cb), HostFatal];
  }

  /** One function, registered before and again after the fatal error, runs twice. */
  lemma SameFunctionRunsTwice(s: Session, cb: nat)
    requires Init(s)
    ensures Exec(s, [Listen(cb), HostFatal, Fire(cb), Listen(cb)]).fired[cb] == 2
  {
    var two := [Listen(cb), HostFatal];
    var three := two + [Fire(cb)];
    Registered(s, cb);
    ExecOne(s, two, Fire(cb));
    FireCount(Exec(s, two), Fire(cb), cb);
    ExecOne(s, three, Listen(cb));
    FireCount(Exec(s, three), Listen(cb), cb);
    assert three + [Listen(cb)] == [Listen(cb), HostFatal, Fire(cb), Listen(cb)];
  }
}
