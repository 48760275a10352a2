/**
 * Concurrent enters of one session: any number of threads enter the whole disk
 * or filesystem slots, with one mutex and a condition variable per mount, and
 * nobody leaves. Each step is one critical section or one kernel call.
 */
module MountProtocol {
  import opened MountNames

  datatype PartState = New | Mounting | Mounted | Failed

  const BUSY_RETRY_TOTAL_MS: nat := 500
  const BUSY_RETRY_STEP_MS: nat := 10
  const EBUSY: int := 16

  datatype Result = Path(path: string) | Error(rc: int)

  /** A thread; `k` is what it enters, 0 for the whole disk, otherwise slot k - 1. */
  datatype Thread =
    | Idle
    | AtLock(k: nat)                     // about to look at the state under the mutex
    | Waiting(k: nat)                    // in pthread_cond_wait
    | InMount(k: nat, waited: nat)       // in the kernel mount call
    | Busy(k: nat, waited: nat)          // mount said EBUSY; about to run busy_is_transient
    | Record(k: nat, rc: int)            // about to record the outcome
    | Returned(k: nat, result: Result)

  /** `owner` (who set MOUNTING) and `mounts` (successful kernel mounts) are histories. */
  datatype Session = Session(
    disk: nat, index: seq<nat>,
    st: seq<PartState>, threads: seq<Thread>,
    owner: map<nat, nat>, mounts: seq<nat>)

  datatype Kernel = Success | IsBusy | Fails(errno: int)

  datatype Event = Move(t: nat, k: nat, answer: Kernel) | Spurious(t: nat)

  predicate Shape(s: Session) {
    |s.st| == |s.index| + 1 == |s.mounts|
  }

  predicate Init(s: Session) {
    && Shape(s)
    && (forall k | 0 <= k < |s.st| :: s.st[k].New? && s.mounts[k] == 0)
    && (forall t | 0 <= t < |s.threads| :: s.threads[t].Idle?)
    && s.owner == map[]
  }

  /** conflict_mounted_locked */
  predicate Conflict(s: Session, k: nat)
    requires |s.st| > 0
  {
    if k != 0 then !s.st[0].New?
    else exists i | 1 <= i < |s.st| :: s.st[i].Mounting? || s.st[i].Mounted?
  }

  function MountName(s: Session, k: nat): string
    requires Shape(s) && k < |s.st|
  {
    if k == 0 then WholeName(s.disk) else PartName(s.disk, s.index[k - 1])
  }

  function Go(s: Session, t: nat, to: Thread): seq<Thread>
    requires t < |s.threads|
  {
    s.threads[t := to]
  }

  /** pthread_cond_broadcast: every waiter on k will look again. */
  function Broadcast(ts: seq<Thread>, k: nat): seq<Thread> {
    seq(|ts|, i requires 0 <= i < |ts| => if ts[i] == Waiting(k) then AtLock(k) else ts[i])
  }

  /** The first critical section of an enter. */
  function Look(s: Session, t: nat, k: nat): Session
    requires Shape(s) && t < |s.threads| && k < |s.st|
  {
    match s.st[k]
    case Mounting => s.(threads := Go(s, t, Waiting(k)))
    case Mounted => s.(threads := Go(s, t, Returned(k, Path(MountedPath(MountName(s, k))))))
    case Failed => s.(threads := Go(s, t, Returned(k, Error(-3))))
    case New => s.(st := s.st[k := Mounting], owner := s.owner[k := t], threads := Go(s, t, InMount(k, 0)))
  }

  /** What a slot or the whole disk becomes: only a slot fails for good, and not on EBUSY. */
  function Outcome(k: nat, rc: int): PartState {
    if rc == 0 then Mounted else if rc == -EBUSY || k == 0 then New else Failed
  }

  /** The last critical section: record the outcome and broadcast. */
  function Finish(s: Session, t: nat, k: nat, rc: int): Session
    requires Shape(s) && t < |s.threads| && k < |s.st|
  {
    var result := if rc == 0 then Path(MountedPath(MountName(s, k))) else Error(rc);
    s.(st := s.st[k := Outcome(k, rc)], owner := s.owner - {k},
       threads := Broadcast(Go(s, t, Returned(k, result)), k))
  }

  /** The answer of one kernel mount call. */
  function Mount(s: Session, t: nat, k: nat, waited: nat, answer: Kernel): Session
    requires Shape(s) && t < |s.threads| && k < |s.st|
  {
    match answer
    case Success => s.(mounts := s.mounts[k := s.mounts[k] + 1], threads := Go(s, t, Record(k, 0)))
    case IsBusy =>
      s.(threads := Go(s, t, if waited >= BUSY_RETRY_TOTAL_MS then Record(k, -EBUSY) else Busy(k, waited)))
    case Fails(errno) => if errno > 0 then s.(threads := Go(s, t, Record(k, -errno))) else s
  }

  function Move1(s: Session, e: Event): Session
    requires Shape(s) && e.Move? && e.t < |s.threads|
  {
    var th := s.threads[e.t];
    if th.Idle? then (if e.k < |s.st| then s.(threads := Go(s, e.t, AtLock(e.k))) else s)
    else if th.Waiting? || th.k >= |s.st| then s
    else if th.AtLock? then Look(s, e.t, th.k)
    else if th.InMount? then Mount(s, e.t, th.k, th.waited, e.answer)
    else if th.Busy? then
      s.(threads := Go(s, e.t,
        if Conflict(s, th.k) then Record(th.k, -EBUSY) else InMount(th.k, th.waited + BUSY_RETRY_STEP_MS)))
    else if th.Record? then Finish(s, e.t, th.k, th.rc)
    else s.(threads := Go(s, e.t, Idle))
  }

  function Step(s: Session, e: Event): Session
    requires Shape(s)
    ensures Shape(Step(s, e))
  {
    if e.t >= |s.threads| then s
    else if e.Spurious? then
      (if s.threads[e.t].Waiting? then s.(threads := Go(s, e.t, AtLock(s.threads[e.t].k))) else s)
    else Move1(s, e)
  }

  function Exec(s: Session, run: seq<Event>): (t: Session)
    requires Shape(s)
    ensures Shape(t)
  {
    if run == [] then s else Step(Exec(s, run[..|run| - 1]), run[|run| - 1])
  }

  // ---- Invariant --------------------------------------------------------------------------------

  /** Thread t has the mount of k in flight. */
  predicate InFlight(th: Thread, k: nat) {
    (th.InMount? || th.Busy? || th.Record?) && th.k == k
  }

  predicate Owns(s: Session, t: nat, k: nat) {
    k in s.owner && s.owner[k] == t
  }

  predicate ThreadOk(s: Session, t: nat)
    requires Shape(s) && t < |s.threads|
  {
    match s.threads[t]
    case Idle => true
    case AtLock(k) => k < |s.st|
    case Waiting(k) => k < |s.st| && s.st[k].Mounting?
    case InMount(k, w) => k < |s.st| && Owns(s, t, k) && s.mounts[k] == 0 && w <= BUSY_RETRY_TOTAL_MS && w % BUSY_RETRY_STEP_MS == 0
    case Busy(k, w) => k < |s.st| && Owns(s, t, k) && s.mounts[k] == 0 && w < BUSY_RETRY_TOTAL_MS && w % BUSY_RETRY_STEP_MS == 0
    case Record(k, rc) => k < |s.st| && Owns(s, t, k) && s.mounts[k] == (if rc == 0 then 1 else 0)
    case Returned(k, r) =>
      k < |s.st| && (r.Path? ==> s.st[k].Mounted? && r.path == MountedPath(MountName(s, k)))
  }

  predicate KeyOk(s: Session, k: nat)
    requires Shape(s) && k < |s.st|
  {
    && (s.st[k].Mounting? <==> k in s.owner)
    && (k in s.owner ==> s.owner[k] < |s.threads| && InFlight(s.threads[s.owner[k]], k))
    && (s.st[k].Mounted? ==> s.mounts[k] == 1)
    && (s.st[k].New? || s.st[k].Failed? ==> s.mounts[k] == 0)
    && (k == 0 ==> !s.st[k].Failed?)
  }

  predicate Inv(s: Session) {
    && Shape(s)
    && (forall t | 0 <= t < |s.threads| :: ThreadOk(s, t))
    && (forall k | 0 <= k < |s.st| :: KeyOk(s, k))
  }

  lemma LookKeeps(s: Session, t: nat, k: nat)
    requires Inv(s) && t < |s.threads| && k < |s.st| && s.threads[t] == AtLock(k)
    ensures Inv(Look(s, t, k))
  {
    var s' := Look(s, t, k);
    assert ThreadOk(s, t) && KeyOk(s, k);
    forall u | 0 <= u < |s'.threads| ensures ThreadOk(s', u) { assert ThreadOk(s, u); }
    forall j | 0 <= j < |s'.st| ensures KeyOk(s', j) { assert KeyOk(s, j); }
  }

  lemma FinishKeeps(s: Session, t: nat, k: nat, rc: int)
    requires Inv(s) && t < |s.threads| && s.threads[t] == Record(k, rc)
    ensures k < |s.st| && Inv(Finish(s, t, k, rc))
  {
    assert ThreadOk(s, t) && KeyOk(s, k);
    var s' := Finish(s, t, k, rc);
    forall u | 0 <= u < |s'.threads| ensures ThreadOk(s', u) { assert ThreadOk(s, u); }
    forall j | 0 <= j < |s'.st| ensures KeyOk(s', j) { assert KeyOk(s, j); }
  }

  lemma MountKeeps(s: Session, t: nat, k: nat, waited: nat, answer: Kernel)
    requires Inv(s) && t < |s.threads| && k < |s.st| && s.threads[t] == InMount(k, waited)
    ensures Inv(Mount(s, t, k, waited, answer))
  {
    var s' := Mount(s, t, k, waited, answer);
    assert ThreadOk(s, t) && KeyOk(s, k);
    forall u | 0 <= u < |s'.threads| ensures ThreadOk(s', u) { assert ThreadOk(s, u); }
    forall j | 0 <= j < |s'.st| ensures KeyOk(s', j) { assert KeyOk(s, j); }
  }

  lemma QuietKeeps(s: Session, e: Event)
    requires Inv(s) && e.t < |s.threads|
    requires e.Move? ==> !s.threads[e.t].AtLock? && !s.threads[e.t].InMount? && !s.threads[e.t].Record?
    ensures Inv(Step(s, e))
  {
    var s' := Step(s, e);
    forall u | 0 <= u < |s'.threads| ensures ThreadOk(s', u) { assert ThreadOk(s, u) && ThreadOk(s, e.t); }
    forall j | 0 <= j < |s'.st| ensures KeyOk(s', j) { assert KeyOk(s, j) && ThreadOk(s, e.t); }
  }

  lemma StepKeeps(s: Session, e: Event)
    requires Inv(s)
    ensures Inv(Step(s, e))
  {
    if e.t < |s.threads| {
      assert ThreadOk(s, e.t);
      var th := s.threads[e.t];
      if e.Move? && th.AtLock? {
        LookKeeps(s, e.t, th.k);
      } else if e.Move? && th.InMount? {
        MountKeeps(s, e.t, th.k, th.waited, e.answer);
      } else if e.Move? && th.Record? {
        FinishKeeps(s, e.t, th.k, th.rc);
      } else {
        QuietKeeps(s, e);
      }
    }
  }

  lemma {:induction false} Reachable(s: Session, run: seq<Event>)
    requires Init(s)
    ensures Inv(Exec(s, run))
  {
    if run != [] {
      Reachable(s, run[..|run| - 1]);
      StepKeeps(Exec(s, run[..|run| - 1]), run[|run| - 1]);
    }
  }

  // ---- What the session promises -------------------------------------------------------------------

  predicate Exclusive(t: Session, k: nat)
    requires k < |t.st|
  {
    && (t.st[k].Mounting? <==> exists i | 0 <= i < |t.threads| :: InFlight(t.threads[i], k))
    && (forall i, j | 0 <= i < j < |t.threads| :: !(InFlight(t.threads[i], k) && InFlight(t.threads[j], k)))
    && (forall i | 0 <= i < |t.threads| :: t.threads[i] == Waiting(k) ==> t.st[k].Mounting?)
  }

  /**
   * The state is MOUNTING exactly when a thread has that mount in flight, and
   * then only one has; a thread waits only while it is MOUNTING.
   */
  lemma OneMountInFlight(s: Session, run: seq<Event>, k: nat)
    requires Init(s) && k < |Exec(s, run).st|
    ensures Exclusive(Exec(s, run), k)
  {
    Reachable(s, run);
    var t := Exec(s, run);
    assert KeyOk(t, k);
    forall i | 0 <= i < |t.threads|
      ensures InFlight(t.threads[i], k) ==> t.st[k].Mounting? && Owns(t, i, k)
      ensures t.threads[i] == Waiting(k) ==> t.st[k].Mounting?
    {
      assert ThreadOk(t, i);
    }
  }

  /** At most one kernel mount of it ever succeeds, and MOUNTED is recorded only after one did. */
  lemma MountsAtMostOnce(s: Session, run: seq<Event>, k: nat)
    requires Init(s) && k < |Exec(s, run).st|
    ensures var t := Exec(s, run);
      t.mounts[k] <= 1 && (t.st[k].Mounted? ==> t.mounts[k] == 1) && (t.mounts[k] == 1 ==> t.st[k].Mounted? || t.st[k].Mounting?)
  {
    Reachable(s, run);
    var t := Exec(s, run);
    assert KeyOk(t, k);
    if k in t.owner { assert ThreadOk(t, t.owner[k]); }
  }

  /** Every caller that succeeds gets the same path, that of the mount point. */
  lemma SamePathForAll(s: Session, run: seq<Event>, i: nat)
    requires Init(s) && i < |Exec(s, run).threads|
    requires Exec(s, run).threads[i].Returned? && Exec(s, run).threads[i].result.Path?
    ensures var t := Exec(s, run); var k := t.threads[i].k;
      k < |t.st| && t.st[k].Mounted? && t.threads[i].result.path == MountedPath(MountName(t, k))
  {
    Reachable(s, run);
    assert ThreadOk(Exec(s, run), i);
  }

  /** Thread t, moving, gets the answer of a kernel mount call. */
  predicate Answered(s: Session, e: Event, t: nat) {
    && e.Move? && e.t == t < |s.threads| && s.threads[t].InMount? && s.threads[t].k < |s.st|
    && (e.answer.Fails? ==> e.answer.errno > 0)
  }

  /** How many kernel mount calls thread t has made in its latest enter. */
  function Attempts(s: Session, run: seq<Event>, t: nat): nat
    requires Shape(s)
  {
    if run == [] then 0
    else
      var n := |run| - 1;
      var before, e := Exec(s, run[..n]), run[n];
      if Answered(before, e, t) then Attempts(s, run[..n], t) + 1
      else if e.Move? && e.t == t < |before.threads| && before.threads[t].Idle? then 0
      else Attempts(s, run[..n], t)
  }

  /** The calls made, by where the thread is. */
  predicate Counted(th: Thread, n: nat) {
    match th
    case AtLock(_) => n == 0
    case Waiting(_) => n == 0
    case InMount(_, w) => w == 10 * n && n <= 50
    case Busy(_, w) => w + 10 == 10 * n && n <= 50
    case _ => n <= 51
  }

  lemma CountedStep(s: Session, e: Event, t: nat, n: nat)
    requires Inv(s) && t < |s.threads| && Counted(s.threads[t], n)
    ensures Inv(Step(s, e)) && t < |Step(s, e).threads|
    ensures var m := if Answered(s, e, t) then n + 1 else if e.Move? && e.t == t && s.threads[t].Idle? then 0 else n;
      Counted(Step(s, e).threads[t], m)
  {
    StepKeeps(s, e);
    assert ThreadOk(s, t);
    if e.t < |s.threads| { assert ThreadOk(s, e.t); }
  }

  lemma {:induction false} AttemptsCounted(s: Session, run: seq<Event>, t: nat)
    requires Init(s) && t < |s.threads|
    ensures t < |Exec(s, run).threads| && Counted(Exec(s, run).threads[t], Attempts(s, run, t))
  {
    if run != [] {
      var n := |run| - 1;
      AttemptsCounted(s, run[..n], t);
      Reachable(s, run[..n]);
      CountedStep(Exec(s, run[..n]), run[n], t, Attempts(s, run[..n], t));
    }
  }

  /** No enter makes more than 51 kernel mount calls, however the others interfere. */
  lemma AttemptsBounded(s: Session, run: seq<Event>, t: nat)
    requires Init(s) && t < |s.threads|
    ensures Attempts(s, run, t) <= 51
  {
    AttemptsCounted(s, run, t);
  }

  lemma OutcomeStays(s: Session, e: Event, k: nat)
    requires Inv(s) && k < |s.st| && (s.st[k].Failed? || s.st[k].Mounted?)
    ensures k < |Step(s, e).st| && Step(s, e).st[k] == s.st[k]
  {
    assert KeyOk(s, k);
    if e.t < |s.threads| { assert ThreadOk(s, e.t); }
  }

  /** FAILED is never left, and neither is MOUNTED while nobody leaves. */
  lemma {:induction false} OutcomesAreFinal(s: Session, run: seq<Event>, more: seq<Event>, k: nat)
    requires Init(s) && k < |Exec(s, run).st|
    requires Exec(s, run).st[k].Failed? || Exec(s, run).st[k].Mounted?
    ensures k < |Exec(s, run + more).st| && Exec(s, run + more).st[k] == Exec(s, run).st[k]
  {
    if more == [] {
      assert run + more == run;
    } else {
      var shorter := more[..|more| - 1];
      assert (run + more)[..|run + more| - 1] == run + shorter;
      OutcomesAreFinal(s, run, shorter, k);
      Reachable(s, run + shorter);
      OutcomeStays(Exec(s, run + shorter), more[|more| - 1], k);
    }
  }
}
