/**
 * The WaitOnAddress semaphore: any number of threads run fs_sem_up and
 * fs_sem_down on one shared count, one atomic access or wait call per step,
 * with spurious wake-ups. The count is a 32-bit LONG and wraps like one.
 */
module Semaphore {

  const LONG_MAX: int := 0x7FFF_FFFF
  const LONG_MIN: int := -0x8000_0000

  /** Where one thread is. */
  datatype Pc =
    | Idle                // in neither operation
    | Bump                // fs_sem_up: before InterlockedIncrement
    | Wake                // fs_sem_up: before WakeByAddressSingle
    | Load                // fs_sem_down: before reading the count
    | Cas(cur: int)       // fs_sem_down: read a positive count
    | Wait(cur: int)      // fs_sem_down: before WaitOnAddress
    | Asleep              // blocked in WaitOnAddress

  datatype Sem = Sem(count: int, threads: seq<Pc>, start: int, ups: nat, downs: nat)

  datatype Call = CallUp | CallDown

  /** One step: a thread moves; `call` picks an idle thread's next operation and `woken` whom a wake reaches. */
  datatype Event = Move(t: nat, call: Call, woken: nat) | Spurious(t: nat)

  function Increment(c: int): int {
    if c == LONG_MAX then LONG_MIN else c + 1
  }

  function Set(s: Sem, t: nat, pc: Pc): Sem
    requires t < |s.threads|
  {
    s.(threads := s.threads[t := pc])
  }

  /** WakeByAddressSingle releases one waiter if there is any; the environment picks which. */
  function WakeOne(s: Sem, t: nat, woken: nat): Sem
    requires t < |s.threads|
  {
    if woken < |s.threads| && s.threads[woken].Asleep? then Set(Set(s, t, Idle), woken, Load)
    else if forall i | 0 <= i < |s.threads| :: !s.threads[i].Asleep? then Set(s, t, Idle)
    else s
  }

  function Step(s: Sem, e: Event): Sem {
    if e.t >= |s.threads| then s
    else if e.Spurious? then (if s.threads[e.t].Asleep? then Set(s, e.t, Load) else s)
    else
      match s.threads[e.t]
      case Idle => Set(s, e.t, if e.call.CallUp? then Bump else Load)
      case Bump => Set(s, e.t, Wake).(count := Increment(s.count), ups := s.ups + 1)
      case Wake => WakeOne(s, e.t, e.woken)
      case Load => Set(s, e.t, if s.count > 0 then Cas(s.count) else Wait(s.count))
      case Cas(cur) =>
        if s.count == cur then Set(s, e.t, Idle).(count := cur - 1, downs := s.downs + 1)
        else Set(s, e.t, Load)
      case Wait(cur) => Set(s, e.t, if s.count == cur then Asleep else Load)
      case Asleep => s
  }

  function Exec(s: Sem, run: seq<Event>): Sem {
    if run == [] then s else Step(Exec(s, run[..|run| - 1]), run[|run| - 1])
  }

  /** A fresh semaphore with any number of threads, none inside an operation. */
  predicate Init(s: Sem) {
    && 0 <= s.start <= LONG_MAX && s.count == s.start && s.ups == 0 && s.downs == 0
    && forall i | 0 <= i < |s.threads| :: s.threads[i].Idle?
  }

  /** An up on a full count: InterlockedIncrement wraps. */
  predicate Overflows(s: Sem, e: Event) {
    e.Move? && e.t < |s.threads| && s.threads[e.t].Bump? && s.count == LONG_MAX
  }

  /** No up of the run meets a full count. */
  predicate Fits(s: Sem, run: seq<Event>) {
    run == [] || (Fits(s, run[..|run| - 1]) && !Overflows(Exec(s, run[..|run| - 1]), run[|run| - 1]))
  }

  // ---- Counting threads -----------------------------------------------------------

  /** A thread that will look at the count again without being woken. */
  predicate Attentive(pc: Pc) { pc.Load? || pc.Cas? || pc.Wait? }

  /** A thread that can make up for a count above zero. */
  predicate Helpful(pc: Pc) { Attentive(pc) || pc.Wake? }

  function Helpers(ts: seq<Pc>): nat {
    if ts == [] then 0 else Helpers(ts[..|ts| - 1]) + (if Helpful(ts[|ts| - 1]) then 1 else 0)
  }

  function Sleepers(ts: seq<Pc>): nat {
    if ts == [] then 0 else Sleepers(ts[..|ts| - 1]) + (if ts[|ts| - 1].Asleep? then 1 else 0)
  }

  /** Changing one thread changes each tally by what that thread contributed. */
  lemma {:induction false} TallyUpdate(ts: seq<Pc>, t: nat, pc: Pc)
    requires t < |ts|
    ensures Helpers(ts[t := pc]) ==
      Helpers(ts) - (if Helpful(ts[t]) then 1 else 0) + (if Helpful(pc) then 1 else 0)
    ensures Sleepers(ts[t := pc]) ==
      Sleepers(ts) - (if ts[t].Asleep? then 1 else 0) + (if pc.Asleep? then 1 else 0)
  {
    var n := |ts| - 1;
    if t < n {
      TallyUpdate(ts[..n], t, pc);
      assert ts[t := pc][..n] == ts[..n][t := pc];
    } else {
      assert ts[t := pc][..n] == ts[..n];
    }
  }

  lemma {:induction false} SleeperExists(ts: seq<Pc>)
    ensures Sleepers(ts) > 0 <==> exists i | 0 <= i < |ts| :: ts[i].Asleep?
  {
    if ts != [] {
      var n := |ts| - 1;
      SleeperExists(ts[..n]);
      assert forall i | 0 <= i < n :: ts[..n][i] == ts[i];
      if ts[n].Asleep? { assert Sleepers(ts) > 0; }
    }
  }

  // ---- Invariant --------------------------------------------------------------------

  predicate Local(s: Sem) {
    forall i | 0 <= i < |s.threads| ::
      (s.threads[i].Cas? ==> s.threads[i].cur > 0) && (s.threads[i].Wait? ==> s.threads[i].cur <= 0)
  }

  /** While a thread sleeps, those that can make up for the count number at least the count. */
  predicate Balanced(s: Sem) {
    Local(s) && (Sleepers(s.threads) > 0 ==> Helpers(s.threads) >= s.count)
  }

  /** The count is not negative, and every completed down is paid for by the initial count or an up. */
  predicate Exact(s: Sem) {
    0 <= s.count && s.downs + s.count == s.start + s.ups
  }

  /** A wake-up hands its own obligation to the thread it releases. */
  lemma WakeKeeps(s: Sem, t: nat, woken: nat)
    requires Balanced(s) && t < |s.threads| && s.threads[t].Wake?
    ensures Balanced(WakeOne(s, t, woken))
  {
    SleeperExists(s.threads);
    TallyUpdate(s.threads, t, Idle);
    if woken < |s.threads| && s.threads[woken].Asleep? {
      TallyUpdate(s.threads[t := Idle], woken, Load);
    }
  }

  lemma ExactStep(s: Sem, e: Event)
    requires Local(s) && Exact(s) && !Overflows(s, e)
    ensures Exact(Step(s, e))
  {}

  /** Every step keeps the balance, and one that does not wrap the count keeps it exact. */
  lemma StepKeeps(s: Sem, e: Event)
    requires Balanced(s)
    ensures Balanced(Step(s, e))
    ensures Exact(s) && !Overflows(s, e) ==> Exact(Step(s, e))
  {
    if Exact(s) && !Overflows(s, e) { ExactStep(s, e); }
    if e.t < |s.threads| {
      if e.Move? && s.threads[e.t].Wake? {
        WakeKeeps(s, e.t, e.woken);
      } else {
        var pc := Step(s, e).threads[e.t];
        assert Step(s, e).threads == s.threads[e.t := pc];
        TallyUpdate(s.threads, e.t, pc);
      }
    }
  }

  lemma {:induction false} Reachable(s: Sem, run: seq<Event>)
    requires Init(s)
    ensures Balanced(Exec(s, run)) && Exec(s, run).start == s.start
    ensures Fits(s, run) ==> Exact(Exec(s, run))
  {
    if run == [] {
      SleeperExists(s.threads);
    } else {
      Reachable(s, run[..|run| - 1]);
      StepKeeps(Exec(s, run[..|run| - 1]), run[|run| - 1]);
    }
  }

  // ---- What the semaphore promises -----------------------------------------------------

  /** In every interleaving the count stays exact throughout if and only if no up meets a full count. */
  lemma {:induction false} CountIsExact(s: Sem, run: seq<Event>)
    requires Init(s)
    ensures Fits(s, run) <==> forall n | 0 <= n <= |run| :: Exact(Exec(s, run[..n]))
  {
    if run != [] {
      var shorter := run[..|run| - 1];
      CountIsExact(s, shorter);
      assert run[..|run|] == run;
      assert forall n | 0 <= n < |run| :: shorter[..n] == run[..n];
      if Fits(s, run) { Reachable(s, run); }
    }
  }

  lemma {:induction false} NoHelpers(ts: seq<Pc>)
    requires forall i | 0 <= i < |ts| :: !Helpful(ts[i])
    ensures Helpers(ts) == 0
  {
    if ts != [] { NoHelpers(ts[..|ts| - 1]); }
  }

  /**
   * No wake-up is lost in any interleaving, whether or not the count wraps: if a
   * thread sleeps while the count is positive, the downers that will look at the
   * count again and the ups still about to wake number at least the count. So when
   * every thread is idle or asleep, a sleeper means the count is not positive, and
   * zero if no up met a full count.
   */
  lemma NoLostWakeUp(s: Sem, run: seq<Event>, sleeper: nat)
    requires Init(s) && sleeper < |Exec(s, run).threads| && Exec(s, run).threads[sleeper].Asleep?
    ensures var t := Exec(s, run); Helpers(t.threads) >= t.count
    ensures var t := Exec(s, run);
      (forall i | 0 <= i < |t.threads| :: t.threads[i].Idle? || t.threads[i].Asleep?)
      ==> t.count <= 0 && (Fits(s, run) ==> t.count == 0)
  {
    Reachable(s, run);
    var t := Exec(s, run);
    SleeperExists(t.threads);
    if forall i | 0 <= i < |t.threads| :: t.threads[i].Idle? || t.threads[i].Asleep? {
      NoHelpers(t.threads);
    }
  }

  /** A full count and one up: the wrap is real. */
  lemma OneUpTooMany(s: Sem)
    requires Init(s) && s.start == LONG_MAX && |s.threads| == 1
    ensures Exec(s, [Move(0, CallUp, 0), Move(0, CallUp, 0)]).count == LONG_MIN
  {
    var run := [Move(0, CallUp, 0), Move(0, CallUp, 0)];
    assert run[..1] == [run[0]] && run[..1][..0] == [];
    assert Exec(s, run[..1]) == Step(Exec(s, []), run[0]);
    assert Exec(s, run) == Step(Exec(s, run[..1]), run[1]);
  }
}
