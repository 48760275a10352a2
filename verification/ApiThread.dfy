/**
 * Calls into the wasm bundle: WasmApi.call on the owning thread, the request
 * queue and the API thread in C, and the completion messages between them.
 *
 * Requests live in linear memory. `malloc` may hand out any address that is
 * not in use, so a freed request's address comes back for a later call.
 */
module ApiThread {
  import opened Bytes

  /** struct anyfs_ts_req, as far as the protocol uses it. */
  datatype Req = Req(id: nat, ret: int)

  /** Where one WasmApi.call is. */
  datatype Call =
    | Waiting(at: int)     // in `pending`, its request at address `at`
    | Resolved(at: int)    // anyfsApiDone ran; the await is about to continue
    | Value(ret: int)      // settled: returned ret
    | Failed(at: int)      // settled: rejected with the module's failure; memory is not freed
    | Refused              // settled: no API thread to run it

  /**
   * `calls[id]` is the call with that id, so nextId is |calls|; `first` is the
   * first id the API thread accepted. `ran` is a history: each finished run
   * with its result, in the order of the runs.
   */
  datatype Api = Api(
    calls: seq<Call>, first: nat, failed: bool, started: bool,
    heap: map<int, Req>, queue: seq<int>, running: Option<int>, done: seq<nat>,
    ran: seq<Req>)

  datatype Event =
    | Submit(at: int)      // call(): malloc returned `at`; queued
    | NoThread(at: int)    // call(): anyfs_ts_api_submit returned -1
    | Take                 // API thread pops the head
    | Finish(ret: int)     // API thread ran the op, stored ret, posted anyfsApiDone
    | Notify               // owning thread runs the oldest anyfsApiDone
    | Resume(id: nat)      // the awaiting call continues: read the result, free the request
    | Fail                 // fail(): the module aborted

  predicate Init(s: Api) {
    s == Api([Refused], 1, false, false, map[], [], None, [], [])
  }

  function DoSubmit(s: Api, at: int): Api {
    if s.failed || at in s.heap then s
    else s.(calls := s.calls + [Waiting(at)], started := true, queue := s.queue + [at],
            heap := s.heap[at := Req(|s.calls|, 0)])
  }

  /** Only the first use can fail: pthread_create runs once. */
  function DoNoThread(s: Api, at: int): Api {
    if s.failed || s.started || at in s.heap then s
    else s.(calls := s.calls + [Refused], first := s.first + 1)
  }

  function DoTake(s: Api): Api {
    if s.running.Some? || s.queue == [] then s
    else s.(running := Some(s.queue[0]), queue := s.queue[1..])
  }

  function DoFinish(s: Api, ret: int): Api {
    if s.running.None? || s.running.value !in s.heap then s
    else
      var r := s.heap[s.running.value].(ret := ret);
      s.(running := None, heap := s.heap[s.running.value := r], done := s.done + [r.id], ran := s.ran + [r])
  }

  function DoNotify(s: Api): Api {
    if s.done == [] then s
    else
      var id := s.done[0];
      s.(done := s.done[1..],
         calls := if id < |s.calls| && s.calls[id].Waiting? then s.calls[id := Resolved(s.calls[id].at)] else s.calls)
  }

  function DoResume(s: Api, id: nat): Api {
    if id >= |s.calls| || !s.calls[id].Resolved? || s.calls[id].at !in s.heap then s
    else
      var at := s.calls[id].at;
      s.(calls := s.calls[id := Value(s.heap[at].ret)], heap := if s.failed then s.heap else s.heap - {at})
  }

  function Reject(c: Call): Call {
    if c.Waiting? then Failed(c.at) else c
  }

  function DoFail(s: Api): Api {
    if s.failed then s
    else s.(failed := true, calls := seq(|s.calls|, i requires 0 <= i < |s.calls| => Reject(s.calls[i])))
  }

  function Step(s: Api, e: Event): Api {
    match e
    case Submit(at) => DoSubmit(s, at)
    case NoThread(at) => DoNoThread(s, at)
    case Take => DoTake(s)
    case Finish(ret) => DoFinish(s, ret)
    case Notify => DoNotify(s)
    case Resume(id) => DoResume(s, id)
    case Fail => DoFail(s)
  }

  function Exec(s: Api, run: seq<Event>): Api {
    if run == [] then s else Step(Exec(s, run[..|run| - 1]), run[|run| - 1])
  }

  // ---- Invariant -------------------------------------------------------------------------

  function Busy(s: Api): nat {
    if s.running.Some? then 1 else 0
  }

  /** Runs, the run under way and the queue cover the accepted ids in order. */
  predicate Shape(s: Api) {
    && 1 <= s.first <= |s.calls|
    && |s.ran| + Busy(s) + |s.queue| == |s.calls| - s.first
    && (s.started <==> s.first < |s.calls|)
    && |s.done| <= |s.ran|
    && (forall i | 0 <= i < |s.ran| :: s.ran[i].id == s.first + i)
    && (forall i | 0 <= i < |s.done| :: s.done[i] == s.first + |s.ran| - |s.done| + i)
    && (forall id | 0 <= id < s.first :: s.calls[id].Refused?)
  }

  /** The address of an accepted call whose op has not finished. */
  function Address(s: Api, id: nat): int
    requires Shape(s) && s.first + |s.ran| <= id < |s.calls|
  {
    var k := id - s.first - |s.ran|;
    if s.running.Some? && k == 0 then s.running.value else s.queue[k - Busy(s)]
  }

  /** `at` holds the request of call id. */
  predicate Holds(s: Api, at: int, id: nat) {
    at in s.heap && s.heap[at].id == id
  }

  /** The state of call id, given how far its request has come. */
  predicate Consistent(s: Api, id: nat)
    requires Shape(s) && s.first <= id < |s.calls|
  {
    var c, i := s.calls[id], id - s.first;
    if c.Failed? then
      s.failed && Holds(s, c.at, id) && (i >= |s.ran| ==> Address(s, id) == c.at)
    else if i < |s.ran| - |s.done| then
      (c.Resolved? && c.at in s.heap && s.heap[c.at] == s.ran[i]) || c == Value(s.ran[i].ret)
    else if i < |s.ran| then
      c.Waiting? && !s.failed && c.at in s.heap && s.heap[c.at] == s.ran[i]
    else
      c == Waiting(Address(s, id)) && !s.failed && Holds(s, c.at, id)
  }

  predicate Inv(s: Api) {
    Shape(s) && forall id | s.first <= id < |s.calls| :: Consistent(s, id)
  }

  lemma SubmitKeeps(s: Api, at: int)
    requires Inv(s)
    ensures Inv(DoSubmit(s, at))
  {
    var t := DoSubmit(s, at);
    forall id | t.first <= id < |t.calls| ensures Consistent(t, id) {
      if id < |s.calls| { assert Consistent(s, id); }
    }
  }

  lemma NoThreadKeeps(s: Api, at: int)
    requires Inv(s)
    ensures Inv(DoNoThread(s, at))
  {
  }

  lemma TakeKeeps(s: Api)
    requires Inv(s)
    ensures Inv(DoTake(s))
  {
    var t := DoTake(s);
    forall id | t.first <= id < |t.calls| ensures Consistent(t, id) {
      assert Consistent(s, id);
      if id >= s.first + |s.ran| { assert Address(t, id) == Address(s, id); }
    }
  }

  lemma FinishKeeps(s: Api, ret: int)
    requires Inv(s)
    ensures Inv(DoFinish(s, ret))
  {
    var t := DoFinish(s, ret);
    if s.running.Some? {
      var mine := s.first + |s.ran|;
      assert Consistent(s, mine) && Address(s, mine) == s.running.value;
      forall id | t.first <= id < |t.calls| ensures Consistent(t, id) {
        assert Consistent(s, id);
        if id > mine { assert Address(t, id) == Address(s, id); }
      }
    }
  }

  lemma NotifyKeeps(s: Api)
    requires Inv(s)
    ensures Inv(DoNotify(s))
  {
    var t := DoNotify(s);
    if s.done != [] {
      assert Consistent(s, s.done[0]);
      forall id | t.first <= id < |t.calls| ensures Consistent(t, id) {
        assert Consistent(s, id);
      }
    }
  }

  lemma ResumeKeeps(s: Api, id: nat)
    requires Inv(s)
    ensures Inv(DoResume(s, id))
  {
    var t := DoResume(s, id);
    forall other | t.first <= other < |t.calls| ensures Consistent(t, other) {
      assert Consistent(s, other);
      if s.first <= id < |s.calls| { assert Consistent(s, id); }
    }
  }

  lemma FailKeeps(s: Api)
    requires Inv(s)
    ensures Inv(DoFail(s))
  {
    var t := DoFail(s);
    forall id | t.first <= id < |t.calls| ensures Consistent(t, id) {
      assert Consistent(s, id);
    }
  }

  lemma StepKeeps(s: Api, e: Event)
    requires Inv(s)
    ensures Inv(Step(s, e))
  {
    match e
    case Submit(at) => SubmitKeeps(s, at);
    case NoThread(at) => NoThreadKeeps(s, at);
    case Take => TakeKeeps(s);
    case Finish(ret) => FinishKeeps(s, ret);
    case Notify => NotifyKeeps(s);
    case Resume(id) => ResumeKeeps(s, id);
    case Fail => FailKeeps(s);
  }

  lemma {:induction false} Reachable(s: Api, run: seq<Event>)
    requires Init(s)
    ensures Inv(Exec(s, run))
  {
    if run != [] {
      Reachable(s, run[..|run| - 1]);
      StepKeeps(Exec(s, run[..|run| - 1]), run[|run| - 1]);
    }
  }

  // ---- What the API promises ------------------------------------------------------------------

  predicate Settled(c: Call) { c.Value? || c.Failed? || c.Refused? }

  /**
   * Requests run in submission order, each at most once, and when the API
   * thread is idle with an empty queue each accepted one exactly once. The
   * memory of what is queued or running still holds that request.
   */
  lemma RunsInOrder(s: Api, run: seq<Event>)
    requires Init(s)
    ensures var t := Exec(s, run);
      && t.first <= |t.calls|
      && |t.ran| + Busy(t) + |t.queue| == |t.calls| - t.first
      && (forall i | 0 <= i < |t.ran| :: t.ran[i].id == t.first + i)
      && (t.running.Some? ==> Holds(t, t.running.value, t.first + |t.ran|))
      && (forall i | 0 <= i < |t.queue| :: Holds(t, t.queue[i], t.first + |t.ran| + Busy(t) + i))
  {
    Reachable(s, run);
    var t := Exec(s, run);
    forall i | 0 <= i < |t.queue| ensures Holds(t, t.queue[i], t.first + |t.ran| + Busy(t) + i) {
      var id := t.first + |t.ran| + Busy(t) + i;
      assert Consistent(t, id) && Address(t, id) == t.queue[i];
    }
    if t.running.Some? { assert Consistent(t, t.first + |t.ran|); }
  }

  /**
   * A call that returned a value returned the result of its own run; it is
   * rejected with the failure only after the module failed, and then no call
   * keeps waiting.
   */
  lemma SettlesWithOwnResult(s: Api, run: seq<Event>, id: nat)
    requires Init(s) && id < |Exec(s, run).calls|
    ensures var t := Exec(s, run); var c := t.calls[id];
      && (c.Value? ==> t.first <= id < t.first + |t.ran| && t.ran[id - t.first] == Req(id, c.ret))
      && (c.Failed? ==> t.failed)
      && (c.Refused? <==> id < t.first)
      && (t.failed ==> !c.Waiting?)
  {
    Reachable(s, run);
    var t := Exec(s, run);
    if t.first <= id { assert Consistent(t, id); }
  }

  lemma {:induction false} ExecConcat(s: Api, run: seq<Event>, more: seq<Event>)
    ensures Exec(s, run + more) == Exec(Exec(s, run), more)
  {
    if more == [] {
      assert run + more == run;
    } else {
      var all, shorter := run + more, more[..|more| - 1];
      assert all[..|all| - 1] == run + shorter;
      ExecConcat(s, run, shorter);
    }
  }

  lemma SettledStays(s: Api, e: Event, id: nat)
    requires id < |s.calls| && Settled(s.calls[id])
    ensures id < |Step(s, e).calls| && Step(s, e).calls[id] == s.calls[id]
  {}

  lemma {:induction false} SettledForever(s: Api, more: seq<Event>, id: nat)
    requires id < |s.calls| && Settled(s.calls[id])
    ensures id < |Exec(s, more).calls| && Exec(s, more).calls[id] == s.calls[id]
  {
    if more != [] {
      var t := Exec(s, more[..|more| - 1]);
      SettledForever(s, more[..|more| - 1], id);
      SettledStays(t, more[|more| - 1], id);
    }
  }

  /** A settled call never changes again. */
  lemma SettlesOnce(s: Api, run: seq<Event>, more: seq<Event>, id: nat)
    requires Init(s) && id < |Exec(s, run).calls| && Settled(Exec(s, run).calls[id])
    ensures id < |Exec(s, run + more).calls| && Exec(s, run + more).calls[id] == Exec(s, run).calls[id]
  {
    ExecConcat(s, run, more);
    SettledForever(Exec(s, run), more, id);
  }
}
