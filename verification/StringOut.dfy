/**
 * callStringOut of wasm-api.ts: grow the buffer and retry until the op's output
 * fits, then take the text out of the buffer.
 */
module StringOut {
  import opened Bytes
  import opened Utf8
  import opened JsonWriter

  /** What a call returns, and the buffer as it left it. */
  datatype Reply = Reply(n: int, buf: seq<byte>)

  /** What call i answers for a buffer of cap bytes. */
  type Op = (nat, nat) -> Reply

  datatype Outcome =
    | Text(bytes: seq<byte>)   // resolved with the text of these bytes
    | Rc(rc: int)              // rejected with the op's error code
    | Insatiable               // rejected: keeps requesting more buffer

  const MAX_TRIES: nat := 6

  /** The bytes before the first NUL. */
  function UpToNul(s: seq<byte>): seq<byte> {
    if s == [] || s[0] == 0 then [] else [s[0]] + UpToNul(s[1..])
  }

  /** What UTF8ToString(buf, n) reads. */
  function Shown(r: Reply): seq<byte>
    requires r.n >= 0
  {
    UpToNul(r.buf[..Min(r.n, |r.buf|)])
  }

  lemma {:induction false} UpToNulIsAll(s: seq<byte>)
    ensures UpToNul(s) == s <==> 0 !in s
  {
    if s != [] && s[0] != 0 {
      UpToNulIsAll(s[1..]);
      assert s == [s[0]] + s[1..];
      if UpToNul(s) == s { assert UpToNul(s)[1..] == UpToNul(s[1..]); }
    }
  }

  /** The buffer of call i, if every call before it asked for more. */
  function CapAt(op: Op, initialCap: nat, i: nat): nat {
    if i == 0 then initialCap
    else
      var cap := CapAt(op, initialCap, i - 1);
      var need := -op(i - 1, cap).n;
      if need + 256 > cap * 2 then need + 256 else cap * 2
  }

  function AnswerAt(op: Op, initialCap: nat, i: nat): Reply {
    op(i, CapAt(op, initialCap, i))
  }

  /** Call i asked for more than the buffer it had. */
  predicate WantsMore(op: Op, initialCap: nat, i: nat) {
    -AnswerAt(op, initialCap, i).n > CapAt(op, initialCap, i)
  }

  /** The loop ends at the first call that does not ask for more, and returns what that call left. */
  method CallStringOut(op: Op, initialCap: nat) returns (r: Outcome, calls: nat)
    ensures 1 <= calls <= MAX_TRIES
    ensures forall i | 0 <= i < calls - 1 :: WantsMore(op, initialCap, i)
    ensures r.Insatiable? <==> forall i | 0 <= i < MAX_TRIES :: WantsMore(op, initialCap, i)
    ensures !r.Insatiable? ==>
      var answer := AnswerAt(op, initialCap, calls - 1);
      !WantsMore(op, initialCap, calls - 1) && r == if answer.n >= 0 then Text(Shown(answer)) else Rc(answer.n)
  {
    var cap := initialCap;
    var i := 0;
    while i < MAX_TRIES
      invariant 0 <= i <= MAX_TRIES && cap == CapAt(op, initialCap, i)
      invariant forall j | 0 <= j < i :: WantsMore(op, initialCap, j)
    {
      var answer := op(i, cap);
      var n := answer.n;
      assert answer == AnswerAt(op, initialCap, i) && (WantsMore(op, initialCap, i) <==> -n > cap);
      if n >= 0 { return Text(Shown(answer)), i + 1; }
      if -n <= cap { return Rc(n), i + 1; }
      cap := if -n + 256 > cap * 2 then -n + 256 else cap * 2;
      i := i + 1;
    }
    return Insatiable, MAX_TRIES;
  }

  /** An op that writes the same text at every call and ends with jw_finish. */
  ghost predicate Stable(op: Op, text: seq<byte>) {
    forall i: nat, cap: nat :: Finished(text, cap, op(i, cap).n, op(i, cap).buf)
  }

  lemma StableAnswer(op: Op, text: seq<byte>, i: nat, cap: nat)
    requires Stable(op, text)
    ensures op(i, cap).n == if cap >= |text| + 1 then |text| else -(|text| + 1)
    ensures cap >= |text| + 1 ==> Shown(op(i, cap)) == UpToNul(text)
  {
    assert Finished(text, cap, op(i, cap).n, op(i, cap).buf);
  }

  /**
   * A stable text arrives after at most two calls, whatever the first buffer:
   * all of it if and only if it has no NUL, and up to the first NUL otherwise.
   */
  method CallStable(op: Op, initialCap: nat, text: seq<byte>) returns (r: Outcome, calls: nat)
    requires Stable(op, text)
    ensures r == Text(UpToNul(text)) && (r == Text(text) <==> 0 !in text)
    ensures calls <= 2 && (calls == 1 <==> initialCap >= |text| + 1)
  {
    r, calls := CallStringOut(op, initialCap);
    UpToNulIsAll(text);
    StableAnswer(op, text, 0, CapAt(op, initialCap, 0));
    StableAnswer(op, text, 1, CapAt(op, initialCap, 1));
    assert WantsMore(op, initialCap, 0) <==> initialCap < |text| + 1;
    assert !WantsMore(op, initialCap, 1);
  }

  /** The text of an object with one name in it. */
  function NameObject(k: seq<byte>, v: seq<byte>): seq<byte> {
    [0x7B] + JsonText(k) + [0x3A] + JsonText(NameValue(v)) + [0x7D]
  }

  lemma Braces(a: seq<byte>, b: seq<byte>)
    ensures [] + [0x7B] + a + [0x3A] + b + Comma(false) + [0x7D] == [0x7B] + a + [0x3A] + b + [0x7D]
  {}

  /** An op as anyfs_ts.c writes one: its reply is the one a stable op gives for its text. */
  method NameOp(k: seq<byte>, v: seq<byte>, cap: nat) returns (reply: Reply)
    requires CString(v)
    ensures Finished(NameObject(k, v[..|v| - 1]), cap, reply.n, reply.buf) && |reply.buf| == cap
  {
    var buf := new byte[cap];
    var w := new JsonW(buf, cap);
    w.Putc(0x7B);
    w.KvName(k, v, false);
    w.Putc(0x7D);
    Braces(JsonText(k), JsonText(NameValue(v[..|v| - 1])));
    var n := w.Finish();
    reply := Reply(n, buf[..]);
  }

  lemma NameObjectNulFree(k: seq<byte>, v: seq<byte>)
    ensures 0 !in NameObject(k, v)
  {
    JsonTextNulFree(k);
    JsonTextNulFree(NameValue(v));
  }

  /** Buffers only grow, and each covers what the call before asked for. */
  lemma CapsGrow(op: Op, initialCap: nat, i: nat)
    requires WantsMore(op, initialCap, i)
    ensures CapAt(op, initialCap, i + 1) > CapAt(op, initialCap, i)
    ensures CapAt(op, initialCap, i + 1) >= -AnswerAt(op, initialCap, i).n
  {
  }
}
