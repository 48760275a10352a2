/** The request queue of the API thread: a linked list under a mutex. */
module ApiQueue {

  class Req {
    const id: int
    var next: Req?

    constructor (id: int)
      ensures this.id == id
    {
      this.id := id;
    }
  }

  /** The request after position i, or null. */
  ghost function Follower(q: seq<Req>, i: int): Req?
    requires 0 <= i < |q|
  {
    if i + 1 < |q| then q[i + 1] else null
  }

  /** g_api_head and g_api_tail; `contents` is the queue, oldest first. */
  class Queue {
    var head: Req?
    var tail: Req?
    ghost var contents: seq<Req>

    /** What holds whenever the mutex is free. */
    ghost predicate Valid()
      reads this, contents
    {
      && (head == null <==> contents == []) && (tail == null <==> head == null)
      && (contents != [] ==> head == contents[0] && tail == contents[|contents| - 1])
      && (forall i, j | 0 <= i < j < |contents| :: contents[i] != contents[j])
      && (forall i | 0 <= i < |contents| :: contents[i].next == Follower(contents, i))
    }

    constructor ()
      ensures Valid() && contents == []
    {
      head, tail, contents := null, null, [];
    }

    /** anyfs_ts_api_submit, between lock and unlock. */
    method Submit(r: Req)
      requires Valid() && r !in contents
      modifies this, r, contents
      ensures Valid() && contents == old(contents) + [r]
    {
      r.next := null;
      if tail != null {
        tail.next := r;
      } else {
        head := r;
      }
      tail := r;
      contents := contents + [r];
    }

    /** api_thread_fn, once the wait for a non-null head is over. */
    method Take() returns (r: Req)
      requires Valid() && contents != []
      modifies this
      ensures Valid() && r == old(contents)[0] && contents == old(contents)[1..]
      ensures tail == null <==> head == null
    {
      r := head;
      assert contents[0].next == Follower(contents, 0);
      head := r.next;
      if head == null { tail := null; }
      ghost var rest := contents[1..];
      assert forall i | 0 <= i < |rest| :: rest[i] == contents[i + 1] && Follower(rest, i) == Follower(contents, i + 1);
      contents := rest;
    }
  }
}
