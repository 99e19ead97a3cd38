/** BASP message ordering: workers finish in any order, and the queue restores the order of arrival. */
module MessageQueue {
  /** What completes an id: a message for its receiver, or a drop (a push without receiver). */
  datatype Content<+M> = Dropped | Mail(msg: M)

  datatype Entry<+M> = Entry(id: nat, content: Content<M>)

  // -- the specification: a set of finished ids, released as far as they are contiguous ------------------------------

  predicate Covers<M>(done: map<nat, Content<M>>, n: nat) {
    forall i: nat :: i < n ==> i in done
  }

  /** `n` is the first id that has not been completed. */
  predicate IsRun<M>(done: map<nat, Content<M>>, n: nat) {
    Covers(done, n) && n !in done
  }

  function Letter<M>(c: Content<M>): seq<M> {
    if c.Mail? then [c.msg] else []
  }

  /** The messages among the ids below `n`, by ascending id. */
  function Released<M>(done: map<nat, Content<M>>, n: nat): seq<M>
    requires Covers(done, n)
  {
    if n == 0 then [] else Released(done, n - 1) + Letter(done[n - 1])
  }

  /** Completing another id does not change what has been released. */
  lemma {:induction false} ReleasedStays<M>(done: map<nat, Content<M>>, id: nat, c: Content<M>, n: nat)
    requires Covers(done, n) && id !in done
    ensures Covers(done[id := c], n) && Released(done[id := c], n) == Released(done, n)
  {
    if n > 0 {
      ReleasedStays(done, id, c, n - 1);
    }
  }

  lemma {:induction false} ReleasedGrows<M>(done: map<nat, Content<M>>, m: nat, n: nat)
    requires m <= n && Covers(done, n)
    ensures Released(done, m) <= Released(done, n)
  {
    if m < n {
      ReleasedGrows(done, m, n - 1);
    }
  }

  // -- the entries that wait ------------------------------------------------------------------------------------------

  predicate Sorted<M>(pending: seq<Entry<M>>) {
    forall j, k :: 0 <= j < k < |pending| ==> pending[j].id < pending[k].id
  }

  /** Every entry is a completed id of at least `low`. */
  ghost predicate Completed<M>(pending: seq<Entry<M>>, done: map<nat, Content<M>>, low: nat) {
    forall k :: 0 <= k < |pending| ==>
        low <= pending[k].id && pending[k].id in done && done[pending[k].id] == pending[k].content
  }

  /** Every completed id of at least `low` has an entry. */
  ghost predicate Complete<M>(pending: seq<Entry<M>>, done: map<nat, Content<M>>, low: nat) {
    forall i :: i in done && low <= i ==> Entry(i, done[i]) in pending
  }

  ghost predicate Waiting<M>(pending: seq<Entry<M>>, done: map<nat, Content<M>>, low: nat) {
    Sorted(pending) && Completed(pending, done, low) && Complete(pending, done, low)
  }

  lemma WaitingAt<M>(pending: seq<Entry<M>>, done: map<nat, Content<M>>, low: nat, k: nat)
    requires Waiting(pending, done, low) && k < |pending|
    ensures pending[k].id in done && done[pending[k].id] == pending[k].content
  {}

  lemma CoversMore<M>(done: map<nat, Content<M>>, n: nat)
    requires Covers(done, n) && n in done
    ensures Covers(done, n + 1) && Released(done, n + 1) == Released(done, n) + Letter(done[n])
  {}

  /** Completing another id keeps the run of completed ids, and what waits behind it if it is the head. */
  lemma LaterRun<M>(pending: seq<Entry<M>>, done: map<nat, Content<M>>, n: nat, id: nat, c: Content<M>)
    requires Covers(done, n) && Waiting(pending, done, n + 1) && id !in done
    ensures Covers(done[id := c], n)
    ensures id == n ==> Waiting(pending, done[id := c], n + 1)
  {}

  lemma InsertSorted<M>(pending: seq<Entry<M>>, e: Entry<M>, i: nat, after: seq<Entry<M>>)
    requires Sorted(pending) && i <= |pending| && after == pending[..i] + [e] + pending[i..]
    requires forall k :: 0 <= k < i ==> pending[k].id < e.id
    requires forall k :: i <= k < |pending| ==> e.id < pending[k].id
    ensures Sorted(after)
  {
    forall j, k | 0 <= j < k < |after| ensures after[j].id < after[k].id {
      if i < j {
        assert after[j] == pending[j - 1] && after[k] == pending[k - 1];
      }
    }
  }

  lemma InsertKeeps<M>(pending: seq<Entry<M>>, done: map<nat, Content<M>>, low: nat, e: Entry<M>, i: nat,
      after: seq<Entry<M>>)
    requires Waiting(pending, done, low) && low <= e.id && e.id !in done && i <= |pending|
    requires forall k :: 0 <= k < i ==> pending[k].id < e.id
    requires i < |pending| ==> e.id <= pending[i].id
    requires after == pending[..i] + [e] + pending[i..]
    ensures Waiting(after, done[e.id := e.content], low)
  {
    var more := done[e.id := e.content];
    assert forall k :: i <= k < |pending| ==> e.id < pending[k].id;
    InsertSorted(pending, e, i, after);
    hide Sorted;
    forall j | j in more && low <= j ensures Entry(j, more[j]) in after {
      if j == e.id {
        assert after[i] == e;
      } else {
        assert Entry(j, done[j]) in pending;
      }
    }
    hide Complete;
    forall k | 0 <= k < |after|
      ensures low <= after[k].id && after[k].id in more && more[after[k].id] == after[k].content
    {
      if k != i {
        var l := if k < i then k else k - 1;
        assert after[k] == pending[l];
      }
    }
  }

  lemma RestAbove<M>(pending: seq<Entry<M>>, low: nat, i: nat)
    requires Sorted(pending) && i <= |pending|
    requires forall k :: 0 <= k < |pending| ==> low <= pending[k].id
    requires forall k :: 0 <= k < i ==> pending[k].id == low + k
    requires i < |pending| ==> pending[i].id != low + i
    ensures forall k :: i <= k < |pending| ==> low + i < pending[k].id
  {
    if i < |pending| {
      assert i > 0 ==> pending[i - 1].id == low + (i - 1);
      assert forall k :: i <= k < |pending| ==> pending[i].id <= pending[k].id;
    }
  }

  /** Releasing the ids of `pending[..i]`, which run from `low` on, leaves the rest waiting. */
  lemma ReleaseKeeps<M>(pending: seq<Entry<M>>, done: map<nat, Content<M>>, low: nat, i: nat)
    requires Waiting(pending, done, low) && i <= |pending|
    requires forall k :: 0 <= k < i ==> pending[k].id == low + k
    requires i < |pending| ==> pending[i].id != low + i
    ensures Waiting(pending[i..], done, low + i + 1) && low + i !in done
  {
    RestAbove(pending, low, i);
    RestCompleted(pending, done, low, i);
    hide Sorted, Completed;
    forall j | j in done && low + i <= j ensures Entry(j, done[j]) in pending[i..] && j != low + i {
      RestHolds(pending, done, low, i, j);
    }
  }

  lemma RestCompleted<M>(pending: seq<Entry<M>>, done: map<nat, Content<M>>, low: nat, i: nat)
    requires Sorted(pending) && Completed(pending, done, low) && i <= |pending|
    requires forall k :: i <= k < |pending| ==> low + i < pending[k].id
    ensures Sorted(pending[i..]) && Completed(pending[i..], done, low + i + 1)
  {
    var rest := pending[i..];
    assert forall k :: 0 <= k < |rest| ==> rest[k] == pending[k + i];
  }

  /** The entry of a completed id that has not been released. */
  lemma RestHolds<M>(pending: seq<Entry<M>>, done: map<nat, Content<M>>, low: nat, i: nat, j: nat)
    requires Complete(pending, done, low) && i <= |pending| && j in done && low + i <= j
    requires forall k :: 0 <= k < i ==> pending[k].id == low + k
    requires forall k :: i <= k < |pending| ==> low + i < pending[k].id
    ensures Entry(j, done[j]) in pending[i..] && j != low + i
  {
    var k :| 0 <= k < |pending| && pending[k] == Entry(j, done[j]);
    assert i <= k;
    assert pending[i..][k - i] == pending[k];
  }

  // -- the queue ------------------------------------------------------------------------------------------------------

  class MessageQueue<M> {
    var nextId: nat
    var nextUndelivered: nat
    var pending: seq<Entry<M>>
    /** The messages enqueued at their receivers, in order. */
    var delivered: seq<M>
    /** The ids that have been pushed or dropped. */
    ghost var done: map<nat, Content<M>>

    /** `pending` holds exactly the completed ids that cannot be released yet, sorted. */
    ghost predicate Valid()
      reads this
    {
      && (forall i :: i in done ==> i < nextId)
      && IsRun(done, nextUndelivered) && delivered == Released(done, nextUndelivered)
      && Waiting(pending, done, nextUndelivered + 1)
    }

    constructor ()
      ensures Valid() && nextId == 0 && done == map[] && delivered == []
    {
      nextId, nextUndelivered, pending, delivered, done := 0, 0, [], [], map[];
    }

    method NewId() returns (id: nat)
      requires Valid()
      modifies this`nextId
      ensures Valid() && id == old(nextId) && nextId == id + 1 && id !in done
    {
      id := nextId;
      nextId := nextId + 1;
    }

    method Enqueue(c: Content<M>)
      modifies this`delivered
      ensures delivered == old(delivered) + Letter(c)
    {
      if c.Mail? {
        delivered := delivered + [c.msg];
      }
    }

    /** The lowest id goes out at once, with every pending id that directly follows; any other id waits in order. */
    method Push(id: nat, content: Content<M>)
      requires Valid() && id < nextId && id !in done
      modifies this`nextUndelivered, this`pending, this`delivered, this`done
      ensures Valid() && done == old(done)[id := content] && old(delivered) <= delivered
    {
      ReleasedStays(done, id, content, nextUndelivered);
      LaterRun(pending, done, nextUndelivered, id, content);
      hide Waiting, Covers, Released;
      if id == nextUndelivered {
        Enqueue(content);
        done := done[id := content];
        DeliverAfter(id);
      } else {
        InsertPending(Entry(id, content));
        done := done[id := content];
      }
    }

    /** The delivery loop behind a dispatched head. */
    method DeliverAfter(id: nat)
      requires id == nextUndelivered && id in done && Covers(done, id)
      requires delivered == Released(done, id) + Letter(done[id])
      requires Waiting(pending, done, id + 1) && forall i :: i in done ==> i < nextId
      modifies this`nextUndelivered, this`pending, this`delivered
      ensures Valid() && old(delivered) <= delivered
    {
      hide Waiting, Covers, Released;
      CoversMore(done, id);
      var next := id + 1;
      var i := 0;
      while i < |pending| && pending[i].id == next
        invariant i <= |pending| && next == id + 1 + i && pending == old(pending)
        invariant Covers(done, next) && delivered == Released(done, next) && old(delivered) <= delivered
        invariant forall k :: 0 <= k < i ==> pending[k].id == id + 1 + k
      {
        WaitingAt(pending, done, id + 1, i);
        CoversMore(done, next);
        Enqueue(pending[i].content);
        i, next := i + 1, next + 1;
      }
      ReleaseKeeps(pending, done, id + 1, i);
      nextUndelivered := next;
      pending := pending[i..];
    }

    /** `find_if` followed by `emplace`. */
    method InsertPending(e: Entry<M>)
      requires Waiting(pending, done, nextUndelivered + 1) && nextUndelivered < e.id && e.id !in done
      modifies this`pending
      ensures Waiting(pending, done[e.id := e.content], nextUndelivered + 1)
    {
      var i := 0;
      while i < |pending| && pending[i].id < e.id
        invariant i <= |pending| && forall k :: 0 <= k < i ==> pending[k].id < e.id
      {
        i := i + 1;
      }
      hide Waiting;
      InsertKeeps(pending, done, nextUndelivered + 1, e, i, pending[..i] + [e] + pending[i..]);
      pending := pending[..i] + [e] + pending[i..];
    }

    method Drop(id: nat)
      requires Valid() && id < nextId && id !in done
      modifies this`nextUndelivered, this`pending, this`delivered, this`done
      ensures Valid() && done == old(done)[id := Dropped] && old(delivered) <= delivered
    {
      Push(id, Dropped);
    }
  }
}
