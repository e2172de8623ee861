/** The message list of a thread, and the counting semaphore. */
module MessageQueue {
  import opened Bytes

  type Object = nat

  datatype Message = Message(receiver: Object, call: nat)

  /** The messages of a list that have not been moved out of it. */
  function Live(list: seq<Option<Message>>): seq<Message> {
    if list == [] then []
    else
      var n := |list| - 1;
      Live(list[..n]) + if list[n].Some? then [list[n].value] else []
  }

  function CountFor(list: seq<Option<Message>>, o: Object): nat {
    if list == [] then 0
    else
      var n := |list| - 1;
      CountFor(list[..n], o) + if list[n].Some? && list[n].value.receiver == o then 1 else 0
  }

  /** The messages of a queue that are not, or that are, for an object. */
  function Others(queue: seq<Message>, o: Object): seq<Message> {
    if queue == [] then []
    else
      var n := |queue| - 1;
      Others(queue[..n], o) + if queue[n].receiver == o then [] else [queue[n]]
  }

  function Mine(queue: seq<Message>, o: Object): seq<Message> {
    if queue == [] then []
    else
      var n := |queue| - 1;
      Mine(queue[..n], o) + if queue[n].receiver == o then [queue[n]] else []
  }

  function PendingOf(pending: map<Object, nat>, o: Object): nat {
    if o in pending then pending[o] else 0
  }

  lemma LiveSnoc(list: seq<Option<Message>>, m: Option<Message>)
    ensures Live(list + [m]) == Live(list) + if m.Some? then [m.value] else []
    ensures forall o :: CountFor(list + [m], o) == CountFor(list, o) + if m.Some? && m.value.receiver == o then 1 else 0
  {
    assert (list + [m])[..|list|] == list;
  }

  lemma QueueSnoc(queue: seq<Message>, m: Message, o: Object)
    ensures Others(queue + [m], o) == Others(queue, o) + if m.receiver == o then [] else [m]
    ensures Mine(queue + [m], o) == Mine(queue, o) + if m.receiver == o then [m] else []
  {
    assert (queue + [m])[..|queue|] == queue;
  }

  lemma {:induction false} LiveTail(list: seq<Option<Message>>)
    requires list != []
    ensures Live(list) == (if list[0].Some? then [list[0].value] else []) + Live(list[1..])
    ensures forall o ::
      CountFor(list, o) == (if list[0].Some? && list[0].value.receiver == o then 1 else 0) + CountFor(list[1..], o)
    decreases |list|
  {
    var n := |list| - 1;
    if n > 0 {
      LiveTail(list[..n]);
      assert list[..n][1..] == list[1..][..n - 1];
    }
  }

  lemma {:induction false} LiveAppend(a: seq<Option<Message>>, b: seq<Option<Message>>)
    ensures Live(a + b) == Live(a) + Live(b)
    ensures forall o :: CountFor(a + b, o) == CountFor(a, o) + CountFor(b, o)
    decreases |b|
  {
    if b == [] {
      assert a + b == a;
    } else {
      var n := |b| - 1;
      assert a + b == (a + b[..n]) + [b[n]];
      LiveAppend(a, b[..n]);
      LiveSnoc(a + b[..n], b[n]);
    }
  }

  /** The messages of an object are as many as the list holds for it. */
  lemma {:induction false} MineCounts(list: seq<Option<Message>>, o: Object)
    ensures |Mine(Live(list), o)| == CountFor(list, o)
    ensures forall m <- Others(Live(list), o) :: m.receiver != o
    decreases |list|
  {
    if list != [] {
      var n := |list| - 1;
      MineCounts(list[..n], o);
      if list[n].None? {
        assert Live(list) == Live(list[..n]);
      } else {
        assert Live(list) == Live(list[..n]) + [list[n].value];
        QueueSnoc(Live(list[..n]), list[n].value, o);
      }
    }
  }

  /** removeMessages() has gone through the first i messages of a list that was and is now. */
  predicate Swept(was: seq<Option<Message>>, now: seq<Option<Message>>, i: nat, o: Object, gone: seq<Message>) {
    && i <= |was| == |now| && now[i..] == was[i..]
    && Live(now[..i]) == Others(Live(was[..i]), o) && gone == Mine(Live(was[..i]), o)
    && CountFor(now[..i], o) == 0
  }

  lemma SweptKeep(was: seq<Option<Message>>, now: seq<Option<Message>>, i: nat, o: Object, gone: seq<Message>)
    requires Swept(was, now, i, o, gone) && i < |was|
    requires was[i].None? || was[i].value.receiver != o
    ensures Swept(was, now, i + 1, o, gone)
  {
    var m := was[i];
    assert now[i] == now[i..][0] == was[i..][0];
    assert now[i + 1..] == now[i..][1..] && was[i + 1..] == was[i..][1..];
    assert was[..i + 1] == was[..i] + [m] && now[..i + 1] == now[..i] + [m];
    LiveSnoc(was[..i], m);
    LiveSnoc(now[..i], m);
    hide Live, CountFor, Others, Mine;
    if m.Some? {
      QueueSnoc(Live(was[..i]), m.value, o);
    } else {
      assert Live(was[..i + 1]) == Live(was[..i]) && Live(now[..i + 1]) == Live(now[..i]);
    }
  }

  lemma SweptNull(was: seq<Option<Message>>, now: seq<Option<Message>>, i: nat, o: Object, gone: seq<Message>)
    requires Swept(was, now, i, o, gone) && i < |was|
    requires was[i].Some? && was[i].value.receiver == o
    ensures Swept(was, now[i := None], i + 1, o, gone + [was[i].value])
  {
    var m, after := was[i], now[i := None];
    assert after[i + 1..] == now[i..][1..] && was[i + 1..] == was[i..][1..];
    assert was[..i + 1] == was[..i] + [m] && after[..i + 1] == now[..i] + [None];
    LiveSnoc(was[..i], m);
    LiveSnoc(now[..i], None);
    hide Live, CountFor, Others, Mine;
    QueueSnoc(Live(was[..i]), m.value, o);
  }

  class ThreadMessages {
    var list: seq<Option<Message>>
    var pending: map<Object, nat>

    /** pendingMessages_ of every object counts its messages in the list. */
    ghost predicate Valid()
      reads this
    {
      forall o :: PendingOf(pending, o) == CountFor(list, o)
    }

    constructor ()
      ensures Valid() && Live(list) == []
    {
      list, pending := [], map[];
    }

    method PostMessage(call: nat, receiver: Object)
      requires Valid()
      modifies this
      ensures Valid() && Live(list) == old(Live(list)) + [Message(receiver, call)]
    {
      var m := Some(Message(receiver, call));
      LiveSnoc(list, m);
      list := list + [m];
      pending := pending[receiver := PendingOf(pending, receiver) + 1];
    }

    /** removeMessages(): messages are moved out in place and leave null pointers behind. At the end the
      * object has no pending message, which the code asserts. */
    method RemoveMessages(receiver: Object) returns (toDelete: seq<Message>)
      requires Valid()
      modifies this
      ensures Valid() && PendingOf(pending, receiver) == 0
      ensures Live(list) == Others(old(Live(list)), receiver)
      ensures toDelete == Mine(old(Live(list)), receiver)
    {
      toDelete := [];
      if PendingOf(pending, receiver) == 0 {
        NothingMine(list, receiver);
        return;
      }
      ghost var was := list;
      for i := 0 to |list|
        invariant Swept(was, list, i, receiver, toDelete)
        invariant Valid()
      {
        var m := list[i];
        assert m == list[i..][0] == was[i..][0];
        if m.None? || m.value.receiver != receiver {
          SweptKeep(was, list, i, receiver, toDelete);
          continue;
        }
        SweptNull(was, list, i, receiver, toDelete);
        Nulled(list, i);
        hide Swept, CountFor;
        toDelete := toDelete + [m.value];
        ghost var before, counted := list, pending;
        assert forall o :: PendingOf(counted, o) == CountFor(before, o);
        assert PendingOf(pending, receiver) > 0;
        list := list[i := None];
        pending := pending[receiver := pending[receiver] - 1];
        forall o
          ensures PendingOf(pending, o) == CountFor(list, o)
        {
          assert PendingOf(counted, o) == CountFor(before, o);
        }
      }
      assert list[..|list|] == list && was[..|was|] == was;
      assert PendingOf(pending, receiver) == 0;
    }

    /** One turn of dispatchMessages(): the first message that is still there, null pointers are skipped. */
    method TakeMessage() returns (r: Option<Message>)
      requires Valid()
      modifies this
      ensures Valid()
      ensures old(Live(list)) == (if r.Some? then [r.value] else []) + Live(list)
      ensures r.None? ==> old(Live(list)) == []
    {
      r := None;
      while list != []
        invariant Valid() && r.None? && Live(list) == old(Live(list))
        decreases |list|
      {
        r := list[0];
        LiveTail(list);
        list := list[1..];
        if r.Some? {
          pending := pending[r.value.receiver := PendingOf(pending, r.value.receiver) - 1];
          return;
        }
      }
    }
  }

  lemma Nulled(list: seq<Option<Message>>, i: nat)
    requires i < |list| && list[i].Some?
    ensures forall o ::
      CountFor(list, o) == CountFor(list[i := None], o) + if list[i].value.receiver == o then 1 else 0
  {
    assert list == (list[..i] + [list[i]]) + list[i + 1..];
    assert list[i := None] == (list[..i] + [None]) + list[i + 1..];
    LiveSnoc(list[..i], list[i]);
    LiveSnoc(list[..i], None);
    LiveAppend(list[..i] + [list[i]], list[i + 1..]);
    LiveAppend(list[..i] + [None], list[i + 1..]);
  }

  lemma {:induction false} NothingMine(list: seq<Option<Message>>, o: Object)
    requires CountFor(list, o) == 0
    ensures Others(Live(list), o) == Live(list) && Mine(Live(list), o) == []
    decreases |list|
  {
    if list != [] {
      var n := |list| - 1;
      NothingMine(list[..n], o);
      if list[n].None? {
        assert Live(list) == Live(list[..n]);
      } else {
        assert Live(list) == Live(list[..n]) + [list[n].value];
        QueueSnoc(Live(list[..n]), list[n].value, o);
      }
    }
  }

  // --- Semaphore.

  /** available_ is an unsigned int. Acquire() is what follows the wait, whose condition it requires. */
  class Semaphore {
    var available: uint32

    constructor (n: uint32)
      ensures available == n
    {
      available := n;
    }

    method Acquire(n: uint32)
      requires available >= n
      modifies this
      ensures available as int == old(available) as int - n as int
    {
      available := available - n;
    }

    method TryAcquire(n: uint32) returns (ok: bool)
      modifies this
      ensures ok <==> n <= old(available)
      ensures available as int == old(available) as int - if ok then n as int else 0
    {
      if available < n {
        return false;
      }
      available := available - n;
      ok := true;
    }

    method Release(n: uint32)
      modifies this
      ensures available as int == (old(available) as int + n as int) % 0x1_0000_0000
    {
      available := ((available as int + n as int) % 0x1_0000_0000) as uint32;
    }
  }

  datatype SemaphoreOp = Acquired(n: uint32) | Released(n: uint32)

  /** The count after a history of operations, if every acquire waited until it could succeed. */
  function CountAfter(start: uint32, ops: seq<SemaphoreOp>): Option<uint32> {
    if ops == [] then Some(start)
    else
      var n := |ops| - 1;
      match CountAfter(start, ops[..n])
      case None => None
      case Some(count) =>
        match ops[n]
        case Acquired(k) => if k <= count then Some(count - k) else None
        case Released(k) => Some(((count as int + k as int) % 0x1_0000_0000) as uint32)
  }

  function TotalReleased(ops: seq<SemaphoreOp>): nat {
    if ops == [] then 0
    else TotalReleased(ops[..|ops| - 1]) + if ops[|ops| - 1].Released? then ops[|ops| - 1].n as nat else 0
  }

  function TotalAcquired(ops: seq<SemaphoreOp>): nat {
    if ops == [] then 0
    else TotalAcquired(ops[..|ops| - 1]) + if ops[|ops| - 1].Acquired? then ops[|ops| - 1].n as nat else 0
  }

  /** What was acquired never exceeds what was there to begin with or was released, and the count is the
    * difference, up to a multiple of 2^32 when the count has wrapped. */
  lemma {:induction false} SemaphoreConserves(start: uint32, ops: seq<SemaphoreOp>)
    requires CountAfter(start, ops).Some?
    ensures TotalAcquired(ops) + CountAfter(start, ops).value as nat <= start as nat + TotalReleased(ops)
    ensures
      start as nat + TotalReleased(ops) < 0x1_0000_0000 ==>
        TotalAcquired(ops) + CountAfter(start, ops).value as nat == start as nat + TotalReleased(ops)
    decreases |ops|
  {
    if ops != [] {
      SemaphoreConserves(start, ops[..|ops| - 1]);
    }
  }
}
