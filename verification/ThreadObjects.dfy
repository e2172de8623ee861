/** The message lists of all threads and the semaphores of blocking calls take the steps of Invocation. */
module ThreadObjects {
  import opened Bytes
  import opened Invocation
  import opened MessageQueue

  /** The queue of a thread, with the receivers that the calls name. */
  function QueueOf(calls: seq<Call>, queue: seq<nat>): seq<Message>
    requires forall i | 0 <= i < |queue| :: queue[i] < |calls|
  {
    seq(|queue|, i requires 0 <= i < |queue| => Message(calls[queue[i]].receiver, queue[i]))
  }

  predicate QueuesMatch(queues: seq<seq<Message>>, s: State) {
    && Shaped(s) && |queues| == |s.queues|
    && forall t | 0 <= t < |queues| :: queues[t] == QueueOf(s.calls, s.queues[t])
  }

  /** The blocking calls have a semaphore with their count. */
  predicate CountsMatch(counts: map<nat, int>, s: State) {
    && (forall c <- counts :: c < |s.calls|)
    && forall c | 0 <= c < |s.calls| ::
         if s.calls[c].mode.Blocking? then c in counts && counts[c] == s.calls[c].semaphore else c !in counts
  }

  predicate Shows(queues: seq<seq<Message>>, counts: map<nat, int>, s: State) {
    QueuesMatch(queues, s) && CountsMatch(counts, s)
  }

  // --- What the steps do to the queues.

  lemma QueueOfSnoc(calls: seq<Call>, queue: seq<nat>)
    requires queue != [] && forall i | 0 <= i < |queue| :: queue[i] < |calls|
    ensures
      var n := |queue| - 1;
      && QueueOf(calls, queue)[..n] == QueueOf(calls, queue[..n])
      && QueueOf(calls, queue) == QueueOf(calls, queue[..n]) + [Message(calls[queue[n]].receiver, queue[n])]
  {
  }

  lemma {:induction false} NotToKnown(calls: seq<Call>, queue: seq<nat>, o: Object)
    requires forall i | 0 <= i < |queue| :: queue[i] < |calls|
    ensures forall i | 0 <= i < |NotTo(calls, queue, o)| :: NotTo(calls, queue, o)[i] < |calls|
    decreases |queue|
  {
    if queue != [] {
      NotToKnown(calls, queue[..|queue| - 1], o);
    }
  }

  /** removeMessages() leaves the calls that stay queued when an object is deleted. */
  lemma {:induction false} OthersAreNotTo(calls: seq<Call>, queue: seq<nat>, o: Object)
    requires forall i | 0 <= i < |queue| :: queue[i] < |calls|
    requires forall i | 0 <= i < |NotTo(calls, queue, o)| :: NotTo(calls, queue, o)[i] < |calls|
    ensures Others(QueueOf(calls, queue), o) == QueueOf(calls, NotTo(calls, queue, o))
    decreases |queue|
  {
    if queue != [] {
      var n := |queue| - 1;
      var kept := NotTo(calls, queue[..n], o);
      NotToKnown(calls, queue[..n], o);
      OthersAreNotTo(calls, queue[..n], o);
      QueueOfSnoc(calls, queue);
      if calls[queue[n]].receiver != o {
        QueueOfSnoc(calls, kept + [queue[n]]);
        assert (kept + [queue[n]])[..|kept|] == kept;
      }
      hide QueueOf;
    }
  }

  /** removeMessages() takes out the calls that are dismissed, each as often as it is queued. */
  lemma {:induction false} MineAreDismissed(calls: seq<Call>, queue: seq<nat>, o: Object, c: nat)
    requires (forall i | 0 <= i < |queue| :: queue[i] < |calls|) && c < |calls|
    ensures multiset(Mine(QueueOf(calls, queue), o))[Message(o, c)] == if calls[c].receiver == o then multiset(queue)[c] else 0
    decreases |queue|
  {
    if queue != [] {
      var n := |queue| - 1;
      MineAreDismissed(calls, queue[..n], o, c);
      QueueOfSnoc(calls, queue);
      assert queue == queue[..n] + [queue[n]];
    }
  }

  /** The queue is the same if its calls have the same receivers. */
  lemma SameQueue(calls: seq<Call>, after: seq<Call>, queue: seq<nat>)
    requires forall i | 0 <= i < |queue| :: queue[i] < |calls|
    requires |calls| <= |after| && forall c | 0 <= c < |calls| :: after[c].receiver == calls[c].receiver
    ensures QueueOf(after, queue) == QueueOf(calls, queue)
  {
  }

  lemma SameQueues(queues: seq<seq<Message>>, s: State, after: State)
    requires QueuesMatch(queues, s) && Shaped(after) && after.queues == s.queues && |s.calls| <= |after.calls|
    requires forall c | 0 <= c < |s.calls| :: after.calls[c].receiver == s.calls[c].receiver
    ensures QueuesMatch(queues, after)
  {
    forall t | 0 <= t < |queues|
      ensures queues[t] == QueueOf(after.calls, after.queues[t])
    {
      SameQueue(s.calls, after.calls, s.queues[t]);
    }
  }

  /** A call that is not made directly posts one message. */
  lemma PostShows(queues: seq<seq<Message>>, counts: map<nat, int>, s: State, t: Thread, o: Object,
                  mode: ConnectionType, del: bool)
    requires Shows(queues, counts, s) && t < |s.stacks| && o < |s.home| && (mode.Queued? || mode.Blocking?)
    requires Shaped(AfterActivate(s, t, o, mode, del))
    ensures
      var h, c := s.home[o], |s.calls|;
      Shows(queues[h := queues[h] + [Message(o, c)]], if mode.Blocking? then counts[c := 0] else counts,
            AfterActivate(s, t, o, mode, del))
  {
    var after, h, c := AfterActivate(s, t, o, mode, del), s.home[o], |s.calls|;
    forall u | 0 <= u < |queues|
      ensures QueueOf(after.calls, after.queues[u])
           == if u == h then queues[h] + [Message(o, c)] else queues[u]
    {
      SameQueue(s.calls, after.calls, s.queues[u]);
      assert u == h ==> after.queues[u] == s.queues[u] + [c] && after.calls[c].receiver == o;
    }
  }

  lemma TakeShows(queues: seq<seq<Message>>, counts: map<nat, int>, s: State, t: Thread)
    requires Shows(queues, counts, s) && Enabled(s, Take(t)) && Shaped(Next(s, Take(t)))
    ensures queues[t] != [] && queues[t][0].call == s.queues[t][0]
    ensures Shows(queues[t := queues[t][1..]], counts, Next(s, Take(t)))
  {
    var after := Next(s, Take(t));
    forall u | 0 <= u < |queues|
      ensures QueueOf(after.calls, after.queues[u]) == if u == t then queues[t][1..] else queues[u]
    {
      SameQueue(s.calls, after.calls, after.queues[u]);
      assert QueueOf(s.calls, s.queues[t][1..]) == QueueOf(s.calls, s.queues[t])[1..];
    }
  }

  lemma DestroyFacts(s: State, o: Object)
    requires Shaped(s) && o < |s.home|
    ensures
      var after, h := AfterDestroy(s, o), s.home[o];
      && |after.calls| == |s.calls|
      && (forall c | 0 <= c < |s.calls| ::
            && after.calls[c].receiver == s.calls[c].receiver && after.calls[c].mode == s.calls[c].mode
            && after.calls[c].semaphore == s.calls[c].semaphore)
      && after.queues == s.queues[h := NotTo(s.calls, s.queues[h], o)]
  {
  }

  lemma DestroyShows(queues: seq<seq<Message>>, counts: map<nat, int>, s: State, o: Object)
    requires Shows(queues, counts, s) && o < |s.home| && Shaped(AfterDestroy(s, o))
    ensures
      var h := s.home[o];
      Shows(queues[h := Others(queues[h], o)], counts, AfterDestroy(s, o))
  {
    var after, h := AfterDestroy(s, o), s.home[o];
    DestroyFacts(s, o);
    NotToKnown(s.calls, s.queues[h], o);
    OthersAreNotTo(s.calls, s.queues[h], o);
    hide AfterDestroy, Others, NotTo, QueueOf;
    forall u | 0 <= u < |queues|
      ensures QueueOf(after.calls, after.queues[u]) == if u == h then Others(queues[h], o) else queues[u]
    {
      SameQueue(s.calls, after.calls, after.queues[u]);
    }
  }

  lemma DismissedCounts(queues: seq<seq<Message>>, s: State, o: Object)
    requires QueuesMatch(queues, s) && o < |s.home|
    ensures
      var h := s.home[o];
      forall c | 0 <= c < |s.calls| && s.calls[c].receiver == o ::
        multiset(Mine(queues[h], o))[Message(o, c)] == multiset(s.queues[h])[c]
  {
    forall c | 0 <= c < |s.calls| && s.calls[c].receiver == o
      ensures multiset(Mine(queues[s.home[o]], o))[Message(o, c)] == multiset(s.queues[s.home[o]])[c]
    {
      MineAreDismissed(s.calls, s.queues[s.home[o]], o, c);
    }
  }

  lemma DestroyAction(queues: seq<seq<Message>>, counts: map<nat, int>, s: State, o: Object)
    requires Inv(s) && Shows(queues, counts, s) && Enabled(s, Destroy(o))
    ensures
      var h, after := s.home[o], Next(s, Destroy(o));
      && Inv(after) && h < |queues| && Shows(queues[h := Others(queues[h], o)], counts, after)
      && forall c | 0 <= c < |s.calls| && s.calls[c].receiver == o ::
           multiset(Mine(queues[h], o))[Message(o, c)] == multiset(s.queues[h])[c]
  {
    hide CallOk, StackOk, QueueOk, Accounted, QueueOf, CountsMatch, AfterDestroy, Others, Mine;
    StepKeeps(s, Destroy(o));
    DestroyShows(queues, counts, s, o);
    DismissedCounts(queues, s, o);
  }

  lemma TakeAction(queues: seq<seq<Message>>, counts: map<nat, int>, s: State, t: Thread)
    requires Inv(s) && Shows(queues, counts, s) && Enabled(s, Take(t))
    ensures t < |queues| && queues[t] != [] && t < |s.queues| && s.queues[t] != []
    ensures queues[t][0].call == s.queues[t][0]
    ensures Inv(Next(s, Take(t))) && Shows(queues[t := queues[t][1..]], counts, Next(s, Take(t)))
  {
    hide CallOk, StackOk, QueueOk, Accounted, CountsMatch;
    StepKeeps(s, Take(t));
    TakeShows(queues, counts, s, t);
  }

  // --- What the steps do to the semaphores.

  /** The end of a message's invocation releases the semaphore of a blocking call, the caller's return acquires
    * it, and no other step but a new blocking call touches one. */
  lemma CountsShow(queues: seq<seq<Message>>, counts: map<nat, int>, s: State, a: Action)
    requires Inv(s) && Shows(queues, counts, s) && Enabled(s, a) && Inv(Next(s, a))
    requires a.EndInvoke? || a.Release? || a.EndMessage? || a.Wake?
    ensures
      if a.EndInvoke? || a.EndMessage? then Shows(queues, counts, Next(s, a))
      else
        var c := Top(s, a.t).value.call;
        && c < |s.calls|
        && (if c !in counts then a.Release? && Shows(queues, counts, Next(s, a))
            else counts[c] == (if a.Release? then 0 else 1)
                 && Shows(queues, counts[c := counts[c] + if a.Release? then 1 else -1], Next(s, a)))
  {
    var after := Next(s, a);
    SameQueues(queues, s, after);
    var f := Top(s, a.t).value;
    assert f == s.stacks[a.t][|s.stacks[a.t]| - 1] && f in s.stacks[a.t];
    assert StackOk(s.home, s.calls, a.t, s.stacks[a.t]);
    assert FrameOk(s.home, s.calls, a.t, f) && CallOk(s.calls[f.call]) && CallOk(after.calls[f.call]);
    hide QueuesMatch, Accounted, QueueOk;
  }

  lemma DirectShows(queues: seq<seq<Message>>, counts: map<nat, int>, s: State, t: Thread, o: Object, del: bool)
    requires Shows(queues, counts, s) && t < |s.stacks| && o < |s.home|
    requires Shaped(AfterActivate(s, t, o, Direct, del))
    ensures Shows(queues, counts, AfterActivate(s, t, o, Direct, del))
  {
    SameQueues(queues, s, AfterActivate(s, t, o, Direct, del));
    hide QueuesMatch;
  }

  lemma ActivateShows(queues: seq<seq<Message>>, counts: map<nat, int>, s: State, t: Thread, o: Object,
                      connection: ConnectionType, del: bool)
    requires Inv(s) && Shows(queues, counts, s) && Enabled(s, Activate(t, o, connection, del))
    ensures
      var after := Next(s, Activate(t, o, connection, del));
      var h, c := s.home[o], |s.calls|;
      var mode := Effective(connection, t, h);
      && Inv(after) && h < |queues|
      && (if mode.Direct? then Shows(queues, counts, after)
          else
            Shows(queues[h := queues[h] + [Message(o, c)]], if mode.Blocking? then counts[c := 0] else counts, after))
  {
    StepKeeps(s, Activate(t, o, connection, del));
    var mode := Effective(connection, t, s.home[o]);
    if mode.Direct? {
      DirectShows(queues, counts, s, t, o, del);
    } else {
      PostShows(queues, counts, s, t, o, mode, del);
    }
    hide Inv, Shows, AfterActivate;
  }

  /** The threads of a process, and the semaphores on which blocking callers wait. */
  class Threads {
    const queues: seq<ThreadMessages>
    var semaphores: map<nat, Semaphore>

    /** With empty message lists and no semaphores the machine starts. */
    constructor (queues: seq<ThreadMessages>, ghost s: State)
      requires Start(s) && |queues| == |s.queues|
      requires forall t | 0 <= t < |queues| :: queues[t].Valid() && Live(queues[t].list) == []
      requires forall t, u | 0 <= t < u < |queues| :: queues[t] != queues[u]
      ensures this.queues == queues && semaphores == map[] && Represents(s)
    {
      this.queues, semaphores := queues, map[];
      new;
      StartInv(s);
      assert forall t | 0 <= t < |queues| :: Queues()[t] == [] == QueueOf(s.calls, s.queues[t]);
      hide Inv, Live, CountFor;
    }

    ghost predicate Valid()
      reads this, queues
    {
      && (forall t | 0 <= t < |queues| :: queues[t].Valid())
      && (forall t, u | 0 <= t < u < |queues| :: queues[t] != queues[u])
      && (forall c, d | c in semaphores && d in semaphores && c != d :: semaphores[c] != semaphores[d])
    }

    ghost function Queues(): seq<seq<Message>>
      reads queues
    {
      seq(|queues|, t requires 0 <= t < |queues| reads queues => Live(queues[t].list))
    }

    ghost function Counts(): map<nat, int>
      reads this, semaphores.Values
    {
      map c | c in semaphores :: semaphores[c].available as int
    }

    ghost predicate Represents(s: State)
      reads this, queues, semaphores.Values
    {
      Valid() && Shows(Queues(), Counts(), s)
    }

    /** activatePack(), for an object that lives in thread home. A call that is not made directly is posted, with
      * a semaphore to wait on if it blocks. The result says whether the caller is to run the method itself. */
    method Activate(t: Thread, o: Object, home: Thread, connection: ConnectionType, del: bool, call: nat, ghost s: State)
        returns (direct: bool)
      requires Inv(s) && Represents(s) && Enabled(s, Invocation.Activate(t, o, connection, del))
      requires home == s.home[o] && call == |s.calls|
      modifies this, queues
      ensures direct <==> Effective(connection, t, home).Direct?
      ensures Inv(Next(s, Invocation.Activate(t, o, connection, del)))
      ensures Represents(Next(s, Invocation.Activate(t, o, connection, del)))
    {
      ActivateShows(Queues(), Counts(), s, t, o, connection, del);
      hide Inv, Shows, Live, Next, Enabled, CountFor;
      var mode := Effective(connection, t, home);
      direct := mode.Direct?;
      if !direct {
        Post(o, home, call);
        if mode.Blocking? {
          AddSemaphore(call);
        }
      }
    }

    method Post(o: Object, home: Thread, call: nat)
      requires Valid() && home < |queues|
      modifies queues[home]
      ensures Valid() && Queues() == old(Queues()[home := Queues()[home] + [Message(o, call)]])
    {
      hide Live, CountFor;
      ghost var was := Queues();
      queues[home].PostMessage(call, o);
      assert Queues() == was[home := was[home] + [Message(o, call)]];
    }

    method AddSemaphore(call: nat)
      requires Valid()
      modifies this
      ensures Valid() && Queues() == old(Queues()) && Counts() == old(Counts())[call := 0]
      ensures fresh(semaphores.Values - old(semaphores.Values))
    {
      hide Live, CountFor;
      var semaphore := new Semaphore(0);
      semaphores := semaphores[call := semaphore];
    }

    /** dispatchMessages() takes the next message of a thread that has one. */
    method Take(t: Thread, ghost s: State) returns (message: Message)
      requires Inv(s) && Represents(s) && Enabled(s, Invocation.Take(t))
      modifies queues
      ensures message.call == s.queues[t][0]
      ensures Inv(Next(s, Invocation.Take(t))) && Represents(Next(s, Invocation.Take(t)))
    {
      TakeAction(Queues(), Counts(), s, t);
      ghost var was := Queues();
      hide Inv, Shows, Live, CountFor, Next, Enabled;
      var m := queues[t].TakeMessage();
      message := m.value;
      assert Queues() == was[t := was[t][1..]];
    }

    method Remove(o: Object, home: Thread) returns (toDelete: seq<Message>)
      requires Valid() && home < |queues|
      modifies queues[home]
      ensures Valid() && Queues() == old(Queues()[home := Others(Queues()[home], o)])
      ensures toDelete == Mine(old(Queues()[home]), o)
    {
      hide Live, CountFor, Others, Mine;
      ghost var was := Queues();
      toDelete := queues[home].RemoveMessages(o);
      assert Queues() == was[home := Others(was[home], o)];
    }

    /** The destructor of an object: removeMessages() takes out what is dismissed. */
    method Destroy(o: Object, home: Thread, ghost s: State) returns (toDelete: seq<Message>)
      requires Inv(s) && Represents(s) && Enabled(s, Invocation.Destroy(o)) && home == s.home[o]
      modifies queues
      ensures Inv(Next(s, Invocation.Destroy(o))) && Represents(Next(s, Invocation.Destroy(o)))
      ensures forall c | 0 <= c < |s.calls| && s.calls[c].receiver == o ::
        multiset(toDelete)[Message(o, c)] == multiset(s.queues[home])[c]
    {
      DestroyAction(Queues(), Counts(), s, o);
      hide Inv, Live, CountFor, Next, Enabled, Others, Mine, Shows;
      toDelete := Remove(o, home);
    }

    method AddOne(call: nat)
      requires Valid() && call in semaphores && semaphores[call].available < 0xFFFF_FFFF
      modifies semaphores[call]
      ensures Valid() && Queues() == old(Queues()) && Counts() == old(Counts()[call := Counts()[call] + 1])
    {
      hide Live, CountFor;
      semaphores[call].Release(1);
    }

    method TakeOne(call: nat)
      requires Valid() && call in semaphores && semaphores[call].available >= 1
      modifies semaphores[call]
      ensures Valid() && Queues() == old(Queues()) && Counts() == old(Counts()[call := Counts()[call] - 1])
    {
      hide Live, CountFor;
      semaphores[call].Acquire(1);
    }

    /** The end of InvokeMessage's invocation, for the call in the innermost frame of thread t. */
    method Release(t: Thread, call: nat, ghost s: State)
      requires Inv(s) && Represents(s) && Enabled(s, Action.Release(t)) && call == Top(s, t).value.call
      modifies semaphores.Values
      ensures Inv(Next(s, Action.Release(t))) && Represents(Next(s, Action.Release(t)))
    {
      StepKeeps(s, Action.Release(t));
      CountsShow(Queues(), Counts(), s, Action.Release(t));
      assert call in semaphores ==> Counts()[call] == semaphores[call].available as int;
      hide Inv, Live, CountFor, Next, Enabled, Shows, Top;
      if call in semaphores {
        AddOne(call);
      }
    }

    /** A blocked caller that wakes. */
    method Wake(t: Thread, call: nat, ghost s: State)
      requires Inv(s) && Represents(s) && Enabled(s, Invocation.Wake(t)) && call == Top(s, t).value.call
      modifies semaphores.Values
      ensures Inv(Next(s, Invocation.Wake(t))) && Represents(Next(s, Invocation.Wake(t)))
    {
      StepKeeps(s, Invocation.Wake(t));
      CountsShow(Queues(), Counts(), s, Invocation.Wake(t));
      assert call in semaphores ==> Counts()[call] == semaphores[call].available as int;
      hide Inv, Live, CountFor, Next, Enabled, Shows, Top;
      TakeOne(call);
    }
  }
}
