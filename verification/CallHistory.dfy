/** What the record of a call has to do with the actions of a run: who made it, and what its method returned. */
module CallHistory {
  import opened Bytes
  import opened Invocation

  /** The state before the k-th action. */
  function Before(s: State, actions: seq<Action>, k: nat): State
    requires Shaped(s) && k <= |actions| && Runs(s, actions[..k])
  {
    After(s, actions[..k])
  }

  lemma {:induction false} RunSplit(s: State, actions: seq<Action>)
    requires Shaped(s) && Runs(s, actions) && actions != []
    ensures
      var n := |actions| - 1;
      && Runs(s, actions[..n]) && Shaped(After(s, actions[..n])) && Enabled(After(s, actions[..n]), actions[n])
      && After(s, actions) == Next(After(s, actions[..n]), actions[n])
    decreases |actions|
  {
    hide Next, Enabled, Shaped;
    var n := |actions| - 1;
    var next := Next(s, actions[0]);
    if n == 0 {
      assert actions[..0] == [] && actions[1..] == [];
      assert After(s, actions) == After(next, []) == next;
    } else {
      RunSplit(next, actions[1..]);
      assert actions[1..][..n - 1] == actions[..n][1..] && actions[1..][n - 1] == actions[n];
    }
  }

  // --- Who made a call.

  predicate IsPrefix(s: State, actions: seq<Action>, k: nat)
    requires Shaped(s)
  {
    k < |actions| && Runs(s, actions[..k]) && Shaped(After(s, actions[..k]))
  }

  /** The k-th action makes call c, for this caller and receiver, of the type that results, to be deleted or not. */
  predicate MakesAt(s: State, actions: seq<Action>, k: nat, c: nat, call: Call)
    requires Shaped(s)
  {
    && IsPrefix(s, actions, k) && actions[k].Activate?
    && var a := actions[k];
    && |Before(s, actions, k).calls| == c
    && call.caller == a.t && call.receiver == a.receiver && call.deleteMethod == a.deleteMethod
    && a.receiver < |s.home| && call.mode == Effective(a.connection, a.t, s.home[a.receiver])
    && a.receiver in Before(s, actions, k).live
  }

  lemma StepRecord(s: State, a: Action, c: nat)
    requires Inv(s) && Enabled(s, a) && c < |Next(s, a).calls|
    ensures
      var after := Next(s, a);
      && after.home == s.home
      && (if c < |s.calls| then SameCall(after.calls[c], s.calls[c])
          else
            && a.Activate? && c == |s.calls| && a.receiver < |s.home| && a.receiver in s.live
            && after.calls[c].caller == a.t && after.calls[c].receiver == a.receiver
            && after.calls[c].deleteMethod == a.deleteMethod
            && after.calls[c].mode == Effective(a.connection, a.t, s.home[a.receiver]))
  {
    if c < |s.calls| {
      StepIsFinal(s, a, c);
    }
    hide CallOk, StackOk, QueueOk, Accounted;
  }

  /** Every call of a run was made by an activation, whose particulars its record keeps. */
  lemma {:induction false} CallWasMade(s: State, actions: seq<Action>, c: nat)
    requires Inv(s) && s.calls == [] && Runs(s, actions) && c < |After(s, actions).calls|
    ensures After(s, actions).home == s.home
    ensures exists k: nat | k < |actions| :: MakesAt(s, actions, k, c, After(s, actions).calls[c])
    decreases |actions|
  {
    assert Shaped(s) && actions != [];
    hide Next, Enabled, Inv, Shaped;
    var n := |actions| - 1;
    RunSplit(s, actions);
    RunKeeps(s, actions[..n]);
    hide Runs, After;
    var at := After(s, actions[..n]);
    StepRecord(at, actions[n], c);
    HomeStays(s, actions[..n]);
    if c >= |at.calls| {
      assert MakesAt(s, actions, n, c, After(s, actions).calls[c]);
    } else {
      hide MakesAt;
      CallWasMade(s, actions[..n], c);
      MadeEarlier(s, actions[..n], actions, c, at.calls[c], After(s, actions).calls[c]);
    }
  }

  lemma MadeEarlier(s: State, first: seq<Action>, actions: seq<Action>, c: nat, call: Call, later: Call)
    requires Shaped(s) && first <= actions && SameCall(later, call)
    requires exists k: nat | k < |first| :: MakesAt(s, first, k, c, call)
    ensures exists k: nat | k < |actions| :: MakesAt(s, actions, k, c, later)
  {
    hide Shaped, Runs, After;
    var k: nat :| k < |first| && MakesAt(s, first, k, c, call);
    assert first[..k] == actions[..k] && first[k] == actions[k];
    assert MakesAt(s, actions, k, c, later);
  }

  lemma {:induction false} HomeStays(s: State, actions: seq<Action>)
    requires Shaped(s) && Runs(s, actions)
    ensures After(s, actions).home == s.home
    decreases |actions|
  {
    if actions != [] {
      assert Next(s, actions[0]).home == s.home;
      hide Next, Enabled, Shaped;
      HomeStays(Next(s, actions[0]), actions[1..]);
    }
  }

  // --- What the method of a call returned.

  /** The k-th action ends the method of call c with this value: it was running in the innermost frame of the thread. */
  predicate ReturnsAt(s: State, actions: seq<Action>, k: nat, c: nat, value: Value)
    requires Shaped(s)
  {
    && IsPrefix(s, actions, k) && actions[k].EndInvoke? && actions[k].value == value
    && var at, t := Before(s, actions, k), actions[k].t;
    && Top(at, t).Some? && Top(at, t).value.call == c && !Top(at, t).value.Wait?
    && c < |at.calls| && at.calls[c].receiver < |s.home|
    && t == if at.calls[c].mode.Direct? then at.calls[c].caller else s.home[at.calls[c].receiver]
  }

  lemma StepResult(s: State, a: Action, c: nat, x: Value)
    requires Inv(s) && Enabled(s, a) && c < |Next(s, a).calls| && Next(s, a).calls[c].result == Some(x)
    ensures
      || (c < |s.calls| && s.calls[c].result == Some(x))
      || (&& a.EndInvoke? && a.value == x && c < |s.calls|
          && Top(s, a.t).Some? && Top(s, a.t).value.call == c && !Top(s, a.t).value.Wait?
          && s.calls[c].receiver < |s.home|
          && a.t == if s.calls[c].mode.Direct? then s.calls[c].caller else s.home[s.calls[c].receiver])
  {
    if a.EndInvoke? {
      TopOk(s, a.t);
    }
    hide QueueOk, Accounted;
  }

  /** A result is what the method returned, when it ran in the thread of its receiver, or in that of its caller if the
    * call was direct. */
  lemma {:induction false} ResultWasReturned(s: State, actions: seq<Action>, c: nat, x: Value)
    requires Inv(s) && s.calls == [] && Runs(s, actions)
    requires c < |After(s, actions).calls| && After(s, actions).calls[c].result == Some(x)
    ensures exists k: nat | k < |actions| :: ReturnsAt(s, actions, k, c, x)
    decreases |actions|
  {
    assert Shaped(s) && actions != [];
    hide Next, Enabled, Inv, Shaped;
    var n := |actions| - 1;
    RunSplit(s, actions);
    RunKeeps(s, actions[..n]);
    hide Runs, After, Top;
    HomeStays(s, actions[..n]);
    var at := After(s, actions[..n]);
    StepResult(at, actions[n], c, x);
    if c < |at.calls| && at.calls[c].result == Some(x) {
      hide ReturnsAt;
      ResultWasReturned(s, actions[..n], c, x);
      ReturnedEarlier(s, actions[..n], actions, c, x);
    } else {
      assert ReturnsAt(s, actions, n, c, x);
    }
  }

  lemma ReturnedEarlier(s: State, first: seq<Action>, actions: seq<Action>, c: nat, x: Value)
    requires Shaped(s) && first <= actions
    requires exists k: nat | k < |first| :: ReturnsAt(s, first, k, c, x)
    ensures exists k: nat | k < |actions| :: ReturnsAt(s, actions, k, c, x)
  {
    hide Shaped, Runs, After, Top;
    var k: nat :| k < |first| && ReturnsAt(s, first, k, c, x);
    assert first[..k] == actions[..k] && first[k] == actions[k];
    assert ReturnsAt(s, actions, k, c, x);
  }

  // --- Deleted objects.

  /** Only objects that exist have messages queued. */
  predicate QueuedLive(s: State) {
    forall t, i | 0 <= t < |s.queues| && 0 <= i < |s.queues[t]| ::
      s.queues[t][i] < |s.calls| && s.calls[s.queues[t][i]].receiver in s.live
  }

  lemma {:induction false} NotToLacks(calls: seq<Call>, queue: seq<nat>, o: Object)
    requires forall i | 0 <= i < |queue| :: queue[i] < |calls|
    ensures forall c <- NotTo(calls, queue, o) :: c in queue && c < |calls| && calls[c].receiver != o
    decreases |queue|
  {
    if queue != [] {
      NotToLacks(calls, queue[..|queue| - 1], o);
    }
  }

  lemma StepQueuedLive(s: State, a: Action)
    requires Inv(s) && QueuedLive(s) && Enabled(s, a)
    ensures QueuedLive(Next(s, a))
    ensures Next(s, a).live == if a.Destroy? then s.live - {a.receiver} else s.live
  {
    if a.Destroy? {
      DestroyQueuedLive(s, a.receiver);
    } else if a.Activate? || a.Take? {
      hide CallOk, StackOk, Accounted, QueueOk;
    } else {
      SameQueues(s, a);
      hide Next, Enabled, Inv;
    }
  }

  lemma SameQueues(s: State, a: Action)
    requires Shaped(s) && Enabled(s, a) && !a.Activate? && !a.Take? && !a.Destroy?
    ensures
      var after := Next(s, a);
      && after.queues == s.queues && after.live == s.live && |after.calls| == |s.calls|
      && forall c | 0 <= c < |s.calls| :: after.calls[c].receiver == s.calls[c].receiver
  {
  }

  lemma DestroyQueuedLive(s: State, o: Object)
    requires Inv(s) && QueuedLive(s) && o < |s.home|
    ensures QueuedLive(AfterDestroy(s, o))
  {
    var after, h := AfterDestroy(s, o), s.home[o];
    NotToLacks(s.calls, s.queues[h], o);
    forall t, i | 0 <= t < |after.queues| && 0 <= i < |after.queues[t]|
      ensures after.queues[t][i] < |after.calls| && after.calls[after.queues[t][i]].receiver in after.live
    {
      var c := after.queues[t][i];
      assert c in after.queues[t];
      if t == h {
        assert c in s.queues[h];
      } else {
        assert QueueOk(s.home, s.calls, t, s.queues[t], s.taken[t]);
        assert c in s.queues[t] && Belongs(s.home, s.calls, t, c);
      }
    }
  }

  /** In every run no message waits for a deleted object, and nothing is called that was deleted. */
  lemma {:induction false} DeletedIsNotCalled(s: State, actions: seq<Action>)
    requires Inv(s) && QueuedLive(s) && Runs(s, actions)
    ensures QueuedLive(After(s, actions)) && After(s, actions).live <= s.live
    ensures forall o: Object | Destroy(o) in actions :: o !in After(s, actions).live
    decreases |actions|
  {
    if actions != [] {
      StepKeeps(s, actions[0]);
      StepQueuedLive(s, actions[0]);
      hide Next, Enabled, Inv, QueuedLive, Shaped;
      DeletedIsNotCalled(Next(s, actions[0]), actions[1..]);
      assert forall a <- actions :: a == actions[0] || a in actions[1..];
    }
  }
}
