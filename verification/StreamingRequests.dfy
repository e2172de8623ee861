/** Which wrap a completed request meets. The callback takes the front of its queue and compares addresses;
  * refused requests, completions out of order and addresses that are used again decide what it finds. */
module StreamingRequests {
  import opened StreamingLoop

  // --- Addresses.

  /** The task has created a request that it has neither queued nor deleted. */
  predicate Holding(s: State) {
    s.position.Acquiring? || s.position.Queueing?
  }

  /** The address of the request that has just completed, which the camera deletes after the callback. */
  function Ending(c: Callback): nat
    requires !c.NoCallback?
  {
    match c
    case Delivering(wrap, _) => wrap.request.address
    case Dropping(_, a) => a
    case Deleting(a) => a
  }

  predicate Ends(c: Callback, address: nat) {
    !c.NoCallback? && Ending(c) == address
  }

  predicate Flies(camera: seq<Request>, address: nat) {
    exists i | 0 <= i < |camera| :: camera[i].address == address
  }

  /** The requests in flight, the one that has just completed and the one that is being filled exist, and no two
    * of them are at the same address. */
  predicate LiveOk(s: State) {
    && (Holding(s) ==> s.address in s.live && !Flies(s.camera, s.address) && !Ends(s.callback, s.address))
    && (forall i | 0 <= i < |s.camera| :: s.camera[i].address in s.live && !Ends(s.callback, s.camera[i].address))
    && (forall i, j | 0 <= i < j < |s.camera| :: s.camera[i].address != s.camera[j].address)
    && (!s.callback.NoCallback? ==> Ending(s.callback) in s.live)
  }

  lemma StepLive(s: State, a: Action)
    requires Shaped(s) && Enabled(s, a) && LiveOk(s)
    ensures LiveOk(Next(s, a))
  {
    if a.Complete? {
      CompleteLive(s, a.i, a.cancelled);
    } else if a.Queue? {
      QueueLive(s, a.accepted);
    } else {
      OthersAside(s, a);
      hide NothingPending;
    }
  }

  lemma QueueLive(s: State, accepted: bool)
    requires Shaped(s) && Enabled(s, Queue(accepted)) && LiveOk(s)
    ensures LiveOk(Next(s, Queue(accepted)))
  {
  }

  lemma CompleteLive(s: State, i: nat, cancelled: bool)
    requires Shaped(s) && Enabled(s, Complete(i, cancelled)) && LiveOk(s)
    ensures LiveOk(AfterComplete(s, i, cancelled))
  {
    var after := AfterComplete(s, i, cancelled);
    assert forall j | 0 <= j < |after.camera| :: after.camera[j] == s.camera[if j < i then j else j + 1];
  }

  // --- Which requests exist.

  predicate IsRefused(s: State, i: nat)
    requires i < |s.queued|
  {
    i !in s.accepted
  }

  predicate Refused(s: State, address: nat) {
    exists i | 0 <= i < |s.queued| :: IsRefused(s, i) && s.queued[i].request.address == address
  }

  predicate InUse(s: State, address: nat) {
    (Holding(s) && s.address == address) || Flies(s.camera, address) || Ends(s.callback, address)
  }

  /** The requests that exist are those in use, and the refused ones, whose addresses are not used again. */
  predicate LiveIs(s: State) {
    && (forall i <- s.accepted :: i < |s.queued|)
    && (forall a <- s.live :: InUse(s, a) || Refused(s, a))
    && forall i | 0 <= i < |s.queued| && IsRefused(s, i) ::
         s.queued[i].request.address in s.live && !InUse(s, s.queued[i].request.address)
  }

  lemma StepLiveIs(s: State, a: Action)
    requires Shaped(s) && Recorded(s) && LiveOk(s) && LiveIs(s) && Enabled(s, a)
    ensures LiveIs(Next(s, a))
  {
    var after := Next(s, a);
    if a.Complete? {
      CompleteLiveIs(s, a.i, a.cancelled);
    } else if a.Queue? {
      QueueLiveIs(s, a.accepted);
    } else {
      OthersAside(s, a);
      assert forall x :: Refused(after, x) <==> Refused(s, x);
      OthersUse(s, a);
      hide Next, Enabled, Shaped, Recorded, LiveOk, InUse, Refused;
    }
  }

  /** Other steps than these create or delete one request, or none. */
  lemma OthersUse(s: State, a: Action)
    requires Shaped(s) && LiveOk(s) && Enabled(s, a) && !a.Queue? && !a.Complete?
    ensures
      var after := Next(s, a);
      || (after.live == s.live && forall x :: InUse(after, x) <==> InUse(s, x))
      || (exists y :: y !in s.live && after.live == s.live + {y} && forall x :: InUse(after, x) <==> x == y || InUse(s, x))
      || (exists y :: InUse(s, y) && after.live == s.live - {y} && forall x :: InUse(after, x) <==> x != y && InUse(s, x))
  {
    hide NothingPending, Flies, Shaped;
    OthersAside(s, a);
    if !s.callback.NoCallback? {
      EndingIsApart(s);
    }
    assert !s.callback.NoCallback? ==> Ends(s.callback, Ending(s.callback)) && InUse(s, Ending(s.callback));
    assert Holding(s) ==> InUse(s, s.address);
  }

  lemma EndingIsApart(s: State)
    requires LiveOk(s) && !s.callback.NoCallback?
    ensures !Flies(s.camera, Ending(s.callback))
  {
  }

  lemma QueueLiveIs(s: State, accepted: bool)
    requires Shaped(s) && LiveOk(s) && LiveIs(s) && Enabled(s, Queue(accepted))
    ensures LiveIs(Next(s, Queue(accepted)))
  {
    var after, n := Next(s, Queue(accepted)), |s.queued|;
    assert after.queued[..n] == s.queued && after.queued[n].request.address == s.address;
    FliesSnoc(s.camera, NewWrap(s).request);
    assert forall i | 0 <= i < n :: IsRefused(after, i) <==> IsRefused(s, i);
    assert IsRefused(after, n) <==> !accepted;
    forall x ensures Refused(after, x) <==> Refused(s, x) || (!accepted && x == s.address) {
      assert forall i | 0 <= i < n :: after.queued[i] == s.queued[i];
    }
    assert forall x :: InUse(after, x) <==> if x == s.address then accepted else InUse(s, x);
    hide LiveOk, Shaped, Next, InUse, Refused, Flies;
  }

  lemma FliesSnoc(camera: seq<Request>, r: Request)
    ensures forall x :: Flies(camera + [r], x) <==> Flies(camera, x) || x == r.address
  {
    forall x | Flies(camera, x) ensures Flies(camera + [r], x) {
      var i :| 0 <= i < |camera| && camera[i].address == x;
      assert (camera + [r])[i].address == x;
    }
    assert (camera + [r])[|camera|] == r;
  }

  lemma FliesWithout(camera: seq<Request>, i: nat)
    requires i < |camera| && forall j, k | 0 <= j < k < |camera| :: camera[j].address != camera[k].address
    ensures forall x :: Flies(camera[..i] + camera[i + 1..], x) <==> Flies(camera, x) && x != camera[i].address
  {
    var rest := camera[..i] + camera[i + 1..];
    assert forall j | 0 <= j < |rest| :: rest[j] == camera[if j < i then j else j + 1];
    forall x | Flies(camera, x) && x != camera[i].address ensures Flies(rest, x) {
      var j :| 0 <= j < |camera| && camera[j].address == x;
      assert rest[if j < i then j else j - 1].address == x;
    }
    forall x | Flies(rest, x) ensures Flies(camera, x) && x != camera[i].address {
      var j :| 0 <= j < |rest| && rest[j].address == x;
      assert camera[if j < i then j else j + 1].address == x;
    }
  }

  lemma CompleteLiveIs(s: State, i: nat, cancelled: bool)
    requires Shaped(s) && Recorded(s) && LiveOk(s) && LiveIs(s) && Enabled(s, Complete(i, cancelled))
    ensures LiveIs(AfterComplete(s, i, cancelled))
  {
    var after, r := AfterComplete(s, i, cancelled), s.camera[i].address;
    FliesWithout(s.camera, i);
    assert Flies(s.camera, r);
    assert forall x :: Ends(after.callback, x) <==> x == r;
    assert forall x :: InUse(after, x) <==> InUse(s, x);
    assert forall x :: Refused(after, x) <==> Refused(s, x);
    hide LiveOk, Shaped, Recorded, InUse, Refused, Flies;
  }

  // --- Every completed request meets the oldest wrap, and is recognised by its address.

  predicate Met(s: State) {
    && |s.finished| == |s.outcomes| <= |s.queued|
    && forall j | 0 <= j < |s.outcomes| ::
         && s.finished[j].number < |s.queued| && s.finished[j] == s.queued[s.finished[j].number].request
         && (s.outcomes[j].Mismatched? <==> s.queued[j].request.address != s.finished[j].address)
  }

  lemma StepMet(s: State, a: Action)
    requires Shaped(s) && Recorded(s) && Enabled(s, a) && Met(s)
    ensures Met(Next(s, a))
  {
    if a.Complete? {
      CompleteMet(s, a.i, a.cancelled);
    } else if !a.Queue? {
      OthersAside(s, a);
      hide Next, Enabled, Shaped, Recorded;
    }
  }

  lemma CompleteMet(s: State, i: nat, cancelled: bool)
    requires Shaped(s) && Recorded(s) && Enabled(s, Complete(i, cancelled)) && Met(s)
    ensures Met(AfterComplete(s, i, cancelled))
  {
    hide Shaped;
    assert s.requests[0] == s.queued[|s.outcomes|];
  }

  /** Everything that holds in every run. */
  ghost predicate Sound(s: State) {
    Inv(s) && LiveOk(s) && LiveIs(s) && Met(s)
  }

  lemma StepSound(s: State, a: Action)
    requires Sound(s) && Enabled(s, a)
    ensures Sound(Next(s, a))
  {
    StepKeeps(s, a);
    StepLive(s, a);
    StepLiveIs(s, a);
    StepMet(s, a);
    hide Next, Enabled, LiveOk, LiveIs, Met;
  }

  lemma StartSound(s: State)
    requires Start(s)
    ensures Sound(s)
  {
    StartInv(s);
  }

  lemma {:induction false} RunSound(s: State, actions: seq<Action>)
    requires Sound(s) && Runs(s, actions)
    ensures Sound(After(s, actions))
    decreases |actions|
  {
    if actions != [] {
      StepSound(s, actions[0]);
      hide Next, Enabled, Inv, LiveOk, LiveIs, Met;
      RunSound(Next(s, actions[0]), actions[1..]);
    }
  }

  /** In every run: the requests in flight are at different addresses, and the j-th completed request is mismatched
    * iff it is not at the address of the j-th queued one. */
  lemma MismatchedIff(s: State, actions: seq<Action>)
    requires Start(s) && Runs(s, actions)
    ensures
      var after := After(s, actions);
      && (forall i, j | 0 <= i < j < |after.camera| :: after.camera[i].address != after.camera[j].address)
      && Met(after)
  {
    StartSound(s);
    RunSound(s, actions);
  }

  /** In every run, the requests that exist are the one being filled, those in flight, the one that has just completed,
    * and the refused ones; all others have been deleted. */
  lemma ExistingIff(s: State, actions: seq<Action>)
    requires Start(s) && Runs(s, actions)
    ensures forall a :: a in After(s, actions).live <==> InUse(After(s, actions), a) || Refused(After(s, actions), a)
  {
    StartSound(s);
    RunSound(s, actions);
    hide Runs, After, Inv, Met, Start;
  }

  // --- A camera that completes in order.

  /** A camera that completes requests in the order in which it got them. */
  predicate CompletesInOrder(actions: seq<Action>) {
    forall a <- actions :: a.Complete? ==> a.i == 0
  }

  predicate AcceptsAll(actions: seq<Action>) {
    forall a <- actions :: a.Queue? ==> a.accepted
  }

  /** The accepted requests are those completed and then those in flight, in order. */
  predicate InOrder(s: State) {
    && |s.accepted| == |s.finished| + |s.camera|
    && (forall i | 0 <= i < |s.finished| :: s.finished[i].number == s.accepted[i])
    && forall i | 0 <= i < |s.camera| :: s.camera[i].number == s.accepted[|s.finished| + i]
  }

  lemma StepInOrder(s: State, a: Action)
    requires Shaped(s) && Recorded(s) && Enabled(s, a) && InOrder(s) && (a.Complete? ==> a.i == 0)
    ensures InOrder(Next(s, a))
  {
    if !a.Complete? && !a.Queue? {
      OthersAside(s, a);
      hide Next, Enabled, Shaped, Recorded;
    }
  }

  /** Every queued request has been accepted. */
  predicate Full(s: State) {
    |s.accepted| == |s.queued| && forall i | 0 <= i < |s.accepted| :: s.accepted[i] == i
  }

  /** The request with number r was the first to be refused. */
  predicate Gap(s: State, r: nat) {
    && r <= |s.accepted| < |s.queued|
    && forall i | 0 <= i < |s.accepted| :: if i < r then s.accepted[i] == i else i < s.accepted[i] < |s.queued|
  }

  lemma StepFull(s: State, a: Action)
    requires Shaped(s) && Enabled(s, a) && Full(s)
    ensures if a == Queue(false) then Gap(Next(s, a), |s.queued|) else Full(Next(s, a))
  {
    if !a.Complete? && !a.Queue? {
      OthersAside(s, a);
      hide Next, Enabled, Shaped;
    }
  }

  lemma StepGap(s: State, a: Action, r: nat)
    requires Shaped(s) && Enabled(s, a) && Gap(s, r)
    ensures Gap(Next(s, a), r)
  {
    if !a.Complete? && !a.Queue? {
      OthersAside(s, a);
      hide Next, Enabled, Shaped;
    }
  }

  /** Nobody deletes a refused request, so no later one is at its address. */
  predicate Leaked(s: State, r: nat) {
    && r < |s.queued|
    && var a := s.queued[r].request.address;
    && a in s.live && (Holding(s) ==> s.address != a) && !Flies(s.camera, a) && !Ends(s.callback, a)
    && forall m | r < m < |s.queued| :: s.queued[m].request.address != a
  }

  lemma RefusalLeaks(s: State)
    requires Shaped(s) && LiveOk(s) && Enabled(s, Queue(false))
    ensures Leaked(Next(s, Queue(false)), |s.queued|)
  {
  }

  lemma StepLeaked(s: State, a: Action, r: nat)
    requires Shaped(s) && Enabled(s, a) && Leaked(s, r)
    ensures Leaked(Next(s, a), r)
  {
    if a.Complete? {
      var camera := AfterComplete(s, a.i, a.cancelled).camera;
      assert forall j | 0 <= j < |camera| :: camera[j] == s.camera[if j < a.i then j else j + 1];
    } else if !a.Queue? {
      OthersAside(s, a);
      hide NothingPending;
    }
  }

  /** With every request accepted and completed in order, each one meets its own wrap. */
  lemma {:induction false} OrderlyRun(s: State, actions: seq<Action>)
    requires Sound(s) && Runs(s, actions) && InOrder(s) && Full(s)
    requires CompletesInOrder(actions) && AcceptsAll(actions)
    ensures Sound(After(s, actions)) && InOrder(After(s, actions)) && Full(After(s, actions))
    decreases |actions|
  {
    if actions != [] {
      StepSound(s, actions[0]);
      StepInOrder(s, actions[0]);
      StepFull(s, actions[0]);
      hide Next, Enabled, Inv, LiveOk, Met, InOrder, Full;
      OrderlyRun(Next(s, actions[0]), actions[1..]);
    }
  }

  /** So no request is ever mismatched. */
  lemma OrderlyNeverMismatches(s: State, actions: seq<Action>)
    requires Start(s) && Runs(s, actions) && CompletesInOrder(actions) && AcceptsAll(actions)
    ensures
      var after := After(s, actions);
      && |after.finished| == |after.outcomes|
      && forall j | 0 <= j < |after.outcomes| :: after.finished[j].number == j && !after.outcomes[j].Mismatched?
  {
    StartSound(s);
    OrderlyRun(s, actions);
  }

  lemma {:induction false} LaggingRun(s: State, actions: seq<Action>, r: nat)
    requires Sound(s) && Runs(s, actions) && InOrder(s) && Gap(s, r) && Leaked(s, r) && CompletesInOrder(actions)
    ensures var after := After(s, actions); Sound(after) && InOrder(after) && Gap(after, r) && Leaked(after, r)
    decreases |actions|
  {
    if actions != [] {
      StepSound(s, actions[0]);
      StepInOrder(s, actions[0]);
      StepGap(s, actions[0], r);
      StepLeaked(s, actions[0], r);
      hide Next, Enabled, Inv, LiveOk, Met, InOrder, Gap, Leaked;
      LaggingRun(Next(s, actions[0]), actions[1..], r);
    }
  }

  /** No two requests of the session were at the same address. */
  predicate AddressesDiffer(queued: seq<Wrap>) {
    forall i, j | 0 <= i < j < |queued| :: queued[i].request.address != queued[j].request.address
  }

  /** One refused request puts the queue out of step for good. A failing queueRequest() is not noticed, and its wrap
    * joins the queue. In a session whose camera completes in order, the j-th completion meets its own wrap iff
    * it comes before the refused request. From there on it is mismatched, and the buffers of the wrap are
    * dropped, unless the request is at the address of the older one that queued the wrap: then the buffers of
    * that one are delivered. The refused request itself is never deleted, so its wrap is always mismatched. */
  lemma RefusedRequestStalls(s: State, before: seq<Action>, rest: seq<Action>)
    requires Start(s) && Runs(s, before + ([Queue(false)] + rest))
    requires AcceptsAll(before) && CompletesInOrder(before) && CompletesInOrder(rest)
    ensures Runs(s, before)
    ensures
      var r, after := |After(s, before).queued|, After(s, before + ([Queue(false)] + rest));
      && Met(after)
      && forall j | 0 <= j < |after.outcomes| ::
           && (after.finished[j].number == j <==> j < r)
           && (j < r ==> !after.outcomes[j].Mismatched?) && (j == r ==> after.outcomes[j].Mismatched?)
           && (AddressesDiffer(after.queued) ==> (after.outcomes[j].Mismatched? <==> j >= r))
  {
    hide Next, Enabled, Shaped, Inv, LiveOk, CompletesInOrder, AcceptsAll;
    RunsAppend(s, before, [Queue(false)] + rest);
    var at := After(s, before);
    StartOrdered(s);
    OrderlyRun(s, before);
    RefusedHead(at, rest);
    hide Start, Runs, After;
    RefusedRun(at, rest);
  }

  lemma StartOrdered(s: State)
    requires Start(s)
    ensures Sound(s) && InOrder(s) && Full(s)
  {
    StartSound(s);
  }

  lemma RefusedHead(s: State, rest: seq<Action>)
    requires Shaped(s) && Runs(s, [Queue(false)] + rest)
    ensures Enabled(s, Queue(false)) && Shaped(Next(s, Queue(false))) && Runs(Next(s, Queue(false)), rest)
    ensures After(s, [Queue(false)] + rest) == After(Next(s, Queue(false)), rest)
  {
    assert ([Queue(false)] + rest)[1..] == rest;
    hide Next, Enabled, Shaped;
  }

  lemma RefusedRun(s: State, rest: seq<Action>)
    requires Sound(s) && InOrder(s) && Full(s) && Enabled(s, Queue(false)) && Shaped(Next(s, Queue(false)))
    requires Runs(Next(s, Queue(false)), rest) && CompletesInOrder(rest)
    ensures
      var r, after := |s.queued|, After(Next(s, Queue(false)), rest);
      Met(after) && InOrder(after) && Gap(after, r) && Leaked(after, r)
  {
    StepSound(s, Queue(false));
    StepInOrder(s, Queue(false));
    StepFull(s, Queue(false));
    RefusalLeaks(s);
    hide Next, Enabled, Inv, LiveOk, Met, InOrder, Gap, Leaked;
    LaggingRun(Next(s, Queue(false)), rest, |s.queued|);
  }

  // --- A loop that nobody wakes.

  /** The task is paused, and no request is in flight whose completion could resume it. */
  predicate Stalled(s: State) {
    !s.task.Started? && s.position.Resting? && Unlocked(s) && s.camera == []
  }

  lemma StalledStep(s: State, a: Action)
    requires Shaped(s) && Enabled(s, a) && Stalled(s) && !a.Play?
    ensures !a.Begin? && !a.Complete? && Stalled(Next(s, a))
    ensures
      var after := Next(s, a);
      after.queued == s.queued && after.outcomes == s.outcomes && after.pushed == s.pushed && after.pending == s.pending
  {
  }

  /** Until the application plays again nothing is queued, completed or pushed, whatever buffers come back. */
  lemma {:induction false} StalledForGood(s: State, actions: seq<Action>)
    requires Shaped(s) && Runs(s, actions) && Stalled(s) && Play !in actions
    ensures Stalled(After(s, actions)) && forall a <- actions :: !a.Begin? && !a.Complete?
    ensures
      var after := After(s, actions);
      after.queued == s.queued && after.outcomes == s.outcomes && after.pushed == s.pushed && after.pending == s.pending
    decreases |actions|
  {
    if actions != [] {
      StalledStep(s, actions[0]);
      hide Next, Enabled, Shaped, Stalled;
      StalledForGood(Next(s, actions[0]), actions[1..]);
    }
  }

  /** In no continuation before the application plays again does the task run or a request complete. */
  ghost predicate Quiet(s: State)
    requires Shaped(s)
  {
    forall actions: seq<Action> | Runs(s, actions) && Play !in actions :: forall a <- actions :: !a.Begin? && !a.Complete?
  }

  /** At rest between two turns the loop is quiet for good iff it is stalled. */
  lemma QuietIff(s: State)
    requires Shaped(s) && s.position.Resting? && Unlocked(s)
    ensures Quiet(s) <==> Stalled(s)
  {
    if Stalled(s) {
      forall actions: seq<Action> | Runs(s, actions) && Play !in actions
        ensures forall a <- actions :: !a.Begin? && !a.Complete?
      {
        StalledForGood(s, actions);
      }
    } else {
      var actions := WayOut(s);
      assert !Quiet(s);
    }
  }

  lemma WayOut(s: State) returns (actions: seq<Action>)
    requires Shaped(s) && s.position.Resting? && Unlocked(s) && !Stalled(s)
    ensures Runs(s, actions) && Play !in actions && exists a <- actions :: a.Begin? || a.Complete?
  {
    if s.task.Started? {
      var address := FreeAddress(s.live);
      var a := Begin(address);
      StepShaped(s, a);
      RunsCons(s, a, []);
      actions := [a] + [];
      assert a in actions;
    } else {
      var next := if s.callback.Deleting? then Next(s, Delete) else s;
      var a := Complete(0, false);
      if s.callback.Deleting? {
        StepShaped(s, Delete);
      }
      StepShaped(next, a);
      RunsCons(next, a, []);
      actions := [a] + [];
      assert a in actions;
      if s.callback.Deleting? {
        RunsCons(s, Delete, actions);
        assert a in [Delete] + actions;
        actions := [Delete] + actions;
      }
    }
  }

  lemma {:induction false} FreeAddress(live: set<nat>) returns (a: nat)
    ensures a !in live && forall b <- live :: b < a
    decreases |live|
  {
    if live == {} {
      a := 0;
    } else {
      var b :| b in live;
      var c := FreeAddress(live - {b});
      a := if b < c then c else b + 1;
      assert forall x <- live :: x == b || x in live - {b};
    }
  }

  // --- Concrete sessions with one pad.

  /** Three buffers in the pool of the only pad. */
  function OnePad(): State {
    State(Started, Resting, true, NoCallback, 0, {}, [], [], [[1, 2, 3]], [[]], [[]], [[]], [], [], [], [], [[]])
  }

  lemma OnePadStarts()
    ensures Start(OnePad()) && Runs(OnePad(), []) && After(OnePad(), []) == OnePad()
  {
  }

  lemma RunsSnoc(s: State, actions: seq<Action>, a: Action, next: State)
    requires Shaped(s) && Runs(s, actions) && Shaped(After(s, actions)) && Enabled(After(s, actions), a)
    requires next == Next(After(s, actions), a)
    ensures Runs(s, actions + [a]) && After(s, actions + [a]) == next && Shaped(next)
  {
    var at := After(s, actions);
    StepShaped(at, a);
    RunsCons(at, a, []);
    assert [a] + [] == [a];
    hide Next, Enabled, Shaped, Runs, After;
    RunsConcat(s, actions, [a]);
  }

  /** A turn of the task that queues a request and, with nothing to push, pauses; and the application plays. */
  function Turn(address: nat, accepted: bool): seq<Action> {
    [Begin(address), Acquire(true), Queue(accepted), Push(true), Decide, ReleaseHeld, Play]
  }

  lemma AcquireOne(s: State)
    requires Shaped(s) && s.position == Acquiring([]) && |s.pools| == 1 && s.pools[0] != []
    ensures Next(s, Acquire(true)) == s.(position := Queueing([s.pools[0][0]]), pools := [s.pools[0][1..]])
  {
    assert s.pools[0 := s.pools[0][1..]] == [s.pools[0][1..]];
    assert [] + [s.pools[0][0]] == [s.pools[0][0]];
  }

  /** From the queueing of its request to the end of the turn, and the application playing. */
  lemma QueueRuns(s: State, accepted: bool)
    requires Shaped(s) && s.position.Queueing? && |s.pools| == 1 && s.pending == [[]] && Unlocked(s) && s.task.Started?
    ensures
      var rest, wrap := [Queue(accepted), Push(true), Decide, ReleaseHeld, Play], NewWrap(s);
      && Runs(s, rest)
      && After(s, rest)
         == s.(position := Resting, flowOk := true, requests := s.requests + [wrap], queued := s.queued + [wrap],
               camera := if accepted then s.camera + [wrap.request] else s.camera,
               accepted := if accepted then s.accepted + [|s.queued|] else s.accepted)
  {
    var s1 := Next(s, Queue(accepted));
    StepShaped(s, Queue(accepted));
    assert s1.position == Pushing(0, []) && s1.task.Started? && s1.pending == [[]] && Unlocked(s1);
    PauseRuns(s1);
    RunsCons(s, Queue(accepted), [Push(true), Decide, ReleaseHeld, Play]);
    assert [Queue(accepted)] + [Push(true), Decide, ReleaseHeld, Play]
        == [Queue(accepted), Push(true), Decide, ReleaseHeld, Play];
  }

  lemma PauseRuns(s: State)
    requires Shaped(s) && s.position == Pushing(0, []) && |s.pools| == 1 && s.pending == [[]] && Unlocked(s)
    requires s.task.Started?
    ensures Runs(s, [Push(true), Decide, ReleaseHeld, Play])
    ensures After(s, [Push(true), Decide, ReleaseHeld, Play]) == s.(position := Resting, flowOk := true)
  {
    var s2 := s.(position := Deciding([]), flowOk := true);
    assert Next(s, Push(true)) == s2;
    var s3 := s2.(position := Releasing([]), task := Paused);
    assert Next(s2, Decide) == s3;
    var s4 := s3.(position := Resting);
    assert Next(s3, ReleaseHeld) == s4;
    RunsCons(s4, Play, []);
    RunsCons(s3, ReleaseHeld, [Play] + []);
    RunsCons(s2, Decide, [ReleaseHeld] + ([Play] + []));
    RunsCons(s, Push(true), [Decide] + ([ReleaseHeld] + ([Play] + [])));
    assert [Push(true)] + ([Decide] + ([ReleaseHeld] + ([Play] + []))) == [Push(true), Decide, ReleaseHeld, Play];
  }

  lemma TurnRuns(s: State, address: nat, accepted: bool)
    requires Shaped(s) && |s.pools| == 1 && s.pools[0] != [] && s.pending == [[]] && Unlocked(s)
    requires s.position.Resting? && s.task.Started? && address !in s.live
    ensures Runs(s, Turn(address, accepted))
    ensures
      var r := Request(|s.queued|, address);
      var wrap := Wrap(r, [s.pools[0][0]]);
      After(s, Turn(address, accepted))
      == s.(flowOk := true, address := address, live := s.live + {address}, pools := [s.pools[0][1..]],
            camera := if accepted then s.camera + [r] else s.camera,
            accepted := if accepted then s.accepted + [|s.queued|] else s.accepted,
            requests := s.requests + [wrap], queued := s.queued + [wrap])
  {
    var s1 := Next(s, Begin(address));
    StepShaped(s, Begin(address));
    AcquireOne(s1);
    var s2 := s1.(position := Queueing([s1.pools[0][0]]), pools := [s1.pools[0][1..]]);
    StepShaped(s1, Acquire(true));
    QueueRuns(s2, accepted);
    var rest := [Queue(accepted), Push(true), Decide, ReleaseHeld, Play];
    RunsCons(s1, Acquire(true), rest);
    RunsCons(s, Begin(address), [Acquire(true)] + rest);
    assert [Begin(address)] + ([Acquire(true)] + rest) == Turn(address, accepted);
  }

  /** Two turns, and a completion. */
  lemma TwoTurns(first: bool)
    ensures
      var actions := Turn(7, first) + Turn(8, true);
      && Runs(OnePad(), actions)
      && After(OnePad(), actions)
         == OnePad().(address := 8, live := {7, 8}, pools := [[3]],
                     camera := if first then [Request(0, 7), Request(1, 8)] else [Request(1, 8)],
                     accepted := if first then [0, 1] else [1],
                     requests := [Wrap(Request(0, 7), [1]), Wrap(Request(1, 8), [2])],
                     queued := [Wrap(Request(0, 7), [1]), Wrap(Request(1, 8), [2])])
  {
    hide Next, Enabled, Runs, After, Turn;
    OnePadStarts();
    TurnRuns(OnePad(), 7, first);
    var wrap := Wrap(Request(0, 7), [1]);
    var s := OnePad().(address := 7, live := {7}, pools := [[2, 3]], camera := if first then [wrap.request] else [],
                      accepted := if first then [0] else [], requests := [wrap], queued := [wrap]);
    assert OnePad().pools[0][1..] == [2, 3] && {} + {7} == {7};
    assert After(OnePad(), Turn(7, first)) == s;
    TurnRuns(s, 8, true);
    assert s.pools[0][1..] == [3] && {7} + {8} == {7, 8};
    RunsConcat(OnePad(), Turn(7, first), Turn(8, true));
  }

  /** The first request is refused. When the second one completes it meets the wrap of the first. */
  lemma RefusedRequestMismatches()
    ensures
      var actions := Turn(7, false) + Turn(8, true) + [Complete(0, false)];
      && Runs(OnePad(), actions)
      && After(OnePad(), actions).finished == [Request(1, 8)] && After(OnePad(), actions).outcomes == [Mismatched]
  {
    TwoTurns(false);
    CompleteLast(Turn(7, false) + Turn(8, true), 0);
  }

  lemma CompleteLast(actions: seq<Action>, i: nat)
    requires Runs(OnePad(), actions) && Shaped(After(OnePad(), actions))
    requires Enabled(After(OnePad(), actions), Complete(i, false))
    ensures Runs(OnePad(), actions + [Complete(i, false)])
    ensures After(OnePad(), actions + [Complete(i, false)]) == AfterComplete(After(OnePad(), actions), i, false)
  {
    RunsSnoc(OnePad(), actions, Complete(i, false), AfterComplete(After(OnePad(), actions), i, false));
  }

  /** Both requests are accepted, and complete in the other order. */
  lemma OutOfOrderMismatches()
    ensures
      var actions := Turn(7, true) + Turn(8, true) + [Complete(1, false)];
      && Runs(OnePad(), actions)
      && After(OnePad(), actions).finished == [Request(1, 8)] && After(OnePad(), actions).outcomes == [Mismatched]
  {
    TwoTurns(true);
    CompleteLast(Turn(7, true) + Turn(8, true), 1);
  }

  /** After the refusal and the mismatch, the second request is deleted and a third one is at its address. When it
    * completes, it is taken for the second one, whose buffer is delivered although the third was filled. */
  lemma AddressUsedAgain()
    ensures
      var first := Turn(7, false) + Turn(8, true) + [Complete(0, false)] + [Drop, Drop, Delete];
      var actions := first + Turn(8, true) + [Complete(0, false)];
      && Runs(OnePad(), actions)
      && (var after := After(OnePad(), actions);
          && |after.queued| == 3
          && after.finished == [Request(1, 8), Request(2, 8)] && after.outcomes == [Mismatched, Delivered]
          && after.callback == Delivering(Wrap(Request(1, 8), [2]), 0)
          && after.queued[2] == Wrap(Request(2, 8), [3]))
  {
    hide Next, Enabled, Runs, After, Turn;
    MismatchedAndDropped();
    var wraps := [Wrap(Request(0, 7), [1]), Wrap(Request(1, 8), [2])];
    var first := Turn(7, false) + Turn(8, true) + [Complete(0, false)] + [Drop, Drop, Delete];
    var s := After(OnePad(), first);
    TurnRuns(s, 8, true);
    RunsConcat(OnePad(), first, Turn(8, true));
    var at := After(OnePad(), first + Turn(8, true));
    assert s.pools[0][1..] == [1];
    assert at.camera == [Request(2, 8)] && at.requests == [wraps[1], Wrap(Request(2, 8), [3])];
    assert Enabled(at, Complete(0, false)) by { IsEnabled(at); }
    CompleteLast(first + Turn(8, true), 0);
  }

  lemma IsEnabled(s: State)
    requires Shaped(s) && s.camera != [] && s.callback.NoCallback?
    ensures Enabled(s, Complete(0, false))
  {
  }

  lemma MismatchedAndDropped()
    ensures
      var wraps := [Wrap(Request(0, 7), [1]), Wrap(Request(1, 8), [2])];
      var actions := Turn(7, false) + Turn(8, true) + [Complete(0, false)] + [Drop, Drop, Delete];
      && Runs(OnePad(), actions)
      && After(OnePad(), actions)
         == OnePad().(address := 8, live := {7}, pools := [[3, 1]], accepted := [1], requests := wraps[1..],
                     queued := wraps, finished := [Request(1, 8)], outcomes := [Mismatched])
  {
    TwoTurns(false);
    hide Next, Enabled, Runs, After, Turn;
    var turns := Turn(7, false) + Turn(8, true);
    var wraps := [Wrap(Request(0, 7), [1]), Wrap(Request(1, 8), [2])];
    var s := After(OnePad(), turns);
    assert Enabled(s, Complete(0, false)) by { IsEnabled(s); }
    CompleteLast(turns, 0);
    var dropping := AfterComplete(s, 0, false);
    assert dropping == s.(camera := [], requests := wraps[1..], finished := [Request(1, 8)], outcomes := [Mismatched],
                          callback := Dropping([1], 8));
    DropRuns(dropping);
    assert [3] + [1] == [3, 1] && {7, 8} - {8} == {7};
    RunsConcat(OnePad(), turns + [Complete(0, false)], [Drop, Drop, Delete]);
  }

  lemma DropRuns(s: State)
    requires Shaped(s) && s.callback.Dropping? && |s.callback.left| == 1 == |s.pools|
    ensures Runs(s, [Drop, Drop, Delete])
    ensures
      After(s, [Drop, Drop, Delete])
      == s.(callback := NoCallback, live := s.live - {s.callback.address}, pools := [s.pools[0] + s.callback.left])
  {
    var left := s.callback.left;
    var s1 := AfterDrop(s);
    assert [left[0]] == left && left[..0] == [];
    assert s.pools[0 := s.pools[0] + left] == [s.pools[0] + left];
    assert s1 == s.(callback := Dropping([], s.callback.address), pools := [s.pools[0] + left]);
    var s2 := s1.(callback := Deleting(s.callback.address));
    RunsCons(s2, Delete, []);
    RunsCons(s1, Drop, [Delete] + []);
    RunsCons(s, Drop, [Drop] + ([Delete] + []));
    assert [Drop] + ([Drop] + ([Delete] + [])) == [Drop, Drop, Delete];
  }

  /** The task pushes the only pending buffer, finds nothing to push, and pauses. */
  lemma LastPushRuns(s: State)
    requires Shaped(s) && s.position == Pushing(0, []) && |s.pools| == 1 && |s.pending[0]| == 1 && Unlocked(s) && s.task.Started?
    ensures Runs(s, [Push(true), Decide, ReleaseHeld])
    ensures
      After(s, [Push(true), Decide, ReleaseHeld])
      == s.(position := Resting, flowOk := true, task := Paused, pending := [[]],
            pushed := [s.pushed[0] + s.pending[0]], downstream := [s.downstream[0] + s.pending[0]])
  {
    var b := s.pending[0][0];
    assert s.pending[0] == [b] && s.pending[0][1..] == [];
    var s1 := AfterPush(s, true);
    assert s.pending[0 := []] == [[]] && s.pushed[0 := s.pushed[0] + [b]] == [s.pushed[0] + [b]];
    assert s.downstream[0 := s.downstream[0] + [b]] == [s.downstream[0] + [b]];
    assert s1 == s.(position := Deciding([]), flowOk := true, pending := [[]],
                    pushed := [s.pushed[0] + [b]], downstream := [s.downstream[0] + [b]]);
    var s2 := s1.(position := Releasing([]), task := Paused);
    assert Next(s1, Decide) == s2;
    RunsCons(s2, ReleaseHeld, []);
    RunsCons(s1, Decide, [ReleaseHeld] + []);
    RunsCons(s, Push(true), [Decide] + ([ReleaseHeld] + []));
    assert [Push(true)] + ([Decide] + ([ReleaseHeld] + [])) == [Push(true), Decide, ReleaseHeld];
  }

  lemma FirstQueueRuns()
    ensures
      var actions, wrap := [Begin(7), Acquire(true), Queue(true)], Wrap(Request(0, 7), [1]);
      && Runs(OnePad(), actions)
      && After(OnePad(), actions)
         == OnePad().(position := Pushing(0, []), address := 7, live := {7}, pools := [[2, 3]], camera := [wrap.request],
                     accepted := [0], requests := [wrap], queued := [wrap])
  {
    var wrap := Wrap(Request(0, 7), [1]);
    var s1 := OnePad().(position := Acquiring([]), address := 7, live := {7});
    assert Next(OnePad(), Begin(7)) == s1;
    AcquireOne(s1);
    assert s1.pools[0][1..] == [2, 3];
    var s2 := s1.(position := Queueing([1]), pools := [[2, 3]]);
    var s3 := s2.(position := Pushing(0, []), requests := [wrap], queued := [wrap], camera := [wrap.request], accepted := [0]);
    assert Next(s2, Queue(true)) == s3;
    RunsCons(s2, Queue(true), []);
    RunsCons(s1, Acquire(true), [Queue(true)] + []);
    RunsCons(OnePad(), Begin(7), [Acquire(true)] + ([Queue(true)] + []));
    assert [Begin(7)] + ([Acquire(true)] + ([Queue(true)] + [])) == [Begin(7), Acquire(true), Queue(true)];
  }

  /** The only request completes before the task decides whether to pause: the task has pushed its buffer and finds
    * nothing to push. It pauses with two buffers in the pool and no request in flight. */
  lemma PausedTooLate()
    ensures
      var actions := [Begin(7), Acquire(true), Queue(true)] + [Complete(0, false), Deliver, EndDelivery]
                     + [Push(true), Decide, ReleaseHeld];
      && Runs(OnePad(), actions)
      && Stalled(After(OnePad(), actions)) && After(OnePad(), actions).task.Paused?
      && After(OnePad(), actions).pools == [[2, 3]] && After(OnePad(), actions).outcomes == [Delivered]
  {
    hide Next, Enabled, Runs, After, Completion, Completed, Delivers;
    FirstQueueRuns();
    var first, callback := [Begin(7), Acquire(true), Queue(true)], [Complete(0, false), Deliver, EndDelivery];
    var s := After(OnePad(), first);
    FirstCompletion(s);
    CompletionRuns(s, 0, false);
    RunsConcat(OnePad(), first, callback);
    LastPushRuns(Completed(s, 0, false));
    RunsConcat(OnePad(), first + callback, [Push(true), Decide, ReleaseHeld]);
  }

  lemma FirstCompletion(s: State)
    requires Shaped(s) && |s.pools| == 1 && |s.camera| == 1 && |s.requests| == 1 && s.callback.NoCallback?
    requires s.requests[0].request == s.camera[0] && s.pending == [[]] && s.task.Started?
    ensures Enabled(s, Complete(0, false)) && Completion(s, 0, false) == [Complete(0, false), Deliver, EndDelivery]
    ensures
      var r := s.camera[0];
      Completed(s, 0, false)
      == s.(camera := [], requests := [], finished := s.finished + [r], outcomes := s.outcomes + [Delivered],
            callback := Deleting(r.address), pending := [s.requests[0].buffers])
  {
    assert Delivers(0) == [EndDelivery] && Delivers(1) == [Deliver] + Delivers(0);
    var buffers := s.requests[0].buffers;
    assert |buffers| == 1 && buffers == [buffers[0]] && [] + [buffers[0]] == [buffers[0]];
    assert Joined(s.pending, s.requests[0].buffers, 0) == [s.requests[0].buffers];
  }
}