/** Requests in a pipeline handler: it may complete them in any order, and hands them back in the order in
  * which they were queued. */
module PipelineHandler {
  import SL = StreamingLoop
  import SR = StreamingRequests

  type Request = nat

  datatype Status = Pending | Complete | Cancelled

  /** How many requests at the front of a queue are not pending. */
  function Front(queue: seq<Request>, status: map<Request, Status>): (n: nat)
    ensures n <= |queue|
  {
    if queue == [] || IsPending(status, queue[0]) then 0 else 1 + Front(queue[1..], status)
  }

  lemma {:induction false} FrontIsFinished(queue: seq<Request>, status: map<Request, Status>)
    ensures forall i | 0 <= i < Front(queue, status) :: !IsPending(status, queue[i])
    ensures Front(queue, status) < |queue| ==> IsPending(status, queue[Front(queue, status)])
    decreases |queue|
  {
    if queue != [] && !IsPending(status, queue[0]) {
      FrontIsFinished(queue[1..], status);
    }
  }

  predicate IsPending(status: map<Request, Status>, r: Request) {
    r !in status || status[r].Pending?
  }

  function Without(queue: seq<Request>, r: Request): seq<Request> {
    if queue == [] then []
    else (if queue[0] == r then [] else [queue[0]]) + Without(queue[1..], r)
  }

  lemma {:induction false} WithoutLast(queue: seq<Request>, r: Request)
    requires r !in queue
    ensures Without(queue + [r], r) == queue
    decreases |queue|
  {
    if queue != [] {
      assert (queue + [r])[1..] == queue[1..] + [r];
      WithoutLast(queue[1..], r);
    }
  }

  // --- Whole sessions.

  /** submitted has the accepted requests in order, handed those that were handed back. */
  datatype State = State(
    queue: seq<Request>, status: map<Request, Status>, submitted: seq<Request>, handed: seq<Request>)

  datatype Action = Queue(request: Request, device: int) | Finish(request: Request, cancelled: bool)

  const NEW := State([], map[], [], [])

  /** Requests are queued once, and the device finishes what it has accepted. */
  predicate Enabled(s: State, a: Action) {
    match a
    case Queue(r, _) => r !in s.submitted && r !in s.status
    case Finish(r, _) => r in s.queue
  }

  function Next(s: State, a: Action): State {
    match a
    case Queue(r, device) =>
      if device != 0 then s else s.(queue := s.queue + [r], submitted := s.submitted + [r])
    case Finish(r, cancelled) =>
      var status := s.status[r := if cancelled then Cancelled else Complete];
      var n := Front(s.queue, status);
      s.(queue := s.queue[n..], status := status, handed := s.handed + s.queue[..n])
  }

  lemma PopFront(all: seq<Request>, k: nat)
    requires k < |all|
    ensures all[k..][0] == all[k] && all[k..][1..] == all[k + 1..] && all[..k] + [all[k]] == all[..k + 1]
  {
  }

  class Handler {
    var queuedRequests: seq<Request>     // a std::list
    var status: map<Request, Status>
    ghost var submitted: seq<Request>
    ghost var handedBack: seq<Request>

    ghost function Contents(): State
      reads this
    {
      State(queuedRequests, status, submitted, handedBack)
    }

    constructor ()
      ensures Contents() == NEW
    {
      queuedRequests, status, submitted, handedBack := [], map[], [], [];
    }

    /** queueRequest(), for a device that answers device. */
    method QueueRequest(request: Request, device: int) returns (ret: int)
      requires request !in queuedRequests
      modifies this
      ensures ret == device && Contents() == Next(old(Contents()), Queue(request, device))
    {
      queuedRequests := queuedRequests + [request];
      ret := device;
      if ret != 0 {
        WithoutLast(old(queuedRequests), request);
        queuedRequests := Without(queuedRequests, request);
      } else {
        submitted := submitted + [request];
      }
    }

    /** completeRequest(): the request is over, and every request at the front that is over is handed back. */
    method CompleteRequest(request: Request, cancelled: bool) returns (handed: seq<Request>)
      modifies this
      ensures Contents() == Next(old(Contents()), Finish(request, cancelled))
      ensures handedBack == old(handedBack) + handed
    {
      status := status[request := if cancelled then Cancelled else Complete];
      handed := [];
      ghost var all, now := queuedRequests, status;
      assert all[0..] == all;
      while queuedRequests != []
        invariant |handed| <= |all| && handed == all[..|handed|] && queuedRequests == all[|handed|..] && status == now
        invariant submitted == old(submitted) && handedBack == old(handedBack)
        invariant Front(all, now) == |handed| + Front(queuedRequests, now)
        decreases |queuedRequests|
      {
        var req := queuedRequests[0];
        if IsPending(status, req) {
          break;
        }
        PopFront(all, |handed|);
        queuedRequests := queuedRequests[1..];
        handed := handed + [req];
      }
      handedBack := handedBack + handed;
    }
  }

  predicate Runs(s: State, actions: seq<Action>)
    decreases |actions|
  {
    actions != [] ==> Enabled(s, actions[0]) && Runs(Next(s, actions[0]), actions[1..])
  }

  function After(s: State, actions: seq<Action>): State
    decreases |actions|
  {
    if actions == [] then s else After(Next(s, actions[0]), actions[1..])
  }

  predicate Inv(s: State) {
    && s.submitted == s.handed + s.queue
    && (forall r <- s.status :: r in s.submitted && !s.status[r].Pending?)
    && (forall r <- s.handed :: r in s.status)
    && (s.queue != [] ==> s.queue[0] !in s.status)
  }

  lemma FinishKeeps(s: State, r: Request, over: Status, front: seq<Request>, rest: seq<Request>)
    requires Inv(s) && r in s.queue && !over.Pending? && s.queue == front + rest
    requires forall f <- front :: !IsPending(s.status[r := over], f)
    requires rest != [] ==> IsPending(s.status[r := over], rest[0])
    ensures Inv(s.(queue := rest, status := s.status[r := over], handed := s.handed + front))
  {
    assert s.handed + (front + rest) == (s.handed + front) + rest;
  }

  lemma NextKeeps(s: State, a: Action)
    requires Inv(s) && Enabled(s, a)
    ensures Inv(Next(s, a))
  {
    if a.Finish? {
      var over := if a.cancelled then Cancelled else Complete;
      var n := Front(s.queue, s.status[a.request := over]);
      FrontIsFinished(s.queue, s.status[a.request := over]);
      hide Inv, Front;
      FinishKeeps(s, a.request, over, s.queue[..n], s.queue[n..]);
    }
  }

  lemma {:induction false} RunKeeps(s: State, actions: seq<Action>)
    requires Inv(s) && Runs(s, actions)
    ensures Inv(After(s, actions))
    decreases |actions|
  {
    if actions != [] {
      NextKeeps(s, actions[0]);
      RunKeeps(Next(s, actions[0]), actions[1..]);
    }
  }

  /** Whatever the order in which the device finishes its requests, they are handed back in the order in which
    * they were queued, each as soon as it and all that were queued before it are finished, and not earlier. */
  lemma HandedIff(actions: seq<Action>, i: nat)
    requires Runs(NEW, actions)
    ensures
      var s := After(NEW, actions);
      && s.handed <= s.submitted
      && (i < |s.handed| <==> i < |s.submitted| && forall j | 0 <= j <= i :: s.submitted[j] in s.status)
  {
    RunKeeps(NEW, actions);
    var s := After(NEW, actions);
    if i < |s.handed| {
      assert forall j | 0 <= j <= i :: s.submitted[j] == s.handed[j];
    } else if i < |s.submitted| {
      assert s.submitted[|s.handed|] == s.queue[0];
    }
  }

  // --- What the device accepted and finished.

  /** The requests that the device did not refuse, in order. */
  function Accepted(actions: seq<Action>): seq<Request> {
    if actions == [] then []
    else (if actions[0].Queue? && actions[0].device == 0 then [actions[0].request] else []) + Accepted(actions[1..])
  }

  lemma {:induction false} SubmittedGrows(s: State, actions: seq<Action>)
    ensures After(s, actions).submitted == s.submitted + Accepted(actions)
    decreases |actions|
  {
    if actions != [] {
      SubmittedGrows(Next(s, actions[0]), actions[1..]);
    }
  }

  /** The submitted requests are the accepted ones, and no refused ones. */
  lemma SubmittedAreAccepted(actions: seq<Action>)
    ensures After(NEW, actions).submitted == Accepted(actions)
  {
    SubmittedGrows(NEW, actions);
  }

  /** A request has the status it had, unless it was finished since: then it is as it was finished last. */
  lemma {:induction false} StatusIsLast(s: State, actions: seq<Action>, r: Request)
    ensures
      (forall a <- actions :: a.Finish? ==> a.request != r) ==>
        (r in After(s, actions).status <==> r in s.status)
        && (r in s.status ==> After(s, actions).status[r] == s.status[r])
    ensures
      forall i | 0 <= i < |actions| && FinishesLast(actions, i, r) ::
        r in After(s, actions).status
        && After(s, actions).status[r] == if actions[i].cancelled then Cancelled else Complete
    decreases |actions|
  {
    if actions != [] {
      var next := Next(s, actions[0]);
      StatusIsLast(next, actions[1..], r);
      assert forall a <- actions[1..] :: a in actions;
      forall i | 0 <= i < |actions| && FinishesLast(actions, i, r)
        ensures r in After(s, actions).status
        ensures After(s, actions).status[r] == if actions[i].cancelled then Cancelled else Complete
      {
        if i > 0 {
          assert actions[1..][i - 1] == actions[i] && FinishesLast(actions[1..], i - 1, r);
        } else {
          assert forall a <- actions[1..] :: a.Finish? ==> a.request != r;
        }
      }
    }
  }

  /** The i-th action is the last that finishes r. */
  predicate FinishesLast(actions: seq<Action>, i: nat, r: Request)
    requires i < |actions|
  {
    && actions[i].Finish? && actions[i].request == r
    && forall j | i < j < |actions| :: actions[j].Finish? ==> actions[j].request != r
  }

  // --- What the application sees.

  /** The completions of requests that are handed back together: each with its whole callback, after which the camera
    * deletes it. The flags say which of them were cancelled. */
  function HandBack(s: SL.State, cancelled: seq<bool>): seq<SL.Action>
    requires SL.Shaped(s) && |cancelled| <= |s.camera| <= |s.requests| && s.callback.NoCallback?
    decreases |cancelled|
  {
    if cancelled == [] then []
    else
      CompletedOne(s, cancelled[0]);
      (SL.Completion(s, 0, cancelled[0]) + [SL.Delete]) + HandBack(AfterOne(s, cancelled[0]), cancelled[1..])
  }

  function AfterOne(s: SL.State, cancelled: bool): SL.State
    requires SL.Shaped(s) && s.camera != [] && s.requests != []
  {
    SL.Completed(s, 0, cancelled).(callback := SL.NoCallback, live := s.live - {s.camera[0].address})
  }

  lemma CompletedOne(s: SL.State, cancelled: bool)
    requires SL.Shaped(s) && s.camera != [] && s.requests != [] && s.callback.NoCallback?
    ensures SL.Enabled(s, SL.Complete(0, cancelled))
    ensures
      var done, next := SL.Completed(s, 0, cancelled), AfterOne(s, cancelled);
      && SL.Shaped(done) && SL.Enabled(done, SL.Delete) && SL.Next(done, SL.Delete) == next
      && SL.Shaped(next) && next.camera == s.camera[1..] && next.requests == s.requests[1..]
      && next.finished == s.finished + [s.camera[0]]
  {
    SL.CompletedShaped(s, 0, cancelled);
  }

  lemma CompletionInOrder(s: SL.State, cancelled: bool)
    requires SL.Shaped(s) && s.camera != []
    ensures SR.CompletesInOrder(SL.Completion(s, 0, cancelled))
  {
    DeliversInOrder(|s.pools|);
    var callback := SL.AfterComplete(s, 0, cancelled).callback;
    if callback.Dropping? {
      DropsInOrder(|callback.left|);
    }
  }

  lemma {:induction false} DeliversInOrder(n: nat)
    ensures SR.CompletesInOrder(SL.Delivers(n))
  {
    if n > 0 {
      DeliversInOrder(n - 1);
    }
  }

  lemma {:induction false} DropsInOrder(n: nat)
    ensures SR.CompletesInOrder(SL.Drops(n))
  {
    if n > 0 {
      DropsInOrder(n - 1);
    }
  }

  lemma OneLess(s: SL.State, cancelled: bool)
    requires SL.Shaped(s) && s.camera != [] && s.requests != [] && s.callback.NoCallback?
    ensures
      var next := AfterOne(s, cancelled);
      && SL.Shaped(next) && next.callback.NoCallback? && next.camera == s.camera[1..] && next.requests == s.requests[1..]
      && next.finished == s.finished + [s.camera[0]]
  {
    hide SL.Shaped, SL.Enabled, SL.Next, SL.Completed;
    CompletedOne(s, cancelled);
  }

  lemma OneRuns(s: SL.State, cancelled: bool)
    requires SL.Shaped(s) && s.camera != [] && s.requests != [] && s.callback.NoCallback?
    ensures
      var steps := SL.Completion(s, 0, cancelled) + [SL.Delete];
      SL.Runs(s, steps) && SL.After(s, steps) == AfterOne(s, cancelled) && SR.CompletesInOrder(steps)
  {
    CompletedOne(s, cancelled);
    SL.CompletionRuns(s, 0, cancelled);
    CompletionInOrder(s, cancelled);
    hide SL.Completion, SL.Completed, SL.Next, SL.Enabled, SL.Shaped, AfterOne;
    SR.RunsSnoc(s, SL.Completion(s, 0, cancelled), SL.Delete, AfterOne(s, cancelled));
  }

  /** A streaming loop whose requests in flight are the queue of the handler completes its first ones when the
    * handler hands back the front of the queue, and has the rest of the queue left. */
  lemma {:induction false} HandBackRuns(s: SL.State, cancelled: seq<bool>)
    requires SL.Shaped(s) && |cancelled| <= |s.camera| <= |s.requests| && s.callback.NoCallback?
    ensures SL.Runs(s, HandBack(s, cancelled)) && SR.CompletesInOrder(HandBack(s, cancelled))
    ensures SL.After(s, HandBack(s, cancelled)).camera == s.camera[|cancelled|..]
    ensures
      SL.After(s, HandBack(s, cancelled)).finished == s.finished + s.camera[..|cancelled|]
    decreases |cancelled|
  {
    if cancelled != [] {
      hide SL.Completion, SL.Completed, SL.Next, SL.Enabled, SL.Shaped, SL.Runs, SL.After, SR.CompletesInOrder, AfterOne,
           HandBack;
      OneLess(s, cancelled[0]);
      HandBackRuns(AfterOne(s, cancelled[0]), cancelled[1..]);
      HandBackJoins(s, cancelled);
      CutCamera(s.finished, s.camera, |cancelled|);
    }
  }

  lemma HandBackJoins(s: SL.State, cancelled: seq<bool>)
    requires SL.Shaped(s) && 0 < |cancelled| <= |s.camera| <= |s.requests| && s.callback.NoCallback?
    requires
      var next := AfterOne(s, cancelled[0]);
      && SL.Shaped(next) && next.callback.NoCallback? && |cancelled| - 1 <= |next.camera| <= |next.requests|
      && SL.Runs(next, HandBack(next, cancelled[1..])) && SR.CompletesInOrder(HandBack(next, cancelled[1..]))
    ensures SL.Runs(s, HandBack(s, cancelled)) && SR.CompletesInOrder(HandBack(s, cancelled))
    ensures
      var next := AfterOne(s, cancelled[0]);
      SL.After(s, HandBack(s, cancelled)) == SL.After(next, HandBack(next, cancelled[1..]))
  {
    hide SL.Completion, SL.Completed, SL.Next, SL.Enabled, SL.Shaped, SL.Runs, SL.After, SR.CompletesInOrder, AfterOne;
    var steps, rest := SL.Completion(s, 0, cancelled[0]) + [SL.Delete], HandBack(AfterOne(s, cancelled[0]), cancelled[1..]);
    OneRuns(s, cancelled[0]);
    SL.RunsConcat(s, steps, rest);
    InOrderAppend(steps, rest);
    assert HandBack(s, cancelled) == steps + rest;
  }

  lemma InOrderAppend(first: seq<SL.Action>, rest: seq<SL.Action>)
    requires SR.CompletesInOrder(first) && SR.CompletesInOrder(rest)
    ensures SR.CompletesInOrder(first + rest)
  {
  }

  lemma CutCamera(finished: seq<SL.Request>, camera: seq<SL.Request>, n: nat)
    requires 0 < n <= |camera|
    ensures camera[1..][n - 1..] == camera[n..]
    ensures (finished + [camera[0]]) + camera[1..][..n - 1] == finished + camera[..n]
  {
    assert camera[..n] == [camera[0]] + camera[1..][..n - 1];
  }
}
