/** start() by the application and disconnect() by the camera manager, each access to the state of the camera
  * on its own, in every order. */
module StartRace {
  import opened Bytes
  import opened CameraStates

  /** Where start() is: before its check of the flag, before its check of the state, importing for the streams
    * that are left, before the pipeline is asked, before the state is stored, or back at the caller. */
  datatype Stage = Calling | FlagRead | Importing(left: seq<Stream>) | Asking | Storing | Returned(ret: int)

  /** Where disconnect() is: not called, after its test whether the camera runs, after storing the state, or over. */
  datatype Removal = Attached | Tested(running: bool) | Stored | Gone

  datatype Access =
    | ReadsFlag | LoadsState | Imports | Asks | StoresRunning  // start()
    | TestsState | StoresConfigured | SetsFlag                 // disconnect()

  datatype Race = Race(c: Camera, stage: Stage, removal: Removal, log: seq<Access>)

  datatype Thread = Application | Manager

  /** The next access of start(), for a pipeline that answers p. order is the order in which the loop meets the
    * streams that the allocator does not serve. */
  function StartStep(m: Race, p: int, order: seq<Stream>): Race {
    match m.stage
    case Calling =>
      m.(stage := if m.c.disconnected then Returned(-ENODEV) else FlagRead, log := m.log + [ReadsFlag])
    case FlagRead =>
      m.(stage := if m.c.state == Configured then Importing(order) else Returned(-EACCES), log := m.log + [LoadsState])
    case Importing(left) =>
      if left == [] then m.(stage := Asking)
      else m.(c := Hold(m.c, {left[0]}, Imported), stage := Importing(left[1..]), log := m.log + [Imports])
    case Asking => m.(stage := if p != 0 then Returned(p) else Storing, log := m.log + [Asks])
    case Storing => m.(c := m.c.(state := Running), stage := Returned(0), log := m.log + [StoresRunning])
    case Returned(_) => m
  }

  /** The next access of disconnect(). */
  function RemovalStep(m: Race): Race {
    match m.removal
    case Attached => m.(removal := Tested(m.c.state == Running), log := m.log + [TestsState])
    case Tested(true) => m.(c := m.c.(state := Configured), removal := Stored, log := m.log + [StoresConfigured])
    case Gone => m
    case _ => m.(c := m.c.(disconnected := true), removal := Gone, log := m.log + [SetsFlag])
  }

  function Step(m: Race, p: int, order: seq<Stream>, t: Thread): Race {
    if t == Application then StartStep(m, p, order) else RemovalStep(m)
  }

  function Steps(m: Race, p: int, order: seq<Stream>, threads: seq<Thread>): Race
    decreases |threads|
  {
    if threads == [] then m else Steps(Step(m, p, order, threads[0]), p, order, threads[1..])
  }

  /** start() has returned, and disconnect() is over if it was called. */
  predicate Settled(m: Race) {
    m.stage.Returned? && (m.removal.Attached? || m.removal.Gone?)
  }

  predicate Precedes(log: seq<Access>, a: Access, b: Access)
    decreases |log|
  {
    log != [] && (var n := |log| - 1; Precedes(log[..n], a, b) || (log[n] == b && a in log[..n]))
  }

  /** Somewhere in the log a comes before b. */
  lemma {:induction false} PrecedesMeans(log: seq<Access>, a: Access, b: Access)
    ensures Precedes(log, a, b) <==> exists j | 0 <= j < |log| :: ComesAt(log, a, b, j)
    ensures Precedes(log, a, b) ==> a in log && b in log
    decreases |log|
  {
    if log != [] {
      var n := |log| - 1;
      PrecedesMeans(log[..n], a, b);
      forall j | 0 <= j < n
        ensures ComesAt(log[..n], a, b, j) <==> ComesAt(log, a, b, j)
      {
        assert log[..n][..j] == log[..j];
      }
      assert Precedes(log, a, b) <==> Precedes(log[..n], a, b) || ComesAt(log, a, b, n);
      hide Precedes;
    }
  }

  /** b is at position j, and a somewhere before it. */
  predicate ComesAt(log: seq<Access>, a: Access, b: Access, j: nat)
    requires j < |log|
  {
    log[j] == b && a in log[..j]
  }

  lemma PrecedesSnoc(log: seq<Access>, x: Access, a: Access, b: Access)
    ensures Precedes(log + [x], a, b) <==> Precedes(log, a, b) || (x == b && a in log)
  {
    assert (log + [x])[..|log|] == log;
  }

  // --- When the two leave the camera disconnected and running.

  predicate Passed(m: Race) {
    m.stage.Importing? || m.stage.Asking? || m.stage.Storing?
  }

  /** What the log says about the two calls. gone says whether the camera had been disconnected before. */
  predicate LogOk(m: Race, gone: bool) {
    && (m.c.disconnected <==> gone || m.removal.Gone?)
    && (TestsState in m.log <==> !m.removal.Attached?)
    && (SetsFlag in m.log <==> m.removal.Gone?)
    && (ReadsFlag in m.log <==> !m.stage.Calling?)
    && (StoresRunning in m.log <==> m.stage == Returned(0))
    && (m.stage.FlagRead? || Passed(m) || m.stage == Returned(0) ==>
          !gone && (m.removal.Gone? ==> Precedes(m.log, ReadsFlag, SetsFlag)))
  }

  /** What it says about the state of the camera. */
  predicate StateOk(m: Race) {
    && (Passed(m) ==> m.c.state == Configured)
    && (m.removal == Tested(true) ==> m.c.state == Running)
    && (m.stage == Returned(0) ==>
          if Precedes(m.log, TestsState, StoresRunning) then m.c.state == Running && m.removal != Tested(true)
          else if m.removal.Attached? then m.c.state == Running
          else m.removal == Tested(true) || (m.c.state == Configured && !m.removal.Tested?))
    && (m.stage != Returned(0) && (m.removal == Tested(false) || m.removal.Stored? || m.removal.Gone? || m.c.disconnected) ==>
          m.c.state != Running)
  }

  predicate Kept(m: Race) {
    forall s | m.c.allocator.Some? && s in m.c.allocator.value ::
      m.c.Backed(s) ==> s in m.c.active && Rank(m.c.state) >= 2
  }

  /** Only x is new in the log, and only b can be preceded by more than before. */
  lemma LogGrows(m: Race, next: Race)
    requires next.log == m.log || (|next.log| == |m.log| + 1 && next.log == m.log + [next.log[|m.log|]])
    ensures
      if next.log == m.log then true
      else
        var x := next.log[|m.log|];
        && (forall a :: a in next.log <==> a in m.log || a == x)
        && (Precedes(next.log, TestsState, StoresRunning) <==>
              Precedes(m.log, TestsState, StoresRunning) || (x == StoresRunning && TestsState in m.log))
        && (Precedes(next.log, ReadsFlag, SetsFlag) <==>
              Precedes(m.log, ReadsFlag, SetsFlag) || (x == SetsFlag && ReadsFlag in m.log))
  {
    hide Precedes;
    if next.log != m.log {
      var x := next.log[|m.log|];
      PrecedesSnoc(m.log, x, TestsState, StoresRunning);
      PrecedesSnoc(m.log, x, ReadsFlag, SetsFlag);
    }
  }

  lemma StartStepOk(m: Race, p: int, order: seq<Stream>, gone: bool)
    requires LogOk(m, gone) && StateOk(m)
    ensures LogOk(StartStep(m, p, order), gone) && StateOk(StartStep(m, p, order))
  {
    hide Precedes;
    var next := StartStep(m, p, order);
    assert next.log != m.log ==> next.log[|m.log|] == next.log[|next.log| - 1];
    LogGrows(m, next);
    PrecedesMeans(m.log, TestsState, StoresRunning);
  }

  lemma RemovalStepOk(m: Race, gone: bool)
    requires LogOk(m, gone) && StateOk(m)
    ensures LogOk(RemovalStep(m), gone) && StateOk(RemovalStep(m))
  {
    hide Precedes;
    var next := RemovalStep(m);
    assert next.log != m.log ==> next.log[|m.log|] == next.log[|next.log| - 1];
    LogGrows(m, next);
    PrecedesMeans(m.log, TestsState, StoresRunning);
  }

  lemma StepOk(m: Race, p: int, order: seq<Stream>, t: Thread, gone: bool)
    requires LogOk(m, gone) && StateOk(m) && Kept(m)
    ensures LogOk(Step(m, p, order, t), gone) && StateOk(Step(m, p, order, t)) && Kept(Step(m, p, order, t))
  {
    StepKept(m, p, order, t);
    hide LogOk, StateOk, Kept;
    if t == Application {
      StartStepOk(m, p, order, gone);
    } else {
      RemovalStepOk(m, gone);
    }
  }

  lemma StepKept(m: Race, p: int, order: seq<Stream>, t: Thread)
    requires StateOk(m) && Kept(m)
    ensures Kept(Step(m, p, order, t))
  {
    hide Precedes;
    var next := Step(m, p, order, t);
    assert next.c.active == m.c.active && next.c.allocator == m.c.allocator;
    assert Rank(m.c.state) >= 2 ==> Rank(next.c.state) >= 2;
    assert forall s :: next.c.Backed(s) <==> m.c.Backed(s);
  }

  lemma {:induction false} StepsOk(m: Race, p: int, order: seq<Stream>, threads: seq<Thread>, gone: bool)
    requires LogOk(m, gone) && StateOk(m) && Kept(m)
    ensures var end := Steps(m, p, order, threads); LogOk(end, gone) && StateOk(end) && Kept(end)
    decreases |threads|
  {
    if threads != [] {
      StepOk(m, p, order, threads[0], gone);
      hide LogOk, StateOk, Kept, Step;
      StepsOk(Step(m, p, order, threads[0]), p, order, threads[1..], gone);
    }
  }

  /** In every order of the accesses the camera ends safe, unless disconnect() tests the state before start() has
    * stored it and sets the flag after start() has read it: then it ends disconnected and running. */
  lemma StartIsSafeIff(c: Camera, p: int, order: seq<Stream>, threads: seq<Thread>)
    requires Safe(c) && Settled(Steps(Race(c, Calling, Attached, []), p, order, threads))
    ensures
      var end := Steps(Race(c, Calling, Attached, []), p, order, threads);
      && (Safe(end.c) <==> !(Precedes(end.log, TestsState, StoresRunning) && Precedes(end.log, ReadsFlag, SetsFlag)))
      && (!Safe(end.c) ==> end.stage == Returned(0) && end.c.disconnected && end.c.state == Running)
  {
    hide Steps;
    var m := Race(c, Calling, Attached, []);
    StepsOk(m, p, order, threads, c.disconnected);
    var end := Steps(m, p, order, threads);
    PrecedesMeans(end.log, TestsState, StoresRunning);
    PrecedesMeans(end.log, ReadsFlag, SetsFlag);
    hide Precedes;
  }

  lemma {:induction false} StepsAppend(m: Race, p: int, order: seq<Stream>, first: seq<Thread>, rest: seq<Thread>)
    ensures Steps(m, p, order, first + rest) == Steps(Steps(m, p, order, first), p, order, rest)
    decreases |first|
  {
    if first == [] {
      assert first + rest == rest;
    } else {
      assert (first + rest)[1..] == first[1..] + rest;
      StepsAppend(Step(m, p, order, first[0]), p, order, first[1..], rest);
    }
  }

  /** A configured camera without streams. */
  const CONFIGURED := NEW.(state := Configured)

  /** All the steps of start() on it. */
  function Starts(): seq<Thread> {
    [Application, Application, Application, Application, Application]
  }

  lemma StartSteps(removal: Removal, log: seq<Access>)
    ensures
      Steps(Race(CONFIGURED, Calling, removal, log), 0, [], Starts())
      == Race(CONFIGURED.(state := Running), Returned(0), removal, log + [ReadsFlag, LoadsState, Asks, StoresRunning])
  {
    var m1 := Race(CONFIGURED, FlagRead, removal, log + [ReadsFlag]);
    var m2 := Race(CONFIGURED, Importing([]), removal, m1.log + [LoadsState]);
    var m3 := m2.(stage := Asking);
    var m4 := m3.(stage := Storing, log := m3.log + [Asks]);
    var m5 := Step(m4, 0, [], Application);
    var a := Application;
    assert Steps(m4, 0, [], [a]) == Steps(m5, 0, [], []) == m5;
    assert [a, a][1..] == [a] && [a, a, a][1..] == [a, a] && [a, a, a, a][1..] == [a, a, a];
    assert Starts()[1..] == [a, a, a, a];
    assert Steps(m3, 0, [], [a, a]) == m5;
    assert Steps(m2, 0, [], [a, a, a]) == m5;
    assert Steps(m1, 0, [], [a, a, a, a]) == m5;
    assert m5.log == log + [ReadsFlag, LoadsState, Asks, StoresRunning];
  }

  /** disconnect() tests the state, then the whole of start() happens, and then the flag is set. */
  lemma FlagSetTooLate()
    ensures
      var end := Steps(Race(CONFIGURED, Calling, Attached, []), 0, [], [Manager] + Starts() + [Manager]);
      && Settled(end) && end.stage == Returned(0) && end.c.disconnected && end.c.state == Running && !Safe(end.c)
  {
    var m := Race(CONFIGURED, Calling, Attached, []);
    var m1 := Step(m, 0, [], Manager);
    StepsAppend(m, 0, [], [Manager], Starts());
    assert Steps(m, 0, [], [Manager]) == Steps(m1, 0, [], []) == m1;
    StartSteps(Tested(false), m1.log);
    var m2 := Steps(m, 0, [], [Manager] + Starts());
    StepsAppend(m, 0, [], [Manager] + Starts(), [Manager]);
    assert Steps(m2, 0, [], [Manager]) == Steps(Step(m2, 0, [], Manager), 0, [], []) == Step(m2, 0, [], Manager);
  }

  // --- Each call alone.

  function Among(xs: seq<Stream>): set<Stream> { set s <- xs }

  /** By itself disconnect() is what it is in one step. */
  lemma RemovalAlone(c: Camera, stage: Stage, log: seq<Access>)
    ensures
      var end := RemovalStep(RemovalStep(RemovalStep(Race(c, stage, Attached, log))));
      end.removal == Gone && end.c == DoDisconnect(c) && end.stage == stage
  {
  }

  /** start() has returned with this result and this camera, and disconnect() was not called. */
  predicate Ended(m: Race, c: Camera, ret: int) {
    m.c == c && m.stage == Returned(ret) && m.removal == Attached
  }

  /** By itself start() is what it is in one step, whatever the order of the streams. */
  lemma StartAlone(c: Camera, p: int, order: seq<Stream>, log: seq<Access>)
    requires forall s :: s in order <==> s in Unbacked(c)
    requires forall i, j | 0 <= i < j < |order| :: order[i] != order[j]
    ensures
      var end := Steps(Race(c, Calling, Attached, log), p, order, seq(|order| + 5, _ => Application));
      Ended(end, DoStart(c, p).0, DoStart(c, p).1)
  {
    var m := Race(c, Calling, Attached, log);
    var m1 := StartStep(m, p, order);
    var m2 := StartStep(m1, p, order);
    RepeatIsSteps(m, p, order, |order| + 5);
    assert Repeat(m, p, order, |order| + 5) == Repeat(m1, p, order, |order| + 4) == Repeat(m2, p, order, |order| + 3);
    ChecksAre(c, p, order, log);
    hide StartStep, Repeat, Hold, Unbacked, Among;
    if m2.stage.Returned? {
      RepeatReturned(m2, p, order, |order| + 3);
    } else {
      ImportsUnbacked(c, p, order, m2.log);
    }
  }

  lemma HoldNothing(c: Camera)
    ensures Hold(c, {}, Imported) == c
  {
    HoldOneMore(c, {}, 0, Imported);
  }

  lemma ImportsUnbacked(c: Camera, p: int, order: seq<Stream>, log: seq<Access>)
    requires forall s :: s in order <==> s in Unbacked(c)
    requires forall i, j | 0 <= i < j < |order| :: order[i] != order[j]
    ensures
      var held := Hold(c, Unbacked(c), Imported);
      Ended(Repeat(Race(c, Importing(order), Attached, log), p, order, |order| + 3),
            if p != 0 then held else held.(state := Running), p)
  {
    hide Repeat, Hold;
    assert Among(order) == Unbacked(c);
    hide Unbacked;
    HoldNothing(c);
    assert order[0..] == order && Among(order[..0]) == {};
    ImportsAll(c, p, order, 0, log);
    assert order[..|order|] == order;
  }

  /** The two checks are that of isAccessAllowed(). */
  lemma ChecksAre(c: Camera, p: int, order: seq<Stream>, log: seq<Access>)
    ensures
      var m2 := StartStep(StartStep(Race(c, Calling, Attached, log), p, order), p, order);
      var access := CameraStates.Access(c, Configured, Configured, false);
      && m2.c == c && m2.removal.Attached?
      && m2.stage == (if access < 0 then Returned(access) else Importing(order))
  {
  }

  function Repeat(m: Race, p: int, order: seq<Stream>, n: nat): Race
    decreases n
  {
    if n == 0 then m else Repeat(StartStep(m, p, order), p, order, n - 1)
  }

  lemma {:induction false} RepeatIsSteps(m: Race, p: int, order: seq<Stream>, n: nat)
    ensures Steps(m, p, order, seq(n, _ => Application)) == Repeat(m, p, order, n)
    decreases n
  {
    if n > 0 {
      var threads := seq(n, _ => Application);
      assert threads[1..] == seq(n - 1, _ => Application);
      RepeatIsSteps(StartStep(m, p, order), p, order, n - 1);
    }
  }

  lemma {:induction false} RepeatReturned(m: Race, p: int, order: seq<Stream>, n: nat)
    requires m.stage.Returned?
    ensures Repeat(m, p, order, n) == m
    decreases n
  {
    if n > 0 {
      RepeatReturned(m, p, order, n - 1);
    }
  }

  lemma {:induction false} ImportsAll(c: Camera, p: int, order: seq<Stream>, k: nat, log: seq<Access>)
    requires k <= |order| && forall i, j | 0 <= i < j < |order| :: order[i] != order[j]
    ensures
      var m := Race(Hold(c, Among(order[..k]), Imported), Importing(order[k..]), Attached, log);
      var held := Hold(c, Among(order[..|order|]), Imported);
      Ended(Repeat(m, p, order, |order| - k + 3), if p != 0 then held else held.(state := Running), p)
    decreases |order| - k
  {
    if k < |order| {
      NextImport(c, p, order, k, log);
      hide Hold, StartStep, Among;
      ImportsAll(c, p, order, k + 1, log + [Imports]);
    } else {
      assert order[..k] == order[..|order|];
      hide Hold, Among;
      AfterImports(Hold(c, Among(order[..k]), Imported), p, order, log);
    }
  }

  lemma NextImport(c: Camera, p: int, order: seq<Stream>, k: nat, log: seq<Access>)
    requires k < |order| && forall i, j | 0 <= i < j < |order| :: order[i] != order[j]
    ensures
      StartStep(Race(Hold(c, Among(order[..k]), Imported), Importing(order[k..]), Attached, log), p, order)
      == Race(Hold(c, Among(order[..k + 1]), Imported), Importing(order[k + 1..]), Attached, log + [Imports])
  {
    var done, s := Among(order[..k]), order[k];
    assert order[..k + 1] == order[..k] + [s] && Among(order[..k + 1]) == done + {s};
    HoldOneMore(c, done, s, Imported);
    HoldSingle(Hold(c, done, Imported), s, Imported);
    assert order[k..][1..] == order[k + 1..] && order[k..][0] == s;
    hide Hold, Among;
  }

  lemma AfterImports(c: Camera, p: int, order: seq<Stream>, log: seq<Access>)
    ensures
      Ended(Repeat(Race(c, Importing([]), Attached, log), p, order, 3), if p != 0 then c else c.(state := Running), p)
  {
    var m := Race(c, Importing([]), Attached, log);
    var m1 := StartStep(m, p, order);
    var m2 := StartStep(m1, p, order);
    var m3 := StartStep(m2, p, order);
    assert Repeat(m, p, order, 3) == Repeat(m1, p, order, 2) == Repeat(m2, p, order, 1) == Repeat(m3, p, order, 0);
  }
}
