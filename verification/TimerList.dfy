/** The dispatcher's timer list, on values. A timer is named by its address;
    its deadline and whether it runs are fields of the timer, kept here in a map and a set. */
module TimerList {
  type Timer = nat

  datatype Timers = Timers(list: seq<Timer>, deadline: map<Timer, int>, running: set<Timer>)
  {
    function Deadline(t: Timer): int {
      if t in deadline then deadline[t] else 0
    }

    /** A timer has a place in the list exactly while it runs, and the list is in deadline order. */
    ghost predicate Ok() {
      Sorted(this, list) && NoDuplicates(list) && forall t :: t in list <==> t in running
    }
  }

  predicate Sorted(s: Timers, list: seq<Timer>) {
    forall i, j | 0 <= i < j < |list| :: s.Deadline(list[i]) <= s.Deadline(list[j])
  }

  predicate NoDuplicates(list: seq<Timer>) {
    forall i, j | 0 <= i < j < |list| :: list[i] != list[j]
  }

  /** registerTimer(): before the first timer with a later deadline. */
  function Insert(s: Timers, list: seq<Timer>, t: Timer): seq<Timer> {
    if list == [] then [t]
    else if s.Deadline(list[0]) > s.Deadline(t) then [t] + list
    else [list[0]] + Insert(s, list[1..], t)
  }

  /** unregisterTimer(): gives up at the first other timer with a later deadline. */
  function RemoveEarly(s: Timers, list: seq<Timer>, t: Timer): seq<Timer> {
    if list == [] then []
    else if list[0] == t then list[1..]
    else if s.Deadline(list[0]) > s.Deadline(t) then list
    else [list[0]] + RemoveEarly(s, list[1..], t)
  }

  /** What it should do: look at the whole list. */
  function Remove(list: seq<Timer>, t: Timer): seq<Timer> {
    if list == [] then []
    else if list[0] == t then list[1..]
    else [list[0]] + Remove(list[1..], t)
  }

  lemma {:induction false} EarlyExitIsFullScan(s: Timers, list: seq<Timer>, t: Timer)
    requires Sorted(s, list)
    ensures RemoveEarly(s, list, t) == Remove(list, t)
  {
    if list == [] || list[0] == t {
    } else if s.Deadline(list[0]) > s.Deadline(t) {
      forall i | 0 <= i < |list|
        ensures list[i] != t
      {
      }
      RemoveAbsent(list, t);
    } else {
      EarlyExitIsFullScan(s, list[1..], t);
    }
  }

  lemma {:induction false} RemoveAbsent(list: seq<Timer>, t: Timer)
    requires t !in list
    ensures Remove(list, t) == list
  {
    if list != [] {
      RemoveAbsent(list[1..], t);
    }
  }

  /** Where Insert puts a timer: behind all that are due no later, so first come first served among equals. */
  lemma {:induction false} InsertSplits(s: Timers, list: seq<Timer>, t: Timer) returns (k: nat)
    requires Sorted(s, list)
    ensures k <= |list| && Insert(s, list, t) == list[..k] + [t] + list[k..]
    ensures forall i | 0 <= i < k :: s.Deadline(list[i]) <= s.Deadline(t)
    ensures forall i | k <= i < |list| :: s.Deadline(list[i]) > s.Deadline(t)
  {
    if list == [] || s.Deadline(list[0]) > s.Deadline(t) {
      k := 0;
    } else {
      var k' := InsertSplits(s, list[1..], t);
      k := k' + 1;
      assert list[..k] == [list[0]] + list[1..][..k'];
    }
  }

  lemma {:induction false} RemoveSplits(list: seq<Timer>, t: Timer) returns (k: nat)
    requires t in list
    ensures k < |list| && list[k] == t && Remove(list, t) == list[..k] + list[k + 1..]
  {
    if list[0] == t {
      k := 0;
    } else {
      var k' := RemoveSplits(list[1..], t);
      k := k' + 1;
      assert list[..k] == [list[0]] + list[1..][..k'];
    }
  }

  // --- Timer::start() and Timer::stop().

  function Stop(s: Timers, t: Timer): Timers {
    if t !in s.running then s
    else s.(running := s.running - {t}, list := RemoveEarly(s, s.list, t))
  }

  /** The new deadline is stored before the old registration is looked up. */
  function Start(s: Timers, t: Timer, d: int): Timers {
    var s1 := s.(deadline := s.deadline[t := d]);
    var s2 := Stop(s1, t);
    s2.(list := Insert(s2, s2.list, t), running := s2.running + {t})
  }

  function Cut(list: seq<Timer>, k: nat): seq<Timer>
    requires k < |list|
  {
    list[..k] + list[k + 1..]
  }

  function Paste(list: seq<Timer>, k: nat, t: Timer): seq<Timer>
    requires k <= |list|
  {
    list[..k] + [t] + list[k..]
  }

  lemma CutMembers(list: seq<Timer>, k: nat, u: Timer)
    requires k < |list| && NoDuplicates(list)
    ensures u in Cut(list, k) <==> u in list && u != list[k]
  {
    if u in list && u != list[k] {
      var i :| 0 <= i < |list| && list[i] == u;
      assert Cut(list, k)[if i < k then i else i - 1] == u;
    }
  }

  lemma PasteMembers(list: seq<Timer>, k: nat, t: Timer, u: Timer)
    requires k <= |list|
    ensures u in Paste(list, k, t) <==> u in list || u == t
  {
    if u in list {
      var i :| 0 <= i < |list| && list[i] == u;
      assert Paste(list, k, t)[if i < k then i else i + 1] == u;
    }
  }

  lemma CutKeepsOk(s: Timers, t: Timer, k: nat)
    requires NoDuplicates(s.list) && k < |s.list| && s.list[k] == t && t in s.running
    requires forall u :: u in s.list <==> u in s.running
    requires Sorted(s, Cut(s.list, k))
    ensures s.(running := s.running - {t}, list := Cut(s.list, k)).Ok()
    ensures t !in Cut(s.list, k)
  {
    assert NoDuplicates(Cut(s.list, k));
    hide Cut, Sorted;
    var s' := s.(running := s.running - {t}, list := Cut(s.list, k));
    forall u
      ensures u in s'.list <==> u in s'.running
    {
      CutMembers(s.list, k, u);
    }
    CutMembers(s.list, k, t);
    assert Sorted(s', s'.list) by { SortedSame(s, s', s'.list); }
  }

  lemma SortedSame(s: Timers, s': Timers, list: seq<Timer>)
    requires s.deadline == s'.deadline && Sorted(s, list)
    ensures Sorted(s', list)
  {
  }

  lemma StopKeepsOk(s: Timers, t: Timer)
    requires s.Ok()
    ensures Stop(s, t).Ok() && t !in Stop(s, t).list
  {
    if t in s.running {
      EarlyExitIsFullScan(s, s.list, t);
      var k := RemoveSplits(s.list, t);
      assert Sorted(s, Cut(s.list, k));
      hide Sorted, NoDuplicates;
      CutKeepsOk(s, t, k);
    }
  }

  lemma InsertKeepsOk(s: Timers, t: Timer)
    requires s.Ok() && t !in s.list
    ensures s.(list := Insert(s, s.list, t), running := s.running + {t}).Ok()
  {
    var k := InsertSplits(s, s.list, t);
    var s' := s.(list := Paste(s.list, k, t), running := s.running + {t});
    PasteSorted(s, t, k);
    assert NoDuplicates(s'.list);
    hide Sorted, Paste, NoDuplicates;
    forall u
      ensures u in s'.list <==> u in s'.running
    {
      PasteMembers(s.list, k, t, u);
    }
    assert Sorted(s', s'.list) by { SortedSame(s, s', s'.list); }
  }

  lemma PasteSorted(s: Timers, t: Timer, k: nat)
    requires Sorted(s, s.list) && k <= |s.list|
    requires forall i | 0 <= i < k :: s.Deadline(s.list[i]) <= s.Deadline(t)
    requires forall i | k <= i < |s.list| :: s.Deadline(s.list[i]) > s.Deadline(t)
    ensures Sorted(s, Paste(s.list, k, t))
  {
    hide Timers.Deadline;
  }

  /** Starting t at deadline d works out if t is not running, or nothing ahead of it in the list is due after d. */
  predicate StartFits(s: Timers, t: Timer, d: int) {
    t in s.running ==> forall i, j | 0 <= i < j < |s.list| && s.list[j] == t :: s.Deadline(s.list[i]) <= d
  }

  lemma {:induction false} EarlyExitReaches(s: Timers, list: seq<Timer>, t: Timer, k: nat)
    requires k < |list| && list[k] == t
    requires forall i | 0 <= i < k :: list[i] != t && s.Deadline(list[i]) <= s.Deadline(t)
    ensures RemoveEarly(s, list, t) == Remove(list, t) == list[..k] + list[k + 1..]
  {
    if k > 0 {
      EarlyExitReaches(s, list[1..], t, k - 1);
      assert list[..k] == [list[0]] + list[1..][..k - 1];
    }
  }

  lemma {:induction false} EarlyExitMisses(s: Timers, list: seq<Timer>, t: Timer, i: nat)
    requires i < |list| && s.Deadline(list[i]) > s.Deadline(t)
    requires forall j | 0 <= j <= i :: list[j] != t
    ensures RemoveEarly(s, list, t) == list
  {
    if s.Deadline(list[0]) <= s.Deadline(t) {
      EarlyExitMisses(s, list[1..], t, i - 1);
    }
  }

  lemma {:induction false} InsertAddsOne(s: Timers, list: seq<Timer>, t: Timer) returns (k: nat)
    ensures k <= |list| && Insert(s, list, t) == list[..k] + [t] + list[k..]
  {
    if list == [] || s.Deadline(list[0]) > s.Deadline(t) {
      k := 0;
    } else {
      var k' := InsertAddsOne(s, list[1..], t);
      k := k' + 1;
      assert list[..k] == [list[0]] + list[1..][..k'];
    }
  }

  /** start() on any timer keeps the list in order and free of duplicates exactly when it fits.
      Restarting a running timer earlier than one ahead of it leaves the old entry in place. */
  lemma StartKeepsOkIff(s: Timers, t: Timer, d: int)
    requires s.Ok()
    ensures Start(s, t, d).Ok() <==> StartFits(s, t, d)
  {
    if StartFits(s, t, d) {
      StartKeepsOk(s, t, d);
    } else {
      StartDuplicates(s, t, d);
    }
  }

  lemma StartKeepsOk(s: Timers, t: Timer, d: int)
    requires s.Ok() && StartFits(s, t, d)
    ensures Start(s, t, d).Ok()
  {
    var s1 := s.(deadline := s.deadline[t := d]);
    if t !in s.running {
      assert s1.Ok();
      InsertKeepsOk(s1, t);
    } else {
      var k :| 0 <= k < |s.list| && s.list[k] == t;
      EarlyExitReaches(s1, s.list, t, k);
      CutSorted(s, s1, k);
      assert NoDuplicates(s.list) && forall u :: u in s.list <==> u in s.running;
      var s2 := Stop(s1, t);
      assert s2 == s1.(running := s.running - {t}, list := Cut(s.list, k));
      hide *;
      CutKeepsOk(s1, t, k);
      InsertKeepsOk(s2, t);
      StartIs(s, t, d);
    }
  }

  lemma CutSorted(s: Timers, s1: Timers, k: nat)
    requires Sorted(s, s.list) && k < |s.list| && NoDuplicates(s.list)
    requires forall u :: u != s.list[k] ==> s1.Deadline(u) == s.Deadline(u)
    ensures Sorted(s1, Cut(s.list, k))
  {
    hide Timers.Deadline;
  }

  lemma StartIs(s: Timers, t: Timer, d: int)
    ensures var s2 := Stop(s.(deadline := s.deadline[t := d]), t);
            Start(s, t, d) == s2.(list := Insert(s2, s2.list, t), running := s2.running + {t})
  {
  }

  lemma Twice(list: seq<Timer>, i: nat, j: nat)
    requires i != j && i < |list| && j < |list| && list[i] == list[j]
    ensures !NoDuplicates(list)
  {
  }

  lemma StartDuplicatesAt(s: Timers, t: Timer, d: int, i: nat, k: nat)
    requires i < k < |s.list| && s.list[k] == t && t in s.running
    requires s.Deadline(s.list[i]) > d && forall j | 0 <= j <= i :: s.list[j] != t
    ensures !NoDuplicates(Start(s, t, d).list)
  {
    var s1 := s.(deadline := s.deadline[t := d]);
    EarlyExitMisses(s1, s.list, t, i);
    var s2 := Stop(s1, t);
    var j := InsertAddsOne(s2, s.list, t);
    hide *;
    StartIs(s, t, d);
    Twice(s.list[..j] + [t] + s.list[j..], j, if k < j then k else k + 1);
  }

  lemma StartDuplicates(s: Timers, t: Timer, d: int)
    requires s.Ok() && !StartFits(s, t, d)
    ensures !NoDuplicates(Start(s, t, d).list)
  {
    var i, k :| 0 <= i < k < |s.list| && s.list[k] == t && s.Deadline(s.list[i]) > d;
    assert t in s.running && forall j | 0 <= j <= i :: s.list[j] != t;
    hide *;
    StartDuplicatesAt(s, t, d, i, k);
  }

  lemma {:induction false} InsertMembers(s: Timers, list: seq<Timer>, t: Timer, u: Timer)
    ensures u in Insert(s, list, t) <==> u == t || u in list
  {
    if list != [] && !(s.Deadline(list[0]) > s.Deadline(t)) {
      InsertMembers(s, list[1..], t, u);
    }
  }

  lemma {:induction false} RemoveMembers(s: Timers, list: seq<Timer>, t: Timer, u: Timer)
    requires u != t
    ensures u in RemoveEarly(s, list, t) <==> u in list
  {
    if list != [] {
      RemoveMembers(s, list[1..], t, u);
    }
  }

  /** A started timer runs with its new deadline and is in the list. No other one changes. */
  lemma StartArms(s: Timers, t: Timer, d: int, u: Timer)
    ensures
      var after := Start(s, t, d);
      && after.Deadline(t) == d && after.running == s.running + {t} && t in after.list
      && (u != t ==> after.Deadline(u) == s.Deadline(u) && (u in after.list <==> u in s.list))
  {
    var s1 := s.(deadline := s.deadline[t := d]);
    var s2 := Stop(s1, t);
    InsertMembers(s2, s2.list, t, t);
    InsertMembers(s2, s2.list, t, u);
    if u != t {
      RemoveMembers(s1, s1.list, t, u);
    }
  }

  /** A stopped timer does not run. No other one changes, nor does any deadline. */
  lemma StopDisarms(s: Timers, t: Timer, u: Timer)
    ensures
      var after := Stop(s, t);
      && after.deadline == s.deadline && after.running == s.running - {t}
      && (u != t ==> (u in after.list <==> u in s.list))
  {
    if u != t {
      RemoveMembers(s, s.list, t, u);
    }
  }

  /** The smallest case: two timers, the later one brought forward. It is then due twice. */
  lemma RestartEarlierDuplicates()
    ensures var s := Start(Start(Start(Timers([], map[], {}), 1, 5), 2, 10), 2, 3);
            s.list == [2, 1, 2] && !Sorted(s, s.list)
  {
    var s0 := Timers([], map[], {});
    var s1, s2 := Start(s0, 1, 5), Start(Start(s0, 1, 5), 2, 10);
    assert s1.list == [1];
    assert Insert(Stop(s1.(deadline := s1.deadline[2 := 10]), 2), [1], 2) == [1] + Insert(s2, [], 2);
    assert s2.list == [1, 2];
    var s3 := Stop(s2.(deadline := s2.deadline[2 := 3]), 2);
    assert s3.list == [1, 2];
    assert Insert(s3, [1, 2], 2) == [2, 1, 2];
    var s4 := Start(s2, 2, 3);
    assert s4.Deadline(s4.list[1]) > s4.Deadline(s4.list[2]);
  }

  // --- First come, first served.

  /** Equal deadlines are listed in the order of the stamps. */
  predicate Fifo(s: Timers, list: seq<Timer>, stamp: map<Timer, nat>) {
    forall i, j | 0 <= i < j < |list| ::
      s.Deadline(list[i]) == s.Deadline(list[j]) ==> list[i] in stamp && list[j] in stamp && stamp[list[i]] < stamp[list[j]]
  }

  lemma InsertKeepsFifo(s: Timers, t: Timer, stamp: map<Timer, nat>, now: nat)
    requires s.Ok() && t !in s.list && Fifo(s, s.list, stamp)
    requires forall u <- s.list :: u in stamp && stamp[u] < now
    ensures Fifo(s, Insert(s, s.list, t), stamp[t := now])
  {
    var k := InsertSplits(s, s.list, t);
    PasteAt(s.list, k, t);
    assert Insert(s, s.list, t) == Paste(s.list, k, t);
    hide Timers.Deadline, Sorted, NoDuplicates, Paste, Insert, Timers.Ok;
    PasteKeepsFifo(s, k, t, stamp, now);
  }

  lemma PasteKeepsFifo(s: Timers, k: nat, t: Timer, stamp: map<Timer, nat>, now: nat)
    requires t !in s.list && Fifo(s, s.list, stamp) && k <= |s.list|
    requires forall u <- s.list :: u in stamp && stamp[u] < now
    requires forall i | k <= i < |s.list| :: s.Deadline(s.list[i]) > s.Deadline(t)
    ensures Fifo(s, Paste(s.list, k, t), stamp[t := now])
  {
    PasteAt(s.list, k, t);
    hide Paste, Timers.Deadline;
    var list := Paste(s.list, k, t);
    forall i, j | 0 <= i < j < |list| && s.Deadline(list[i]) == s.Deadline(list[j])
      ensures list[i] in stamp[t := now] && list[j] in stamp[t := now]
      ensures stamp[t := now][list[i]] < stamp[t := now][list[j]]
    {
    }
  }

  lemma PasteAt(list: seq<Timer>, k: nat, t: Timer)
    requires k <= |list|
    ensures |Paste(list, k, t)| == |list| + 1
    ensures forall i | 0 <= i <= |list| :: Paste(list, k, t)[i] == if i < k then list[i] else if i == k then t else list[i - 1]
  {
  }

  // --- processTimers(), with arbitrary timeout handlers.

  datatype Op = StartTimer(t: Timer, d: int) | StopTimer(t: Timer)

  function Do(s: Timers, op: Op): Timers {
    match op
    case StartTimer(t, d) => Start(s, t, d)
    case StopTimer(t) => Stop(s, t)
  }

  function DoAll(s: Timers, ops: seq<Op>): Timers
    decreases |ops|
  {
    if ops == [] then s else DoAll(Do(s, ops[0]), ops[1..])
  }

  /** What the handler of the n-th timer to fire does. */
  type Behaviour = nat -> seq<Op>

  /** Handlers arm timers strictly after now. */
  ghost predicate ArmsLater(behave: Behaviour, now: int) {
    forall n, op :: op in behave(n) ==> op.StartTimer? ==> op.d > now
  }

  /** The timers of list that are due, in its order. */
  function Due(s: Timers, list: seq<Timer>, now: int): seq<Timer> {
    if list == [] then []
    else if s.Deadline(list[0]) <= now then [list[0]] + Due(s, list[1..], now)
    else Due(s, list[1..], now)
  }

  function Pop(s: Timers): Timers
    requires s.list != []
  {
    Stop(s.(list := s.list[1..]), s.list[0])
  }

  lemma {:induction false} DueOfRemoveEarly(s: Timers, list: seq<Timer>, t: Timer, now: int)
    ensures |Due(s, RemoveEarly(s, list, t), now)| <= |Due(s, list, now)|
  {
    if list != [] && list[0] != t && s.Deadline(list[0]) <= s.Deadline(t) {
      DueOfRemoveEarly(s, list[1..], t, now);
      var rest := RemoveEarly(s, list[1..], t);
      assert ([list[0]] + rest)[1..] == rest;
    }
  }

  lemma {:induction false} DueOfInsert(s: Timers, list: seq<Timer>, t: Timer, now: int)
    requires s.Deadline(t) > now
    ensures Due(s, Insert(s, list, t), now) == Due(s, list, now)
  {
    if list == [] {
    } else if s.Deadline(list[0]) > s.Deadline(t) {
      assert ([t] + list)[1..] == list;
    } else {
      DueOfInsert(s, list[1..], t, now);
      var rest := Insert(s, list[1..], t);
      assert ([list[0]] + rest)[1..] == rest;
    }
  }

  lemma {:induction false} DueOfLater(s: Timers, s1: Timers, list: seq<Timer>, now: int)
    requires forall u :: s1.Deadline(u) <= now ==> s.Deadline(u) <= now
    ensures |Due(s1, list, now)| <= |Due(s, list, now)|
  {
    if list != [] {
      DueOfLater(s, s1, list[1..], now);
    }
  }

  lemma DueOfDo(s: Timers, op: Op, now: int)
    requires op.StartTimer? ==> op.d > now
    ensures |Due(Do(s, op), Do(s, op).list, now)| <= |Due(s, s.list, now)|
  {
    match op
    case StopTimer(t) =>
      DueOfRemoveEarly(s, s.list, t, now);
      DueOfLater(s, Stop(s, t), Stop(s, t).list, now);
    case StartTimer(t, d) =>
      var s1 := s.(deadline := s.deadline[t := d]);
      DueOfLater(s, s1, s.list, now);
      DueOfRemoveEarly(s1, s.list, t, now);
      var s2 := Stop(s1, t);
      DueOfLater(s1, s2, s2.list, now);
      DueOfInsert(s2, s2.list, t, now);
      DueOfLater(s2, Start(s, t, d), Start(s, t, d).list, now);
  }

  lemma {:induction false} DueOfDoAll(s: Timers, ops: seq<Op>, now: int)
    requires forall op <- ops :: op.StartTimer? ==> op.d > now
    ensures |Due(DoAll(s, ops), DoAll(s, ops).list, now)| <= |Due(s, s.list, now)|
    decreases |ops|
  {
    if ops != [] {
      DueOfDo(s, ops[0], now);
      DueOfDoAll(Do(s, ops[0]), ops[1..], now);
    }
  }

  lemma DueOfPop(s: Timers, now: int)
    requires s.list != [] && s.Deadline(s.list[0]) <= now
    ensures |Due(Pop(s), Pop(s).list, now)| < |Due(s, s.list, now)|
  {
    var s1 := s.(list := s.list[1..]);
    DueOfDo(s1, StopTimer(s.list[0]), now);
    DueOfLater(s, s1, s1.list, now);
  }

  /** The loop: state afterwards and timers fired, the n-th on entry being the next. */
  ghost function ProcessTimers(s: Timers, now: int, behave: Behaviour, n: nat): (Timers, seq<Timer>)
    requires ArmsLater(behave, now)
    decreases |Due(s, s.list, now)|
  {
    if s.list == [] || s.Deadline(s.list[0]) > now then (s, [])
    else
      DueOfPop(s, now);
      DueOfDoAll(Pop(s), behave(n), now);
      var (s', fired) := ProcessTimers(DoAll(Pop(s), behave(n)), now, behave, n + 1);
      (s', [s.list[0]] + fired)
  }

  // --- What the loop amounts to.

  predicate OpsFit(s: Timers, ops: seq<Op>)
    decreases |ops|
  {
    ops != [] ==> (ops[0].StartTimer? ==> StartFits(s, ops[0].t, ops[0].d)) && OpsFit(Do(s, ops[0]), ops[1..])
  }

  /** No handler of the pass restarts a running timer ahead of its predecessors. */
  ghost predicate PassFits(s: Timers, now: int, behave: Behaviour, n: nat)
    requires ArmsLater(behave, now)
    decreases |Due(s, s.list, now)|
  {
    if s.list == [] || s.Deadline(s.list[0]) > now then true
    else
      DueOfPop(s, now);
      DueOfDoAll(Pop(s), behave(n), now);
      OpsFit(Pop(s), behave(n)) && PassFits(DoAll(Pop(s), behave(n)), now, behave, n + 1)
  }

  function Touched(ops: seq<Op>): set<Timer> {
    set op <- ops :: op.t
  }

  function Without(list: seq<Timer>, ts: set<Timer>): (r: seq<Timer>)
    ensures |r| <= |list|
  {
    if list == [] then []
    else if list[0] in ts then Without(list[1..], ts)
    else [list[0]] + Without(list[1..], ts)
  }

  /** The due timers one by one, each handler taking those it starts or stops out of the rest. */
  function FireInOrder(due: seq<Timer>, behave: Behaviour, n: nat): seq<Timer>
    decreases |due|
  {
    if due == [] then []
    else [due[0]] + FireInOrder(Without(due[1..], Touched(behave(n))), behave, n + 1)
  }

  lemma {:induction false} WithoutTwice(list: seq<Timer>, a: set<Timer>, b: set<Timer>)
    ensures Without(Without(list, a), b) == Without(list, a + b)
  {
    if list != [] {
      WithoutTwice(list[1..], a, b);
      if list[0] !in a {
        assert ([list[0]] + Without(list[1..], a))[1..] == Without(list[1..], a);
      }
    }
  }

  lemma {:induction false} WithoutAbsent(list: seq<Timer>, ts: set<Timer>)
    requires forall t <- list :: t !in ts
    ensures Without(list, ts) == list
  {
    if list != [] {
      WithoutAbsent(list[1..], ts);
    }
  }

  lemma {:induction false} DueInList(s: Timers, list: seq<Timer>, now: int)
    ensures forall t <- Due(s, list, now) :: t in list
  {
    if list != [] {
      DueInList(s, list[1..], now);
    }
  }

  /** Deadlines of timers elsewhere do not matter. */
  lemma {:induction false} DueSame(s: Timers, s1: Timers, list: seq<Timer>, now: int)
    requires forall t <- list :: s.Deadline(t) == s1.Deadline(t)
    ensures Due(s, list, now) == Due(s1, list, now)
  {
    if list != [] {
      DueSame(s, s1, list[1..], now);
    }
  }

  lemma {:induction false} DueOfRemove(s: Timers, list: seq<Timer>, t: Timer, now: int)
    requires NoDuplicates(list)
    ensures Due(s, Remove(list, t), now) == Without(Due(s, list, now), {t})
    ensures t !in Remove(list, t)
  {
    if list == [] {
    } else if list[0] == t {
      var rest := Due(s, list[1..], now);
      DueInList(s, list[1..], now);
      WithoutAbsent(rest, {t});
      assert ([t] + rest)[1..] == rest;
    } else {
      DueOfRemove(s, list[1..], t, now);
      var tail := Remove(list[1..], t);
      assert ([list[0]] + tail)[1..] == tail;
      var rest := Due(s, list[1..], now);
      assert ([list[0]] + rest)[1..] == rest;
    }
  }

  lemma StopIsRemove(s: Timers, t: Timer)
    requires s.Ok()
    ensures Stop(s, t) == s.(running := s.running - {t}, list := Remove(s.list, t))
  {
    EarlyExitIsFullScan(s, s.list, t);
    if t !in s.running {
      RemoveAbsent(s.list, t);
    }
  }

  lemma StartIsRemoveInsert(s: Timers, t: Timer, d: int)
    requires s.Ok() && StartFits(s, t, d)
    ensures var s1 := s.(deadline := s.deadline[t := d], list := Remove(s.list, t), running := s.running - {t});
            Start(s, t, d) == s1.(list := Insert(s1, s1.list, t), running := s.running + {t})
  {
    var s1 := s.(deadline := s.deadline[t := d]);
    if t in s.running {
      var k :| 0 <= k < |s.list| && s.list[k] == t;
      EarlyExitReaches(s1, s.list, t, k);
      assert s.running - {t} + {t} == s.running + {t};
      InsertSame(Stop(s1, t), s1.(list := Remove(s.list, t), running := s.running - {t}), Remove(s.list, t), t);
    } else {
      RemoveAbsent(s.list, t);
      assert s.running - {t} == s.running;
    }
  }

  lemma {:induction false} InsertSame(s: Timers, s1: Timers, list: seq<Timer>, t: Timer)
    requires s.deadline == s1.deadline
    ensures Insert(s, list, t) == Insert(s1, list, t)
  {
    if list != [] {
      InsertSame(s, s1, list[1..], t);
    }
  }

  /** One call from a handler takes its timer out of those still due, and nothing else. */
  lemma DueAfterOp(s: Timers, op: Op, now: int)
    requires s.Ok() && (op.StartTimer? ==> op.d > now && StartFits(s, op.t, op.d))
    ensures Do(s, op).Ok()
    ensures Due(Do(s, op), Do(s, op).list, now) == Without(Due(s, s.list, now), {op.t})
  {
    DueOfRemove(s, s.list, op.t, now);
    match op
    case StopTimer(t) =>
      StopKeepsOk(s, t);
      StopIsRemove(s, t);
      DueSame(s, Stop(s, t), Stop(s, t).list, now);
    case StartTimer(t, d) =>
      StartKeepsOk(s, t, d);
      StartIsRemoveInsert(s, t, d);
      var s1 := s.(deadline := s.deadline[t := d], list := Remove(s.list, t), running := s.running - {t});
      hide Timers.Ok, Start, Stop;
      DueSame(s, s1, s1.list, now);
      DueOfInsert(s1, s1.list, t, now);
      DueSame(s1, Start(s, t, d), Start(s, t, d).list, now);
  }

  lemma {:induction false} DueAfterOps(s: Timers, ops: seq<Op>, now: int)
    requires s.Ok() && OpsFit(s, ops) && forall op <- ops :: op.StartTimer? ==> op.d > now
    ensures DoAll(s, ops).Ok()
    ensures Due(DoAll(s, ops), DoAll(s, ops).list, now) == Without(Due(s, s.list, now), Touched(ops))
    decreases |ops|
  {
    hide Timers.Ok, Do, StartFits;
    if ops == [] {
      assert Touched(ops) == {};
      WithoutAbsent(Due(s, s.list, now), {});
    } else {
      DueAfterOp(s, ops[0], now);
      DueAfterOps(Do(s, ops[0]), ops[1..], now);
      WithoutTwice(Due(s, s.list, now), {ops[0].t}, Touched(ops[1..]));
      assert Touched(ops) == {ops[0].t} + Touched(ops[1..]) by { assert ops == [ops[0]] + ops[1..]; }
    }
  }

  lemma PopKeepsOk(s: Timers)
    requires s.Ok() && s.list != []
    ensures Pop(s).Ok() && Pop(s) == s.(list := s.list[1..], running := s.running - {s.list[0]})
  {
    var t, s1 := s.list[0], s.(list := s.list[1..]);
    EarlyExitIsFullScan(s1, s1.list, t);
    RemoveAbsent(s1.list, t);
    assert Cut(s.list, 0) == s1.list && Sorted(s, Cut(s.list, 0));
    hide Sorted, NoDuplicates, Cut;
    CutKeepsOk(s, t, 0);
  }

  lemma {:induction false} NoneDue(s: Timers, list: seq<Timer>, now: int)
    requires forall t <- list :: s.Deadline(t) > now
    ensures Due(s, list, now) == []
  {
    if list != [] {
      NoneDue(s, list[1..], now);
    }
  }

  /** If no handler of the pass restarts a running timer ahead of its predecessors, the pass fires exactly the timers
      that were due, in list order, except those an earlier handler stopped or re-armed; it keeps the list in
      order, and leaves only timers due after now. That it ends at all needs no such condition. */
  lemma {:induction false} PassFiresInOrder(s: Timers, now: int, behave: Behaviour, n: nat)
    requires s.Ok() && ArmsLater(behave, now) && PassFits(s, now, behave, n)
    ensures var (s', fired) := ProcessTimers(s, now, behave, n);
      && fired == FireInOrder(Due(s, s.list, now), behave, n)
      && s'.Ok() && forall t <- s'.list :: s'.Deadline(t) > now
    decreases |Due(s, s.list, now)|
  {
    if s.list == [] || s.Deadline(s.list[0]) > now {
      NoneDue(s, s.list, now);
    } else {
      DueOfPop(s, now);
      DueOfDoAll(Pop(s), behave(n), now);
      PopKeepsOk(s);
      DueAfterOps(Pop(s), behave(n), now);
      DueSame(s, Pop(s), s.list[1..], now);
      PassFiresInOrder(DoAll(Pop(s), behave(n)), now, behave, n + 1);
    }
  }
}
