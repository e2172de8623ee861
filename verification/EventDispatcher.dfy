/** The poll-based dispatcher: a table of notifier slots per file descriptor and the timer list,
    both open to change by the handlers it calls. */
module EventDispatcher {
  import opened Bytes
  import opened NotifierTable
  import TL = TimerList

  /** notifiers[3] of one descriptor. */
  datatype Slots = Slots(read: Option<Notifier>, write: Option<Notifier>, exception: Option<Notifier>)
  {
    function Get(t: EventType): Option<Notifier> {
      match t
      case Read => read
      case Write => write
      case Exception => exception
    }

    function Set(t: EventType, n: Option<Notifier>): (s: Slots)
      ensures forall u :: s.Get(u) == if u == t then n else Get(u)
    {
      match t
      case Read => this.(read := n)
      case Write => this.(write := n)
      case Exception => this.(exception := n)
    }

    /** The events asked of poll(). */
    function Events(): set<EventType> {
      set t: EventType | Get(t).Some?
    }
  }

  /** An entry of the array for poll(), with the requested events. */
  datatype PollFd = PollFd(fd: int, events: set<EventType>)

  /** What poll() does: it fails, or nothing happens before the timeout, or it reports events. */
  datatype PollResult = Failed | TimedOut | Ready(revents: PollFd -> Polled)

  /** poll() reports on the descriptors it was given, and no event that was not requested. */
  ghost predicate Honest(result: PollResult) {
    result.Ready? ==> forall p :: result.revents(p).fd == p.fd && result.revents(p).events <= p.events
  }

  /** The answer for a descriptor, when the registry says which events are requested. */
  function Asked(revents: PollFd -> Polled, r: Registry, fd: int): Polled {
    revents(PollFd(fd, set t: EventType | (fd, t) in r))
  }

  /** What the surroundings do in one call of processEvents(): the messages dispatched first, the handlers of
    * notifiers, and those of timers, each with what they do to notifiers and to timers. */
  datatype Surroundings = Surroundings(
    messages: seq<Op>, messageTimers: seq<TL.Op>, poll: PollResult, behave: Behaviour, notifierTimers: seq<TL.Op>,
    now: int, timerBehave: TL.Behaviour, timerNotifiers: seq<Op>)

  const NO_SLOTS := Slots(None, None, None)

  type Table = map<int, Slots>

  predicate Filled(m: Table, key: (int, EventType)) {
    key.0 in m && m[key.0].Get(key.1).Some?
  }

  /** The registry a table stands for: its non-null slots. */
  function Abs(m: Table): (r: Registry)
    ensures forall key :: key in r <==> Filled(m, key)
    ensures forall key <- r :: key.0 in m && Some(r[key]) == m[key.0].Get(key.1)
  {
    map fd, t | fd in m.Keys && t in {Read, Write, Exception} && m[fd].Get(t).Some? :: (fd, t) := m[fd].Get(t).value
  }

  lemma AbsSet(m: Table, fd: int, t: EventType, n: Option<Notifier>)
    ensures var s := if fd in m then m[fd] else NO_SLOTS;
            Abs(m[fd := s.Set(t, n)]) == if n.Some? then Abs(m)[(fd, t) := n.value] else Abs(m) - {(fd, t)}
  {
    hide Abs;
    var s := if fd in m then m[fd] else NO_SLOTS;
    var m' := m[fd := s.Set(t, n)];
    var r, r' := Abs(m), Abs(m');
    forall key
      ensures key in r' <==> (if key == (fd, t) then n.Some? else key in r)
      ensures key in r' ==> r'[key] == if key == (fd, t) then n.value else r[key]
    {
      assert Filled(m', key) <==> if key == (fd, t) then n.Some? else Filled(m, key);
    }
  }

  /** Filling the slot of a notifier, unless another one has it. */
  lemma AbsRegister(m: Table, n: Notifier)
    requires Keyed(Abs(m))
    ensures
      var s := if n.fd in m then m[n.fd] else NO_SLOTS;
      && Keyed(Register(Abs(m), n))
      && Register(Abs(m), n)
         == if s.Get(n.typ).Some? && s.Get(n.typ).value != n then Abs(m) else Abs(m[n.fd := s.Set(n.typ, Some(n))])
  {
    AbsSet(m, n.fd, n.typ, Some(n));
    assert n.Key() in Abs(m) <==> Filled(m, n.Key());
    hide Abs;
  }

  /** Looking a descriptor up may create an empty entry for it. */
  lemma AbsTouch(m: Table, fd: int)
    ensures Abs(m[fd := if fd in m then m[fd] else NO_SLOTS]) == Abs(m)
  {
    hide Abs;
    forall key
      ensures Filled(m[fd := if fd in m then m[fd] else NO_SLOTS], key) <==> Filled(m, key)
    {
    }
  }

  lemma AbsErase(m: Table, fd: int)
    requires fd in m ==> m[fd] == NO_SLOTS
    ensures Abs(m - {fd}) == Abs(m)
  {
    hide Abs;
    forall key
      ensures Filled(m - {fd}, key) <==> Filled(m, key)
    {
    }
  }

  class EventDispatcherPoll {
    var notifiers: Table
    var timers: TL.Timers
    var processingEvents: bool

    /** Notifiers sit in the slot for their own descriptor and type. */
    ghost predicate Valid()
      reads this
    {
      Keyed(Abs(notifiers))
    }

    constructor ()
      ensures Valid() && Abs(notifiers) == map[] && !processingEvents
      ensures timers == TL.Timers([], map[], {})
    {
      notifiers := map[];
      timers := TL.Timers([], map[], {});
      processingEvents := false;
    }

    method RegisterEventNotifier(n: Notifier)
      requires Valid()
      modifies this`notifiers
      ensures Valid() && Abs(notifiers) == Register(old(Abs(notifiers)), n)
      ensures notifiers.Keys == old(notifiers.Keys) + {n.fd}
    {
      hide Abs, Filled, Keyed, Register;
      var set_ := if n.fd in notifiers then notifiers[n.fd] else NO_SLOTS;
      AbsTouch(notifiers, n.fd);
      AbsRegister(notifiers, n);
      notifiers := notifiers[n.fd := set_];
      if set_.Get(n.typ).Some? && set_.Get(n.typ).value != n {
        return;
      }
      notifiers := notifiers[n.fd := set_.Set(n.typ, Some(n))];
      assert notifiers == old(notifiers)[n.fd := set_.Set(n.typ, Some(n))];
    }

    /** While a round is in progress the emptied entry is left for processNotifiers() to erase. */
    method UnregisterEventNotifier(n: Notifier)
      requires Valid()
      modifies this`notifiers
      ensures Valid() && Abs(notifiers) == Unregister(old(Abs(notifiers)), n)
      ensures !Registered(Abs(notifiers), n)
      ensures if processingEvents then notifiers.Keys == old(notifiers.Keys)
              else old(notifiers.Keys) - {n.fd} <= notifiers.Keys <= old(notifiers.Keys)
    {
      if n.fd !in notifiers { return; }
      var set_ := notifiers[n.fd];
      if set_.Get(n.typ).None? { return; }
      if set_.Get(n.typ).value != n { return; }
      AbsSet(notifiers, n.fd, n.typ, None);
      notifiers := notifiers[n.fd := set_.Set(n.typ, None)];
      if processingEvents { return; }
      if notifiers[n.fd] == NO_SLOTS {
        AbsErase(notifiers, n.fd);
        notifiers := notifiers - {n.fd};
      }
    }

    /** What a handler does to the table. In the middle of a round no entry is erased. */
    method Emit(ops: seq<Op>)
      requires Valid()
      modifies this`notifiers
      ensures Valid() && Abs(notifiers) == DoAll(old(Abs(notifiers)), ops)
      ensures processingEvents ==> old(notifiers.Keys) <= notifiers.Keys
    {
      for i := 0 to |ops|
        invariant Valid() && (processingEvents ==> old(notifiers.Keys) <= notifiers.Keys)
        invariant DoAll(Abs(notifiers), ops[i..]) == DoAll(old(Abs(notifiers)), ops)
      {
        assert ops[i..][0] == ops[i] && ops[i..][1..] == ops[i + 1..];
        match ops[i]
        case Add(n) => RegisterEventNotifier(n);
        case Drop(n) => UnregisterEventNotifier(n);
      }
    }

    /** The table refines the registry through a whole round, whatever the handlers do to it. The descriptors
        polled were all in the table when the round began; that they still are when their turn comes is the
        program's own assertion, here checked by the lookup. */
    method ProcessNotifiers(polled: seq<Polled>, behave: Behaviour) returns (fired: seq<Notifier>)
      requires Valid() && DistinctFds(polled) && forall p <- polled :: p.fd in notifiers
      modifies this`notifiers, this`processingEvents
      ensures Valid() && !processingEvents
      ensures Round(Abs(notifiers), fired) == Process(Round(old(Abs(notifiers)), []), polled, 0, behave)
    {
      hide Abs, Visit, Process, VisitFrom, Keyed;
      processingEvents := true;
      fired := [];
      assert polled[0..] == polled && polled[|polled|..] == [];
      ProcessNone(behave);
      for i := 0 to |polled|
        invariant Valid() && processingEvents
        invariant forall j | i <= j < |polled| :: polled[j].fd in notifiers
        invariant Process(Round(Abs(notifiers), fired), polled[i..], 0, behave)
               == Process(Round(old(Abs(notifiers)), []), polled, 0, behave)
      {
        var p := polled[i];
        assert p.fd in notifiers;
        ProcessDescriptor(Round(Abs(notifiers), fired), polled, i, behave);
        fired := ProcessSlots(p, behave, fired);
        if notifiers[p.fd] == NO_SLOTS {
          AbsErase(notifiers, p.fd);
          notifiers := notifiers - {p.fd};
        }
      }
      processingEvents := false;
    }

    /** The three notifiers of a descriptor. */
    method ProcessSlots(p: Polled, behave: Behaviour, before: seq<Notifier>) returns (fired: seq<Notifier>)
      requires Valid() && processingEvents && p.fd in notifiers
      modifies this`notifiers
      ensures Valid() && old(notifiers.Keys) <= notifiers.Keys
      ensures Round(Abs(notifiers), fired) == VisitFrom(Round(old(Abs(notifiers)), before), p, 0, behave)
    {
      hide Abs, Visit, Keyed;
      fired := before;
      for k := 0 to 3
        invariant Valid() && old(notifiers.Keys) <= notifiers.Keys
        invariant VisitFrom(Round(Abs(notifiers), fired), p, k, behave)
               == VisitFrom(Round(old(Abs(notifiers)), before), p, 0, behave)
      {
        fired := ProcessSlot(p, TypeAt(k), behave, fired);
      }
    }

    method ProcessSlot(p: Polled, t: EventType, behave: Behaviour, before: seq<Notifier>) returns (fired: seq<Notifier>)
      requires Valid() && processingEvents && p.fd in notifiers
      modifies this`notifiers
      ensures Valid() && old(notifiers.Keys) <= notifiers.Keys
      ensures Round(Abs(notifiers), fired) == Visit(Round(old(Abs(notifiers)), before), p, t, behave)
    {
      fired := before;
      var notifier := notifiers[p.fd].Get(t);
      assert notifier.Some? <==> (p.fd, t) in Abs(notifiers);
      if notifier.None? { return; }
      if p.invalid {
        UnregisterEventNotifier(notifier.value);
        return;
      }
      if t in p.events {
        Emit(behave(|fired|));
        fired := fired + [notifier.value];
      }
    }

    /** One pollfd per entry of the table, which requests the events that have a notifier. */
    method PollSet() returns (fds: seq<PollFd>)
      ensures forall fd <- notifiers :: PollFd(fd, notifiers[fd].Events()) in fds
      ensures forall p <- fds :: p.fd in notifiers && forall t :: t in p.events <==> (p.fd, t) in Abs(notifiers)
      ensures forall i, j | 0 <= i < j < |fds| :: fds[i].fd != fds[j].fd
    {
      var left := notifiers.Keys;
      fds := [];
      while left != {}
        invariant left <= notifiers.Keys
        invariant forall fd <- notifiers :: fd in left || PollFd(fd, notifiers[fd].Events()) in fds
        invariant forall i | 0 <= i < |fds| ::
          fds[i].fd in notifiers && fds[i].fd !in left && fds[i].events == notifiers[fds[i].fd].Events()
        invariant forall i, j | 0 <= i < j < |fds| :: fds[i].fd != fds[j].fd
        decreases left
      {
        NonEmpty(left);
        var fd :| fd in left;
        fds := fds + [PollFd(fd, notifiers[fd].Events())];
        left := left - {fd};
      }
    }

    /** From the table to the pollfds to the round: between the two, nothing changes the table. Only notifiers
      * of descriptors and types that were asked for are activated. */
    method PollAndNotify(revents: PollFd -> Polled, behave: Behaviour)
        returns (polled: seq<Polled>, fired: seq<Notifier>)
      requires Valid() && Honest(Ready(revents))
      modifies this`notifiers, this`processingEvents
      ensures Valid() && DistinctFds(polled)
      ensures forall key <- old(Abs(notifiers)) :: Asked(revents, old(Abs(notifiers)), key.0) in polled
      ensures Round(Abs(notifiers), fired) == Process(Round(old(Abs(notifiers)), []), polled, 0, behave)
      ensures forall n <- fired :: n.Key() in old(Abs(notifiers))
    {
      hide Process, Visit, Abs;
      var fds := PollSet();
      polled := seq(|fds|, i requires 0 <= i < |fds| => revents(fds[i]));
      ghost var asked := Abs(notifiers);
      forall key <- asked
        ensures Asked(revents, asked, key.0) in polled
      {
        var fd := key.0;
        assert notifiers[fd].Events() == set t: EventType | (fd, t) in asked;
        var i :| 0 <= i < |fds| && fds[i] == PollFd(fd, notifiers[fd].Events());
        assert polled[i] == revents(fds[i]);
      }
      assert forall i | 0 <= i < |polled| :: polled[i].fd == fds[i].fd && polled[i].events <= fds[i].events;
      assert forall i, t | 0 <= i < |polled| && t in polled[i].events :: (polled[i].fd, t) in asked;
      FiredWereAsked(asked, polled, behave);
      fired := ProcessNotifiers(polled, behave);
    }

    /** processEvents(): messages first, then poll(), the round of notifiers if there were events, and the timers
      * in any case. */
    method ProcessEvents(env: Surroundings)
        returns (polled: seq<Polled>, fired: seq<Notifier>, expired: seq<TL.Timer>)
      requires Valid() && Honest(env.poll) && TL.ArmsLater(env.timerBehave, env.now)
      modifies this
      ensures Valid() && DistinctFds(polled) && (!env.poll.Ready? ==> polled == [])
      ensures
        var asked := DoAll(old(Abs(notifiers)), env.messages);
        && (env.poll.Ready? ==> forall key <- asked :: Asked(env.poll.revents, asked, key.0) in polled)
        && (forall n <- fired :: n.Key() in asked)
        && fired == Process(Round(asked, []), polled, 0, env.behave).fired
        && Abs(notifiers) == DoAll(Process(Round(asked, []), polled, 0, env.behave).registry, env.timerNotifiers)
      ensures
        var before := TL.DoAll(old(timers), env.messageTimers);
        var set_ := if env.poll.Ready? then TL.DoAll(before, env.notifierTimers) else before;
        (timers, expired) == TL.ProcessTimers(set_, env.now, env.timerBehave, 0)
    {
      hide Abs, Process, Asked, Keyed, TL.DoAll, TL.ProcessTimers, DoAll;
      Emit(env.messages);
      RunHandler(env.messageTimers);
      polled, fired := [], [];
      ProcessNone(env.behave);
      if env.poll.Ready? {
        polled, fired := PollAndNotify(env.poll.revents, env.behave);
        RunHandler(env.notifierTimers);
      }
      expired := ProcessTimers(env.now, env.timerBehave);
      Emit(env.timerNotifiers);
    }

    // --- Timers.

    method RegisterTimer(t: TL.Timer)
      modifies this`timers
      ensures timers == old(timers).(list := TL.Insert(old(timers), old(timers).list, t))
    {
      hide TL.Insert;
      var list := timers.list;
      for i := 0 to |list|
        invariant timers == old(timers)
        invariant list[..i] + TL.Insert(timers, list[i..], t) == TL.Insert(timers, list, t)
      {
        InsertStep(timers, list, i, t);
        if timers.Deadline(list[i]) > timers.Deadline(t) {
          timers := timers.(list := list[..i] + [t] + list[i..]);
          return;
        }
      }
      InsertEnd(timers, list, t);
      timers := timers.(list := list + [t]);
    }

    method UnregisterTimer(t: TL.Timer)
      modifies this`timers
      ensures timers == old(timers).(list := TL.RemoveEarly(old(timers), old(timers).list, t))
    {
      hide TL.RemoveEarly;
      var list := timers.list;
      for i := 0 to |list|
        invariant timers == old(timers)
        invariant list[..i] + TL.RemoveEarly(timers, list[i..], t) == TL.RemoveEarly(timers, list, t)
      {
        RemoveStep(timers, list, i, t);
        if list[i] == t {
          timers := timers.(list := list[..i] + list[i + 1..]);
          return;
        }
        if timers.Deadline(list[i]) > timers.Deadline(t) {
          return;
        }
      }
      assert list[|list|..] == [] && list[..|list|] == list;
      RemoveEnd(timers, t);
    }

    /** Timer::stop(). */
    method StopTimer(t: TL.Timer)
      modifies this`timers
      ensures timers == TL.Stop(old(timers), t)
    {
      if t in timers.running {
        timers := timers.(running := timers.running - {t});
        RemoveSame(old(timers), timers, timers.list, t);
        UnregisterTimer(t);
      }
    }

    /** Timer::start(). */
    method StartTimer(t: TL.Timer, d: int)
      modifies this`timers
      ensures timers == TL.Start(old(timers), t, d)
    {
      timers := timers.(deadline := timers.deadline[t := d]);
      StopTimer(t);
      RegisterTimer(t);
      timers := timers.(running := timers.running + {t});
    }

    method RunHandler(ops: seq<TL.Op>)
      modifies this`timers
      ensures timers == TL.DoAll(old(timers), ops)
    {
      for i := 0 to |ops|
        invariant TL.DoAll(timers, ops[i..]) == TL.DoAll(old(timers), ops)
      {
        assert ops[i..][0] == ops[i] && ops[i..][1..] == ops[i + 1..];
        match ops[i]
        case StartTimer(t, d) => StartTimer(t, d);
        case StopTimer(t) => StopTimer(t);
      }
    }

    /** The pass over due timers ends whenever handlers only arm timers after now. */
    method ProcessTimers(now: int, behave: TL.Behaviour) returns (fired: seq<TL.Timer>)
      requires TL.ArmsLater(behave, now)
      modifies this`timers
      ensures (timers, fired) == TL.ProcessTimers(old(timers), now, behave, 0)
    {
      hide TL.ProcessTimers, TL.DoAll, TL.Due;
      fired := [];
      ghost var all := TL.ProcessTimers(timers, now, behave, 0);
      while timers.list != []
        invariant TL.ProcessTimers(timers, now, behave, |fired|).0 == all.0
        invariant fired + TL.ProcessTimers(timers, now, behave, |fired|).1 == all.1
        decreases |TL.Due(timers, timers.list, now)|
      {
        var timer := timers.list[0];
        if timers.Deadline(timer) > now { break; }
        ghost var next := TL.DoAll(TL.Pop(timers), behave(|fired|));
        TimersStep(timers, now, behave, |fired|);
        Associates(fired, [timer], TL.ProcessTimers(next, now, behave, |fired| + 1).1);
        timers := timers.(list := timers.list[1..]);
        StopTimer(timer);
        RunHandler(behave(|fired|));
        fired := fired + [timer];
      }
      TimersEnd(timers, now, behave, |fired|);
      assert fired + [] == fired;
    }
  }

  lemma Associates(x: seq<TL.Timer>, y: seq<TL.Timer>, z: seq<TL.Timer>)
    ensures x + (y + z) == (x + y) + z
  {
  }

  /** The visits of one descriptor, from a type on. */
  function VisitFrom(s: Round, p: Polled, k: nat, behave: Behaviour): Round
    requires k <= 3
    decreases 3 - k
  {
    if k == 3 then s else VisitFrom(Visit(s, p, TypeAt(k), behave), p, k + 1, behave)
  }

  lemma {:induction false} VisitFromFirst(s: Round, polled: seq<Polled>, k: nat, behave: Behaviour)
    requires k <= 3 && polled != []
    ensures Process(s, polled, k, behave) == Process(VisitFrom(s, polled[0], k, behave), polled[1..], 0, behave)
    decreases 3 - k
  {
    if k < 3 {
      VisitFromFirst(Visit(s, polled[0], TypeAt(k), behave), polled, k + 1, behave);
    }
  }

  lemma ProcessDescriptor(s: Round, polled: seq<Polled>, i: nat, behave: Behaviour)
    requires i < |polled|
    ensures
      Process(s, polled[i..], 0, behave) == Process(VisitFrom(s, polled[i], 0, behave), polled[i + 1..], 0, behave)
  {
    VisitFromFirst(s, polled[i..], 0, behave);
    assert polled[i..][1..] == polled[i + 1..];
  }

  lemma ProcessNone(behave: Behaviour)
    ensures forall s :: Process(s, [], 0, behave) == s
  {
  }

  /** No event is reported that was not asked for, so no notifier is activated where there was none. */
  lemma FiredWereAsked(asked: Registry, polled: seq<Polled>, behave: Behaviour)
    requires Keyed(asked) && DistinctFds(polled)
    requires forall i, t | 0 <= i < |polled| && t in polled[i].events :: (polled[i].fd, t) in asked
    ensures forall n <- Process(Round(asked, []), polled, 0, behave).fired :: n.Key() in asked
  {
    hide Process, Visit, DistinctFds, Keyed;
    FiresReadyOnce(Round(asked, []), polled, 0, behave);
    var fired := Process(Round(asked, []), polled, 0, behave).fired;
    forall i | 0 <= i < |fired|
      ensures fired[i].Key() in asked
    {
      assert NotifierTable.Ready(polled, 0, fired[i].Key());
    }
  }

  lemma TimersStep(s: TL.Timers, now: int, behave: TL.Behaviour, n: nat)
    requires TL.ArmsLater(behave, now) && s.list != [] && s.Deadline(s.list[0]) <= now
    ensures
      var next := TL.DoAll(TL.Pop(s), behave(n));
      && |TL.Due(next, next.list, now)| < |TL.Due(s, s.list, now)|
      && TL.ProcessTimers(s, now, behave, n)
         == (TL.ProcessTimers(next, now, behave, n + 1).0, [s.list[0]] + TL.ProcessTimers(next, now, behave, n + 1).1)
  {
    TL.DueOfPop(s, now);
    TL.DueOfDoAll(TL.Pop(s), behave(n), now);
  }

  lemma TimersEnd(s: TL.Timers, now: int, behave: TL.Behaviour, n: nat)
    requires TL.ArmsLater(behave, now) && (s.list == [] || s.Deadline(s.list[0]) > now)
    ensures TL.ProcessTimers(s, now, behave, n) == (s, [])
  {
  }

  lemma CutAt(list: seq<TL.Timer>, i: nat)
    requires i < |list|
    ensures list[i..] == [list[i]] + list[i + 1..] && list[i..][1..] == list[i + 1..]
    ensures list[..i] + [list[i]] == list[..i + 1] && list[..i] + list[i..] == list
  {
  }

  lemma InsertStep(s: TL.Timers, list: seq<TL.Timer>, i: nat, t: TL.Timer)
    requires i < |list|
    ensures
      if s.Deadline(list[i]) > s.Deadline(t) then
        list[..i] + TL.Insert(s, list[i..], t) == list[..i] + [t] + list[i..]
      else list[..i] + TL.Insert(s, list[i..], t) == list[..i + 1] + TL.Insert(s, list[i + 1..], t)
  {
    CutAt(list, i);
    var inserted := TL.Insert(s, list[i..], t);
    assert inserted
        == if s.Deadline(list[i]) > s.Deadline(t) then [t] + list[i..] else [list[i]] + TL.Insert(s, list[i + 1..], t);
    hide TL.Insert;
    Associates(list[..i], [t], list[i..]);
    Associates(list[..i], [list[i]], TL.Insert(s, list[i + 1..], t));
  }

  lemma InsertEnd(s: TL.Timers, list: seq<TL.Timer>, t: TL.Timer)
    ensures list[..|list|] + TL.Insert(s, list[|list|..], t) == list + [t]
  {
  }

  lemma RemoveStep(s: TL.Timers, list: seq<TL.Timer>, i: nat, t: TL.Timer)
    requires i < |list|
    ensures
      if list[i] == t then list[..i] + TL.RemoveEarly(s, list[i..], t) == list[..i] + list[i + 1..]
      else if s.Deadline(list[i]) > s.Deadline(t) then list[..i] + TL.RemoveEarly(s, list[i..], t) == list
      else list[..i] + TL.RemoveEarly(s, list[i..], t) == list[..i + 1] + TL.RemoveEarly(s, list[i + 1..], t)
  {
    CutAt(list, i);
    var rest := TL.RemoveEarly(s, list[i + 1..], t);
    assert TL.RemoveEarly(s, list[i..], t)
        == if list[i] == t then list[i + 1..]
           else if s.Deadline(list[i]) > s.Deadline(t) then list[i..] else [list[i]] + rest;
    hide TL.RemoveEarly;
    Associates(list[..i], [list[i]], rest);
  }

  lemma RemoveEnd(s: TL.Timers, t: TL.Timer)
    ensures TL.RemoveEarly(s, [], t) == []
  {
  }

  lemma NonEmpty(fds: set<int>)
    requires fds != {}
    ensures exists fd :: fd in fds
  {
    assert (forall fd :: fd !in fds) ==> fds == {};
  }

  lemma {:induction false} RemoveSame(s: TL.Timers, s1: TL.Timers, list: seq<TL.Timer>, t: TL.Timer)
    requires s.deadline == s1.deadline
    ensures TL.RemoveEarly(s, list, t) == TL.RemoveEarly(s1, list, t)
  {
    if list != [] {
      RemoveSame(s, s1, list[1..], t);
    }
  }
}
