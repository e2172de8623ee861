/** Event notifiers: the simple view, a map from file descriptor and event type to notifier,
    and what one round of event processing means in terms of it. */
module NotifierTable {
  datatype EventType = Read | Write | Exception

  /** The three types in the order a round looks at them. */
  function TypeAt(k: nat): EventType
    requires k < 3
  {
    if k == 0 then Read else if k == 1 then Write else Exception
  }

  datatype Notifier = Notifier(id: nat, fd: int, typ: EventType)
  {
    function Key(): (int, EventType) {
      (fd, typ)
    }
  }

  type Registry = map<(int, EventType), Notifier>

  /** A duplicate is ignored. */
  function Register(r: Registry, n: Notifier): Registry {
    if n.Key() in r then r else r[n.Key() := n]
  }

  function Unregister(r: Registry, n: Notifier): Registry {
    if n.Key() in r && r[n.Key()] == n then r - {n.Key()} else r
  }

  /** What handlers may do while a round is in progress. */
  datatype Op = Add(n: Notifier) | Drop(n: Notifier)

  function Do(r: Registry, op: Op): Registry {
    match op
    case Add(n) => Register(r, n)
    case Drop(n) => Unregister(r, n)
  }

  function DoAll(r: Registry, ops: seq<Op>): Registry
    decreases |ops|
  {
    if ops == [] then r else DoAll(Do(r, ops[0]), ops[1..])
  }

  /** What the handler of the k-th notifier to be activated does. */
  type Behaviour = nat -> seq<Op>

  /** The result of poll() for one descriptor; invalid is POLLNVAL. */
  datatype Polled = Polled(fd: int, invalid: bool, events: set<EventType>)

  datatype Round = Round(registry: Registry, fired: seq<Notifier>)

  /** One descriptor and type: whoever is registered for it now is dropped, activated or left alone. */
  function Visit(s: Round, p: Polled, t: EventType, behave: Behaviour): Round {
    if (p.fd, t) !in s.registry then s
    else
      var n := s.registry[(p.fd, t)];
      if p.invalid then s.(registry := Unregister(s.registry, n))
      else if t in p.events then Round(DoAll(s.registry, behave(|s.fired|)), s.fired + [n])
      else s
  }

  /** The visits still to come: pollfds one after the other, the first from type index k on. */
  function Process(s: Round, polled: seq<Polled>, k: nat, behave: Behaviour): Round
    requires k <= 3
    decreases |polled|, 3 - k
  {
    if polled == [] then s
    else if k == 3 then Process(s, polled[1..], 0, behave)
    else Process(Visit(s, polled[0], TypeAt(k), behave), polled, k + 1, behave)
  }

  // --- What registering and unregistering do.

  /** A notifier is in the registry afterwards unless another one has its key; nothing else changes. */
  lemma RegisterAdds(r: Registry, n: Notifier)
    ensures n.Key() !in r ==> Registered(Register(r, n), n)
    ensures n.Key() in r ==> Register(r, n) == r
    ensures forall key | key != n.Key() ::
      (key in Register(r, n) <==> key in r) && (key in r ==> Register(r, n)[key] == r[key])
  {
  }

  /** It is not there afterwards; nothing else changes. */
  lemma UnregisterRemoves(r: Registry, n: Notifier)
    ensures !Registered(Unregister(r, n), n)
    ensures Registered(r, n) ==> n.Key() !in Unregister(r, n)
    ensures !Registered(r, n) ==> Unregister(r, n) == r
    ensures forall key | key != n.Key() ::
      (key in Unregister(r, n) <==> key in r) && (key in r ==> Unregister(r, n)[key] == r[key])
  {
  }

  /** What was unregistered and not added again is not there after a sequence of operations. */
  lemma {:induction false} DroppedIsOut(r: Registry, ops: seq<Op>, n: Notifier)
    requires Drop(n) in ops && Add(n) !in ops
    ensures !Registered(DoAll(r, ops), n)
    decreases |ops|
  {
    if ops[0] == Drop(n) {
      UnregisterRemoves(r, n);
      OpsKeepOut(Do(r, ops[0]), ops[1..], n);
    } else {
      DroppedIsOut(Do(r, ops[0]), ops[1..], n);
    }
  }

  // --- Safety of a round.

  /** Keys and values of the registry belong together. */
  predicate Keyed(r: Registry) {
    forall key <- r :: r[key].Key() == key
  }

  predicate Registered(r: Registry, n: Notifier) {
    n.Key() in r && r[n.Key()] == n
  }

  ghost predicate NeverAdds(behave: Behaviour, n: Notifier) {
    forall j, op :: op in behave(j) ==> op != Add(n)
  }

  ghost predicate NeverDrops(behave: Behaviour, n: Notifier) {
    forall j, op :: op in behave(j) ==> op != Drop(n)
  }

  lemma {:induction false} OpsKeepOut(r: Registry, ops: seq<Op>, n: Notifier)
    requires !Registered(r, n) && Add(n) !in ops
    ensures !Registered(DoAll(r, ops), n)
    decreases |ops|
  {
    if ops != [] {
      OpsKeepOut(Do(r, ops[0]), ops[1..], n);
    }
  }

  lemma {:induction false} OpsKeepIn(r: Registry, ops: seq<Op>, n: Notifier)
    requires Registered(r, n) && Drop(n) !in ops
    ensures Registered(DoAll(r, ops), n)
    decreases |ops|
  {
    if ops != [] {
      OpsKeepIn(Do(r, ops[0]), ops[1..], n);
    }
  }

  lemma {:induction false} OpsKeepKeyed(r: Registry, ops: seq<Op>)
    requires Keyed(r)
    ensures Keyed(DoAll(r, ops))
    decreases |ops|
  {
    if ops != [] {
      OpsKeepKeyed(Do(r, ops[0]), ops[1..]);
    }
  }

  lemma VisitKeepsKeyed(s: Round, p: Polled, t: EventType, behave: Behaviour)
    requires Keyed(s.registry)
    ensures Keyed(Visit(s, p, t, behave).registry)
  {
    OpsKeepKeyed(s.registry, behave(|s.fired|));
  }

  /** Nothing that fired is forgotten, and n has neither fired since nor come back. */
  predicate NotSince(before: Round, after: Round, n: Notifier) {
    && before.fired <= after.fired && !Registered(after.registry, n)
    && forall i | |before.fired| <= i < |after.fired| :: after.fired[i] != n
  }

  lemma NotSinceTrans(a: Round, b: Round, c: Round, n: Notifier)
    requires NotSince(a, b, n) && NotSince(b, c, n)
    ensures NotSince(a, c, n)
  {
    assert forall i | |a.fired| <= i < |b.fired| :: c.fired[i] == b.fired[i];
  }

  lemma VisitNotSince(s: Round, p: Polled, t: EventType, behave: Behaviour, n: Notifier)
    requires !Registered(s.registry, n) && NeverAdds(behave, n) && Keyed(s.registry)
    ensures NotSince(s, Visit(s, p, t, behave), n)
  {
    OpsKeepOut(s.registry, behave(|s.fired|), n);
  }

  /** Once out of the registry, and not registered again, a notifier is neither activated for the rest of the round
      nor registered at its end, whatever the handlers do to the others. */
  lemma {:induction false} UnregisteredNeverFires(s: Round, polled: seq<Polled>, k: nat, behave: Behaviour, n: Notifier)
    requires k <= 3 && !Registered(s.registry, n) && NeverAdds(behave, n) && Keyed(s.registry)
    ensures NotSince(s, Process(s, polled, k, behave), n)
    decreases |polled|, 3 - k
  {
    if polled == [] {
    } else if k == 3 {
      UnregisteredNeverFires(s, polled[1..], 0, behave, n);
    } else {
      var next := Visit(s, polled[0], TypeAt(k), behave);
      VisitNotSince(s, polled[0], TypeAt(k), behave, n);
      VisitKeepsKeyed(s, polled[0], TypeAt(k), behave);
      hide Visit;
      UnregisteredNeverFires(next, polled, k + 1, behave, n);
      NotSinceTrans(s, next, Process(s, polled, k, behave), n);
    }
  }

  /** A notifier that a handler unregisters, and that nobody registers again, is not activated after that handler
      and not registered at the end of the round. j is the place of the handler in the round. */
  lemma {:induction false} DroppedNeverFires(
      s: Round, polled: seq<Polled>, k: nat, behave: Behaviour, n: Notifier, j: nat)
    requires k <= 3 && Keyed(s.registry) && NeverAdds(behave, n) && Drop(n) in behave(j)
    requires |s.fired| <= j < |Process(s, polled, k, behave).fired|
    ensures
      var after := Process(s, polled, k, behave);
      !Registered(after.registry, n) && forall i | j < i < |after.fired| :: after.fired[i] != n
    decreases |polled|, 3 - k
  {
    if k == 3 {
      DroppedNeverFires(s, polled[1..], 0, behave, n, j);
    } else {
      var next := Visit(s, polled[0], TypeAt(k), behave);
      VisitKeepsKeyed(s, polled[0], TypeAt(k), behave);
      if |next.fired| <= j {
        hide Visit;
        DroppedNeverFires(next, polled, k + 1, behave, n, j);
      } else {
        DroppedIsOut(s.registry, behave(j), n);
        assert |next.fired| == j + 1 && !Registered(next.registry, n);
        hide Visit;
        UnregisteredNeverFires(next, polled, k + 1, behave, n);
      }
    }
  }

  /** A notifier whose descriptor turns out to be invalid, and that nobody registers again, is not registered at the
      end of the round, and not activated. */
  lemma {:induction false} InvalidNeverFires(
      s: Round, polled: seq<Polled>, k: nat, behave: Behaviour, n: Notifier, i: nat)
    requires k <= 3 && Keyed(s.registry) && NeverAdds(behave, n) && DistinctFds(polled)
    requires i < |polled| && polled[i].fd == n.fd && polled[i].invalid && (i == 0 ==> k == 0)
    ensures NotSince(s, Process(s, polled, k, behave), n)
    decreases |polled|, 3 - k
  {
    if i == 0 {
      assert TypeAt(0) == Read && TypeAt(1) == Write && TypeAt(2) == Exception;
      InvalidVisits(s, polled, 0, behave, n);
    } else if k == 3 {
      InvalidNeverFires(s, polled[1..], 0, behave, n, i - 1);
    } else {
      var next := Visit(s, polled[0], TypeAt(k), behave);
      VisitKeepsKeyed(s, polled[0], TypeAt(k), behave);
      OtherVisit(s, polled[0], TypeAt(k), behave, n);
      hide Visit;
      InvalidNeverFires(next, polled, k + 1, behave, n, i);
      var after := Process(s, polled, k, behave);
      assert forall m | |s.fired| <= m < |next.fired| :: after.fired[m] == next.fired[m];
    }
  }

  /** A visit of another descriptor activates nothing of n's. */
  lemma OtherVisit(s: Round, p: Polled, t: EventType, behave: Behaviour, n: Notifier)
    requires Keyed(s.registry) && p.fd != n.fd
    ensures var next := Visit(s, p, t, behave);
      s.fired <= next.fired && forall i | |s.fired| <= i < |next.fired| :: next.fired[i] != n
  {
  }

  lemma InvalidVisit(s: Round, p: Polled, t: EventType, behave: Behaviour, n: Notifier)
    requires Keyed(s.registry) && p.invalid && p.fd == n.fd
    ensures var next := Visit(s, p, t, behave);
      && next.fired == s.fired && Keyed(next.registry)
      && (t == n.typ || !Registered(s.registry, n) ==> !Registered(next.registry, n))
  {
    if (p.fd, t) in s.registry {
      UnregisterRemoves(s.registry, s.registry[(p.fd, t)]);
    }
  }

  lemma {:induction false} InvalidVisits(s: Round, polled: seq<Polled>, k: nat, behave: Behaviour, n: Notifier)
    requires k <= 3 && Keyed(s.registry) && NeverAdds(behave, n)
    requires polled != [] && polled[0].fd == n.fd && polled[0].invalid
    requires (forall j | k <= j < 3 :: TypeAt(j) != n.typ) ==> !Registered(s.registry, n)
    ensures NotSince(s, Process(s, polled, k, behave), n)
    decreases 3 - k
  {
    if k == 3 {
      UnregisteredNeverFires(s, polled[1..], 0, behave, n);
    } else {
      var next := Visit(s, polled[0], TypeAt(k), behave);
      InvalidVisit(s, polled[0], TypeAt(k), behave, n);
      hide Visit;
      InvalidVisits(next, polled, k + 1, behave, n);
    }
  }

  predicate DistinctFds(polled: seq<Polled>) {
    forall i, j | 0 <= i < j < |polled| :: polled[i].fd != polled[j].fd
  }

  /** key is among the visits still to come, on a descriptor that is valid and has that event. */
  predicate Ready(polled: seq<Polled>, k: nat, key: (int, EventType)) {
    exists i | 0 <= i < |polled| ::
      && polled[i].fd == key.0 && !polled[i].invalid && key.1 in polled[i].events
      && (i == 0 ==> exists j | k <= j < 3 :: TypeAt(j) == key.1)
  }

  lemma ReadyLater(polled: seq<Polled>, key: (int, EventType))
    requires polled != [] && Ready(polled[1..], 0, key)
    ensures Ready(polled, 3, key)
  {
    var i :| 0 <= i < |polled| - 1 && polled[1..][i].fd == key.0 && !polled[1..][i].invalid && key.1 in polled[1..][i].events;
    assert polled[i + 1] == polled[1..][i];
  }

  /** The notifiers activated from here on were ready, and no two of them are for the same descriptor and event. */
  lemma {:induction false} FiresReadyOnce(s: Round, polled: seq<Polled>, k: nat, behave: Behaviour)
    requires k <= 3 && Keyed(s.registry) && DistinctFds(polled)
    ensures var fired := Process(s, polled, k, behave).fired;
      && s.fired <= fired
      && (forall i | |s.fired| <= i < |fired| :: Ready(polled, k, fired[i].Key()))
      && forall i, j | |s.fired| <= i < j < |fired| :: fired[i].Key() != fired[j].Key()
    decreases |polled|, 3 - k
  {
    if polled == [] {
    } else if k == 3 {
      FiresReadyOnce(s, polled[1..], 0, behave);
      var fired := Process(s, polled, k, behave).fired;
      forall i | |s.fired| <= i < |fired|
        ensures Ready(polled, 3, fired[i].Key())
      {
        ReadyLater(polled, fired[i].Key());
      }
    } else {
      var s' := Visit(s, polled[0], TypeAt(k), behave);
      VisitKeepsKeyed(s, polled[0], TypeAt(k), behave);
      FiresReadyOnce(s', polled, k + 1, behave);
      var fired := Process(s, polled, k, behave).fired;
      forall i | |s'.fired| <= i < |fired|
        ensures Ready(polled, k, fired[i].Key()) && fired[i].Key() != (polled[0].fd, TypeAt(k))
      {
        ReadyEarlier(polled, k, fired[i].Key());
      }
    }
  }

  lemma ReadyEarlier(polled: seq<Polled>, k: nat, key: (int, EventType))
    requires k < 3 && Ready(polled, k + 1, key) && DistinctFds(polled)
    ensures Ready(polled, k, key) && key != (polled[0].fd, TypeAt(k))
  {
  }

  /** A registered notifier that is ready is activated, unless a handler of the round unregisters it first. */
  lemma {:induction false} ReadyFires(s: Round, polled: seq<Polled>, k: nat, behave: Behaviour, n: Notifier)
    requires k <= 3 && Keyed(s.registry) && DistinctFds(polled)
    requires Registered(s.registry, n) && NeverDrops(behave, n) && Ready(polled, k, n.Key())
    ensures n in Process(s, polled, k, behave).fired
    decreases |polled|, 3 - k
  {
    FiresReadyOnce(s, polled, k, behave);
    if k == 3 {
      ReadyTail(polled, n.Key());
      ReadyFires(s, polled[1..], 0, behave, n);
    } else {
      var s' := Visit(s, polled[0], TypeAt(k), behave);
      VisitKeepsKeyed(s, polled[0], TypeAt(k), behave);
      FiresReadyOnce(s', polled, k + 1, behave);
      if n.Key() == (polled[0].fd, TypeAt(k)) {
        assert s'.fired[|s.fired|] == n;
      } else {
        OpsKeepIn(s.registry, behave(|s.fired|), n);
        ReadyNext(polled, k, n.Key());
        ReadyFires(s', polled, k + 1, behave, n);
      }
    }
  }

  lemma ReadyTail(polled: seq<Polled>, key: (int, EventType))
    requires Ready(polled, 3, key)
    ensures Ready(polled[1..], 0, key)
  {
    var i :| 0 < i < |polled| && polled[i].fd == key.0 && !polled[i].invalid && key.1 in polled[i].events;
    assert polled[1..][i - 1] == polled[i];
    assert TypeAt(0) == Read && TypeAt(1) == Write && TypeAt(2) == Exception;
  }

  lemma ReadyNext(polled: seq<Polled>, k: nat, key: (int, EventType))
    requires k < 3 && Ready(polled, k, key) && key != (polled[0].fd, TypeAt(k))
    ensures Ready(polled, k + 1, key)
  {
    var i :| 0 <= i < |polled| && polled[i].fd == key.0 && !polled[i].invalid && key.1 in polled[i].events
      && (i == 0 ==> exists j | k <= j < 3 :: TypeAt(j) == key.1);
    if i == 0 {
      var j :| k <= j < 3 && TypeAt(j) == key.1;
      assert k + 1 <= j < 3;
    }
  }

  // --- The order of a round.

  function Rank(t: EventType): nat {
    match t
    case Read => 0
    case Write => 1
    case Exception => 2
  }

  /** a is visited before b: on an earlier descriptor, or on the same one as reading before writing before exceptions. */
  predicate VisitedBefore(polled: seq<Polled>, a: (int, EventType), b: (int, EventType)) {
    exists i, j | 0 <= i <= j < |polled| ::
      polled[i].fd == a.0 && polled[j].fd == b.0 && (i == j ==> Rank(a.1) < Rank(b.1))
  }

  /** Notifiers are activated in the order in which poll() lists their descriptors, and for one descriptor in that of
      the types. */
  lemma {:induction false} FiresInOrder(s: Round, polled: seq<Polled>, k: nat, behave: Behaviour)
    requires k <= 3 && Keyed(s.registry) && DistinctFds(polled)
    ensures
      var fired := Process(s, polled, k, behave).fired;
      && s.fired <= fired
      && forall i, j | |s.fired| <= i < j < |fired| :: VisitedBefore(polled, fired[i].Key(), fired[j].Key())
    decreases |polled|, 3 - k
  {
    FiresReadyOnce(s, polled, k, behave);
    if polled == [] {
    } else if k == 3 {
      FiresInOrder(s, polled[1..], 0, behave);
      var fired := Process(s, polled, k, behave).fired;
      forall i, j | |s.fired| <= i < j < |fired|
        ensures VisitedBefore(polled, fired[i].Key(), fired[j].Key())
      {
        VisitedLater(polled, fired[i].Key(), fired[j].Key());
      }
    } else {
      var next := Visit(s, polled[0], TypeAt(k), behave);
      VisitKeepsKeyed(s, polled[0], TypeAt(k), behave);
      FiresInOrder(next, polled, k + 1, behave);
      FiresReadyOnce(next, polled, k + 1, behave);
      var fired := Process(s, polled, k, behave).fired;
      forall i, j | |s.fired| <= i < j < |fired|
        ensures VisitedBefore(polled, fired[i].Key(), fired[j].Key())
      {
        if i < |next.fired| {
          assert next.fired[i].Key() == (polled[0].fd, TypeAt(k)) && fired[i] == next.fired[i];
          FirstVisited(polled, k, fired[j].Key());
        }
      }
    }
  }

  lemma VisitedLater(polled: seq<Polled>, a: (int, EventType), b: (int, EventType))
    requires polled != [] && VisitedBefore(polled[1..], a, b)
    ensures VisitedBefore(polled, a, b)
  {
    var i, j :| 0 <= i <= j < |polled| - 1 && polled[1..][i].fd == a.0 && polled[1..][j].fd == b.0
      && (i == j ==> Rank(a.1) < Rank(b.1));
    assert polled[i + 1].fd == a.0 && polled[j + 1].fd == b.0;
  }

  lemma FirstVisited(polled: seq<Polled>, k: nat, key: (int, EventType))
    requires k < 3 && Ready(polled, k + 1, key)
    ensures VisitedBefore(polled, (polled[0].fd, TypeAt(k)), key)
  {
    var i :| 0 <= i < |polled| && polled[i].fd == key.0
      && (i == 0 ==> exists j | k + 1 <= j < 3 :: TypeAt(j) == key.1);
    assert polled[0].fd == polled[0].fd;
    if i == 0 {
      var j :| k + 1 <= j < 3 && TypeAt(j) == key.1;
      assert Rank(TypeAt(k)) == k && Rank(TypeAt(j)) == j;
    }
  }
}
