/** Media devices and V4L2 nodes arriving in any order: the bookkeeping on values, and its closed form. */
module DeviceArrival {
  /** A device number as major and minor. */
  type DevNum = (nat, nat)

  const NO_DEVICE: DevNum := (0, 0)

  datatype Entity = Entity(id: nat, dev: DevNum)

  datatype Media = Media(id: nat, entities: seq<Entity>)

  type Deps = map<DevNum, seq<Entity>>

  /** nodes records for which device number an entity's node was set. */
  datatype State = State(
    orphans: set<DevNum>,
    pending: map<Media, Deps>,
    devMap: map<DevNum, Media>,
    devices: seq<Media>,
    nodes: map<Entity, DevNum>)

  const START := State({}, map[], map[], [], map[])

  function DevsOf(es: seq<Entity>): set<DevNum> {
    set e <- es | e.dev != NO_DEVICE :: e.dev
  }

  function Devs(m: Media): set<DevNum> {
    DevsOf(m.entities)
  }

  /** The entities that use device d, in order. */
  function UsersOf(es: seq<Entity>, d: DevNum): seq<Entity> {
    if es == [] then []
    else
      var n := |es| - 1;
      UsersOf(es[..n], d) + if es[n].dev == d then [es[n]] else []
  }

  function Group(es: seq<Entity>, ds: set<DevNum>): Deps {
    map d | d in ds :: UsersOf(es, d)
  }

  /** The entities among es whose device is in ds. */
  function Nodes(es: seq<Entity>, ds: set<DevNum>): map<Entity, DevNum> {
    map e | e in es && e.dev != NO_DEVICE && e.dev in ds :: e.dev
  }

  /** populateMediaDevice(), and addDevice() when nothing is missing. */
  function AddMedia(s: State, m: Media): State {
    var unmet := Devs(m) - s.orphans;
    var s1 := s.(orphans := s.orphans - Devs(m), nodes := s.nodes + Nodes(m.entities, s.orphans));
    if unmet == {} then s1.(devices := s.devices + [m])
    else s1.(pending := s.pending[m := Group(m.entities, unmet)],
             devMap := s.devMap + map d | d in unmet :: m)
  }

  /** addV4L2Device(). */
  function AddV4L2(s: State, d: DevNum): State
    requires d in s.devMap ==> s.devMap[d] in s.pending && d in s.pending[s.devMap[d]]
  {
    if d !in s.devMap then s.(orphans := s.orphans + {d})
    else
      var m := s.devMap[d];
      var deps := s.pending[m] - {d};
      var s1 := s.(nodes := s.nodes + Nodes(s.pending[m][d], {d}));
      if deps == map[] then s1.(devices := s.devices + [m], pending := s.pending - {m})
      else s1.(pending := s.pending[m := deps])
  }

  // --- The closed form: everything as a function of the sets of arrivals so far.

  predicate Owned(ms: set<Media>, d: DevNum) {
    exists m <- ms :: d in Devs(m)
  }

  predicate Complete(m: Media, vs: set<DevNum>) {
    Devs(m) <= vs
  }

  /** Distinct media devices use distinct device numbers and entities. */
  predicate Apart(ms: set<Media>) {
    && (forall m <- ms, m' <- ms, d <- Devs(m) :: d in Devs(m') ==> m == m')
    && forall m <- ms, m' <- ms, e <- m.entities :: e in m'.entities ==> m == m'
  }

  function Orphans(ms: set<Media>, vs: set<DevNum>): set<DevNum> {
    set d <- vs | !Owned(ms, d)
  }

  function Pending(ms: set<Media>, vs: set<DevNum>): map<Media, Deps> {
    map m | m in ms && !Complete(m, vs) :: Group(m.entities, Devs(m) - vs)
  }

  function Added(ms: set<Media>, vs: set<DevNum>): set<Media> {
    set m <- ms | Complete(m, vs)
  }

  /** d is still awaited, by m. */
  predicate Awaited(ms: set<Media>, vs: set<DevNum>, d: DevNum, m: Media) {
    m in ms && d in Devs(m) && d !in vs
  }

  function Elements<T>(s: seq<T>): set<T> {
    set x <- s
  }

  predicate Once<T(==)>(s: seq<T>) {
    forall i, j | 0 <= i < j < |s| :: s[i] != s[j]
  }

  ghost predicate Matches(s: State, ms: set<Media>, vs: set<DevNum>) {
    && s.orphans == Orphans(ms, vs)
    && s.pending == Pending(ms, vs)
    && Elements(s.devices) == Added(ms, vs) && Once(s.devices)
    && DevMapMatches(s.devMap, ms, vs)
    && NodesMatch(s.nodes, ms, vs)
  }

  datatype Event = MediaArrives(m: Media) | NodeArrives(d: DevNum)

  function MediaIn(es: seq<Event>): set<Media> {
    set e <- es | e.MediaArrives? :: e.m
  }

  function NodesIn(es: seq<Event>): set<DevNum> {
    set e <- es | e.NodeArrives? :: e.d
  }

  /** Each device arrives once, and no two media devices share anything. */
  predicate Arrivals(es: seq<Event>) {
    Once(es) && Apart(MediaIn(es)) && NO_DEVICE !in NodesIn(es)
  }

  // --- Each arrival keeps the match.

  lemma {:induction false} UsersAre(es: seq<Entity>, d: DevNum)
    ensures forall e :: e in UsersOf(es, d) <==> e in es && e.dev == d
  {
    if es != [] {
      UsersAre(es[..|es| - 1], d);
      assert es == es[..|es| - 1] + [es[|es| - 1]];
    }
  }

  /** A newcomer's devices belong to no one else. */
  lemma NewcomerApart(ms: set<Media>, m: Media, d: DevNum)
    requires Apart(ms + {m}) && m !in ms && d in Devs(m)
    ensures !Owned(ms, d)
  {
    forall m' | m' in ms
      ensures d !in Devs(m')
    {
      assert m' in ms + {m} && m in ms + {m};
      assert d in Devs(m') ==> m' == m;
    }
  }

  lemma OwnedAdd(ms: set<Media>, m: Media, d: DevNum)
    ensures Owned(ms + {m}, d) <==> Owned(ms, d) || d in Devs(m)
  {
    hide Devs;
    if Owned(ms, d) {
      var m' :| m' in ms && d in Devs(m');
      assert m' in ms + {m};
    }
    assert m in ms + {m};
  }

  lemma MediaOrphans(ms: set<Media>, vs: set<DevNum>, m: Media)
    requires Apart(ms + {m}) && m !in ms
    ensures Devs(m) - Orphans(ms, vs) == Devs(m) - vs
    ensures Orphans(ms + {m}, vs) == Orphans(ms, vs) - Devs(m)
    ensures Nodes(m.entities, Orphans(ms, vs)) == Nodes(m.entities, vs)
  {
    hide Apart, Owned;
    forall d | d in Devs(m)
      ensures !Owned(ms, d)
    {
      NewcomerApart(ms, m, d);
    }
    forall d
      ensures Owned(ms + {m}, d) <==> Owned(ms, d) || d in Devs(m)
    {
      OwnedAdd(ms, m, d);
    }
    forall e | e in m.entities && e.dev != NO_DEVICE
      ensures e.dev in Orphans(ms, vs) <==> e.dev in vs
    {
      assert e.dev in Devs(m);
    }
  }

  lemma AddedOnce(s: seq<Media>, m: Media)
    requires Once(s)
    ensures Elements(s + [m]) == Elements(s) + {m}
    ensures m !in Elements(s) ==> Once(s + [m])
  {
  }

  /** The three parts of a match that are about lookups. */
  ghost predicate DevMapMatches(devMap: map<DevNum, Media>, ms: set<Media>, vs: set<DevNum>) {
    && (forall d <- devMap :: devMap[d] in ms && d in Devs(devMap[d]))
    && forall d, m | Awaited(ms, vs, d, m) :: d in devMap && devMap[d] == m
  }

  ghost predicate NodesMatch(nodes: map<Entity, DevNum>, ms: set<Media>, vs: set<DevNum>) {
    && (forall e :: e in nodes <==> exists m <- ms :: e in Nodes(m.entities, vs))
    && forall e <- nodes :: nodes[e] == e.dev
  }

  lemma AddMediaDevMap(devMap: map<DevNum, Media>, ms: set<Media>, vs: set<DevNum>, m: Media)
    requires DevMapMatches(devMap, ms, vs) && m !in ms && Apart(ms + {m})
    ensures DevMapMatches(devMap + (map d | d in Devs(m) - vs :: m), ms + {m}, vs)
  {
    var devMap', ms' := devMap + (map d | d in Devs(m) - vs :: m), ms + {m};
    forall d, m' | Awaited(ms', vs, d, m')
      ensures d in devMap' && devMap'[d] == m'
    {
      if m' != m {
        assert Awaited(ms, vs, d, m');
        assert d in Devs(m) ==> m' == m;
      }
    }
  }

  lemma AddMediaNodes(nodes: map<Entity, DevNum>, ms: set<Media>, vs: set<DevNum>, m: Media)
    requires NodesMatch(nodes, ms, vs)
    ensures NodesMatch(nodes + Nodes(m.entities, vs), ms + {m}, vs)
  {
    var nodes', ms' := nodes + Nodes(m.entities, vs), ms + {m};
    forall e
      ensures e in nodes' <==> exists m' <- ms' :: e in Nodes(m'.entities, vs)
    {
      if e in nodes {
        var m' :| m' in ms && e in Nodes(m'.entities, vs);
        assert m' in ms';
      }
      assert m in ms';
    }
  }

  lemma NothingMissing(ds: set<DevNum>, vs: set<DevNum>)
    ensures ds - vs == {} <==> ds <= vs
  {
    forall d | d in ds
      ensures d in vs || d in ds - vs
    {
    }
  }

  lemma AddMediaSets(ms: set<Media>, vs: set<DevNum>, m: Media)
    requires m !in ms
    ensures m !in Added(ms, vs)
    ensures Added(ms + {m}, vs) == if Devs(m) - vs == {} then Added(ms, vs) + {m} else Added(ms, vs)
    ensures Pending(ms + {m}, vs) == if Devs(m) - vs == {} then Pending(ms, vs)
                                     else Pending(ms, vs)[m := Group(m.entities, Devs(m) - vs)]
  {
    NothingMissing(Devs(m), vs);
    hide Group, Devs;
  }

  lemma AddMediaMatches(s: State, ms: set<Media>, vs: set<DevNum>, m: Media)
    requires Matches(s, ms, vs) && m !in ms && Apart(ms + {m})
    ensures Matches(AddMedia(s, m), ms + {m}, vs)
  {
    hide Nodes, Orphans, Apart, DevMapMatches, NodesMatch, Owned, Group, Devs, Pending, Added, Elements, Once;
    MediaOrphans(ms, vs, m);
    AddMediaDevMap(s.devMap, ms, vs, m);
    AddMediaNodes(s.nodes, ms, vs, m);
    AddedOnce(s.devices, m);
    AddMediaSets(ms, vs, m);
    if Devs(m) - vs == {} {
      assert s.devMap + (map d | d in Devs(m) - vs :: m) == s.devMap;
    }
  }

  // --- A node arrives.

  lemma OrphansAdd(ms: set<Media>, vs: set<DevNum>, d: DevNum)
    ensures Orphans(ms, vs + {d}) == if Owned(ms, d) then Orphans(ms, vs) else Orphans(ms, vs) + {d}
  {
    hide Owned;
  }

  lemma OwnerUnique(ms: set<Media>, d: DevNum, m: Media, m': Media)
    requires Apart(ms) && m in ms && m' in ms && d in Devs(m) && d in Devs(m')
    ensures m == m'
  {
  }

  lemma OthersAdd(ms: set<Media>, vs: set<DevNum>, d: DevNum, m: Media, m': Media)
    requires Apart(ms) && m in ms && d in Devs(m) && m' in ms && m' != m
    ensures Devs(m') - (vs + {d}) == Devs(m') - vs && (Complete(m', vs + {d}) <==> Complete(m', vs))
  {
    if d in Devs(m') {
      OwnerUnique(ms, d, m, m');
    }
  }

  /** Only the owner's dependencies change. */
  lemma PendingAdd(ms: set<Media>, vs: set<DevNum>, d: DevNum, m: Media)
    requires Apart(ms) && m in ms && d in Devs(m) && d !in vs
    ensures Pending(ms, vs + {d})
         == if Complete(m, vs + {d}) then Pending(ms, vs) - {m}
            else Pending(ms, vs)[m := Group(m.entities, Devs(m) - vs - {d})]
  {
    var vs' := vs + {d};
    forall m' | m' in ms && m' != m
      ensures Devs(m') - vs' == Devs(m') - vs && (Complete(m', vs') <==> Complete(m', vs))
    {
      OthersAdd(ms, vs, d, m, m');
    }
    assert Devs(m) - vs' == Devs(m) - vs - {d};
    assert !Complete(m, vs);
    hide Group, Apart, Devs, Complete;
    forall m' | m' in ms && m' != m
      ensures (m' in Pending(ms, vs') <==> m' in Pending(ms, vs))
      ensures m' in Pending(ms, vs) ==> Pending(ms, vs')[m'] == Pending(ms, vs)[m']
    {
      assert m' in Pending(ms, vs) ==> Pending(ms, vs')[m'] == Group(m'.entities, Devs(m') - vs');
    }
    assert m in Pending(ms, vs') <==> !Complete(m, vs');
    assert m in Pending(ms, vs') ==> Pending(ms, vs')[m] == Group(m.entities, Devs(m) - vs');
    hide Pending;
    PendingMembers(ms, vs);
    PendingMembers(ms, vs');
  }

  lemma PendingMembers(ms: set<Media>, vs: set<DevNum>)
    ensures Pending(ms, vs).Keys <= ms
  {
  }

  lemma AddedAdd(ms: set<Media>, vs: set<DevNum>, d: DevNum, m: Media)
    requires Apart(ms) && m in ms && d in Devs(m) && d !in vs
    ensures Added(ms, vs + {d}) == if Complete(m, vs + {d}) then Added(ms, vs) + {m} else Added(ms, vs)
    ensures m !in Added(ms, vs)
  {
    forall m' | m' in ms && m' != m
      ensures Complete(m', vs + {d}) <==> Complete(m', vs)
    {
      OthersAdd(ms, vs, d, m, m');
    }
    assert !Complete(m, vs);
    hide Apart, Devs, Complete;
  }

  lemma UnownedAdd(ms: set<Media>, vs: set<DevNum>, d: DevNum)
    requires !Owned(ms, d)
    ensures Pending(ms, vs + {d}) == Pending(ms, vs) && Added(ms, vs + {d}) == Added(ms, vs)
  {
    forall m | m in ms
      ensures Devs(m) - (vs + {d}) == Devs(m) - vs && (Complete(m, vs + {d}) <==> Complete(m, vs))
    {
    }
    hide Group, Devs;
  }

  lemma AddNodeDevMap(devMap: map<DevNum, Media>, ms: set<Media>, vs: set<DevNum>, d: DevNum)
    requires DevMapMatches(devMap, ms, vs)
    ensures DevMapMatches(devMap, ms, vs + {d})
  {
    forall d', m | Awaited(ms, vs + {d}, d', m)
      ensures Awaited(ms, vs, d', m)
    {
    }
  }

  lemma AddNodeNodes(nodes: map<Entity, DevNum>, ms: set<Media>, vs: set<DevNum>, d: DevNum, m: Media)
    requires NodesMatch(nodes, ms, vs) && Apart(ms) && m in ms && d in Devs(m)
    ensures NodesMatch(nodes + Nodes(UsersOf(m.entities, d), {d}), ms, vs + {d})
  {
    UsersAre(m.entities, d);
    var more := Nodes(UsersOf(m.entities, d), {d});
    forall e
      ensures e in nodes + more <==> exists m' <- ms :: e in Nodes(m'.entities, vs + {d})
    {
      if e in nodes {
        var m' :| m' in ms && e in Nodes(m'.entities, vs);
        assert e in Nodes(m'.entities, vs + {d});
      }
      if e in more {
        assert e in Nodes(m.entities, vs + {d});
      }
      if m' :| m' in ms && e in Nodes(m'.entities, vs + {d}) {
        if e.dev in vs {
          assert e in Nodes(m'.entities, vs);
        } else {
          assert e.dev == d && d in Devs(m');
          OwnerUnique(ms, d, m, m');
        }
      }
    }
  }

  lemma UnownedNodes(nodes: map<Entity, DevNum>, ms: set<Media>, vs: set<DevNum>, d: DevNum)
    requires NodesMatch(nodes, ms, vs) && !Owned(ms, d)
    ensures NodesMatch(nodes, ms, vs + {d})
  {
    forall m | m in ms
      ensures Nodes(m.entities, vs + {d}) == Nodes(m.entities, vs)
    {
      assert forall e <- m.entities :: e.dev != NO_DEVICE ==> e.dev in Devs(m);
    }
    hide Nodes;
  }

  lemma OwnedNode(s: State, ms: set<Media>, vs: set<DevNum>, d: DevNum, m: Media)
    requires Matches(s, ms, vs) && Apart(ms) && m in ms && d in Devs(m) && d !in vs
    ensures d in s.devMap && s.devMap[d] == m && m in s.pending && d in s.pending[m]
    ensures s.pending[m] == Group(m.entities, Devs(m) - vs) && s.pending[m][d] == UsersOf(m.entities, d)
  {
    assert Awaited(ms, vs, d, m) && d in Devs(m) - vs;
    hide Orphans, NodesMatch, Apart, Added, Elements, Once, Devs;
  }

  lemma UnownedNode(s: State, ms: set<Media>, vs: set<DevNum>, d: DevNum)
    requires Matches(s, ms, vs) && !Owned(ms, d)
    ensures d !in s.devMap
  {
    hide Orphans, NodesMatch, Pending, Added, Elements, Once, Devs;
  }

  lemma AddV4L2Matches(s: State, ms: set<Media>, vs: set<DevNum>, d: DevNum)
    requires Matches(s, ms, vs) && d !in vs && Apart(ms)
    ensures d in s.devMap ==> s.devMap[d] in s.pending && d in s.pending[s.devMap[d]]
    ensures Matches(AddV4L2(s, d), ms, vs + {d})
  {
    OrphansAdd(ms, vs, d);
    AddNodeDevMap(s.devMap, ms, vs, d);
    if Owned(ms, d) {
      var m :| m in ms && d in Devs(m);
      OwnedNode(s, ms, vs, d, m);
      PendingAdd(ms, vs, d, m);
      AddedAdd(ms, vs, d, m);
      AddNodeNodes(s.nodes, ms, vs, d, m);
      hide Nodes, Orphans, Apart, DevMapMatches, NodesMatch, Group, Devs, Pending, Added, Elements, Once;
      AddedOnce(s.devices, m);
      GroupMinus(m.entities, Devs(m) - vs, d);
      GroupMinus(m.entities, Devs(m) - vs - {d}, d);
      StillMissing(Devs(m), vs, d);
    } else {
      UnownedNode(s, ms, vs, d);
      hide Nodes, Orphans, Apart, DevMapMatches, NodesMatch, Group, Devs, Pending, Added, Elements, Once;
      UnownedAdd(ms, vs, d);
      UnownedNodes(s.nodes, ms, vs, d);
    }
  }

  lemma StillMissing(ds: set<DevNum>, vs: set<DevNum>, d: DevNum)
    ensures ds - vs - {d} == {} <==> ds <= vs + {d}
  {
    NothingMissing(ds, vs + {d});
    assert ds - (vs + {d}) == ds - vs - {d};
  }

  lemma GroupMinus(es: seq<Entity>, ds: set<DevNum>, d: DevNum)
    ensures Group(es, ds) - {d} == Group(es, ds - {d})
    ensures Group(es, ds) == map[] <==> ds == {}
  {
    assert Group(es, ds).Keys == ds;
  }

  // --- Whole runs.

  lemma ArrivalsPrefix(es: seq<Event>)
    requires Arrivals(es) && es != []
    ensures var n := |es| - 1;
      && Arrivals(es[..n])
      && (es[n].MediaArrives? ==>
            && MediaIn(es) == MediaIn(es[..n]) + {es[n].m} && NodesIn(es) == NodesIn(es[..n])
            && es[n].m !in MediaIn(es[..n]))
      && (es[n].NodeArrives? ==>
            && NodesIn(es) == NodesIn(es[..n]) + {es[n].d} && MediaIn(es) == MediaIn(es[..n])
            && es[n].d !in NodesIn(es[..n]))
  {
    var n := |es| - 1;
    assert es == es[..n] + [es[n]];
    assert MediaIn(es[..n]) <= MediaIn(es);
    hide Devs;
  }

  function Step(s: State, e: Event): State
    requires e.NodeArrives? && e.d in s.devMap ==> s.devMap[e.d] in s.pending && e.d in s.pending[s.devMap[e.d]]
  {
    match e
    case MediaArrives(m) => AddMedia(s, m)
    case NodeArrives(d) => AddV4L2(s, d)
  }

  lemma StartMatches()
    ensures Matches(START, {}, {})
  {
  }

  lemma StepMatches(s: State, es: seq<Event>)
    requires es != [] && Arrivals(es) && Matches(s, MediaIn(es[..|es| - 1]), NodesIn(es[..|es| - 1]))
    ensures var e := es[|es| - 1];
      && (e.NodeArrives? && e.d in s.devMap ==> s.devMap[e.d] in s.pending && e.d in s.pending[s.devMap[e.d]])
      && Matches(Step(s, e), MediaIn(es), NodesIn(es))
  {
    var n := |es| - 1;
    ArrivalsPrefix(es);
    var ms, vs := MediaIn(es[..n]), NodesIn(es[..n]);
    hide Matches, AddMedia, AddV4L2, MediaIn, NodesIn, Once;
    match es[n]
    case MediaArrives(m) => AddMediaMatches(s, ms, vs, m);
    case NodeArrives(d) => AddV4L2Matches(s, ms, vs, d);
  }

  /** The state after any sequence of arrivals is the closed form of the sets of arrivals; the dependency pointer
      looked up for a node is then always one that is still pending. */
  ghost function Run(es: seq<Event>): (s: State)
    requires Arrivals(es)
    ensures Matches(s, MediaIn(es), NodesIn(es))
  {
    if es == [] then
      StartMatches();
      START
    else
      ArrivalsPrefix(es);
      StepMatches(Run(es[..|es| - 1]), es);
      Step(Run(es[..|es| - 1]), es[|es| - 1])
  }

  /** Any two orders of the same arrivals end alike. */
  lemma OrderDoesNotMatter(es: seq<Event>, es': seq<Event>)
    requires Arrivals(es) && Arrivals(es') && Elements(es) == Elements(es')
    ensures var s, s' := Run(es), Run(es');
      && s.orphans == s'.orphans && s.pending == s'.pending && s.nodes == s'.nodes
      && Elements(s.devices) == Elements(s'.devices) && |s.devices| == |s'.devices|
      && forall d, m :: Awaited(MediaIn(es), NodesIn(es), d, m) ==>
           d in s.devMap && d in s'.devMap && s.devMap[d] == s'.devMap[d] == m
  {
    assert MediaIn(es) == MediaIn(es') && NodesIn(es) == NodesIn(es') by {
      forall e
        ensures e in es <==> e in es'
      {
        assert e in Elements(es) <==> e in Elements(es');
      }
    }
    var s, s' := Run(es), Run(es');
    OnceLength(s.devices);
    OnceLength(s'.devices);
    hide Run;
    SameNodes(s.nodes, s'.nodes, MediaIn(es), NodesIn(es));
  }

  lemma SameNodes(a: map<Entity, DevNum>, b: map<Entity, DevNum>, ms: set<Media>, vs: set<DevNum>)
    requires NodesMatch(a, ms, vs) && NodesMatch(b, ms, vs)
    ensures a == b
  {
    hide Nodes;
    forall e
      ensures e in a <==> e in b
    {
    }
    assert forall e <- a :: a[e] == e.dev == b[e];
  }

  lemma {:induction false} OnceLength<T>(s: seq<T>)
    requires Once(s)
    ensures |s| == |Elements(s)|
  {
    if s != [] {
      var n := |s| - 1;
      OnceLength(s[..n]);
      assert s == s[..n] + [s[n]];
      assert Elements(s) == Elements(s[..n]) + {s[n]};
    }
  }

  /** A media device is handed over by the very arrival that completes it, and by no other. */
  lemma AddedByLastArrival(es: seq<Event>, e: Event, m: Media)
    requires Arrivals(es + [e])
    ensures Arrivals(es)
    ensures var before, after := Run(es).devices, Run(es + [e]).devices;
      && before <= after && |after| <= |before| + 1
      && (m in after <==> m in MediaIn(es + [e]) && Complete(m, NodesIn(es + [e])))
      && (m in before <==> m in MediaIn(es) && Complete(m, NodesIn(es)))
  {
    hide Orphans, Pending, DevMapMatches, NodesMatch, Devs, Group, Nodes;
    var all := es + [e];
    assert all[..|all| - 1] == es && all[|all| - 1] == e;
    ArrivalsPrefix(all);
    var s := Run(es);
    StepMatches(s, all);
    hide Arrivals, MediaIn, NodesIn;
    assert Run(es + [e]) == Step(s, e);
    assert m in Elements(s.devices) <==> m in s.devices;
    assert m in Elements(Step(s, e).devices) <==> m in Step(s, e).devices;
    assert Matches(Step(s, e), MediaIn(es + [e]), NodesIn(es + [e]));
  }
}
