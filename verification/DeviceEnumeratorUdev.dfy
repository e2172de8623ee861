/** The udev enumerator's two arrival handlers, against the bookkeeping of DeviceArrival. */
module DeviceEnumeratorUdev {
  import opened DeviceArrival

  const EINVAL: int := 22

  /** What udev and the file system answer: the path of a device node, empty when the lookup
      fails, and the errno of access() on a path, zero when it succeeds. */
  datatype Env = Env(node: DevNum -> string, access: string -> nat)
  {
    predicate Works(d: DevNum) {
      node(d) != "" && access(node(d)) == 0
    }

    /** Looking up a device node and setting it as that of an entity. */
    function Error(d: DevNum): int {
      if node(d) == "" then -EINVAL else -(access(node(d)) as int)
    }

    /** The first error for the entities that find their device among the orphans. */
    function FirstError(es: seq<Entity>, orphans: set<DevNum>): int {
      if es == [] then 0
      else
        var n := |es| - 1;
        var first := FirstError(es[..n], orphans);
        if first == 0 && es[n].dev != NO_DEVICE && es[n].dev in orphans then Error(es[n].dev) else first
    }
  }

  lemma FirstErrorAppend(env: Env, es: seq<Entity>, e: Entity, orphans: set<DevNum>)
    ensures
      var first := env.FirstError(es, orphans);
      env.FirstError(es + [e], orphans)
      == if first == 0 && e.dev != NO_DEVICE && e.dev in orphans then env.Error(e.dev) else first
  {
    assert (es + [e])[..|es|] == es;
  }

  /** The node of an entity is asked for, and cannot be had. */
  predicate Fails(env: Env, e: Entity, orphans: set<DevNum>) {
    e.dev != NO_DEVICE && e.dev in orphans && !env.Works(e.dev)
  }

  /** The error is that of the first entity that fails: a missing node, or the negated error of access(). */
  lemma {:induction false} FirstErrorIs(env: Env, es: seq<Entity>, orphans: set<DevNum>)
    ensures env.FirstError(es, orphans) == 0 <==> forall i | 0 <= i < |es| :: !Fails(env, es[i], orphans)
    ensures forall i | 0 <= i < |es| && Fails(env, es[i], orphans) && (forall j | 0 <= j < i :: !Fails(env, es[j], orphans)) ::
      env.FirstError(es, orphans) == if env.node(es[i].dev) == "" then -EINVAL else -(env.access(env.node(es[i].dev)) as int)
    decreases |es|
  {
    if es != [] {
      var n := |es| - 1;
      FirstErrorIs(env, es[..n], orphans);
      assert env.FirstError(es, orphans)
        == (if env.FirstError(es[..n], orphans) == 0 && es[n].dev != NO_DEVICE && es[n].dev in orphans then env.Error(es[n].dev)
            else env.FirstError(es[..n], orphans));
      assert forall i | 0 <= i < n :: es[..n][i] == es[i];
      if env.FirstError(es[..n], orphans) == 0 {
        assert forall i | 0 <= i < n :: !Fails(env, es[i], orphans);
      }
    }
  }

  /** The first error of a longer list is that of its beginning, if that has one. */
  lemma {:induction false} FirstErrorStays(env: Env, es: seq<Entity>, k: nat, orphans: set<DevNum>)
    requires k <= |es| && env.FirstError(es[..k], orphans) != 0
    ensures env.FirstError(es, orphans) == env.FirstError(es[..k], orphans)
    decreases |es|
  {
    if k < |es| {
      assert es[..|es| - 1][..k] == es[..k];
      FirstErrorStays(env, es[..|es| - 1], k, orphans);
    } else {
      assert es[..k] == es;
    }
  }

  /** No error where every lookup and every access works; and an error is negative. */
  lemma {:induction false} NoError(env: Env, es: seq<Entity>, orphans: set<DevNum>)
    ensures (forall e <- es :: e.dev != NO_DEVICE ==> env.Works(e.dev)) ==> env.FirstError(es, orphans) == 0
    ensures env.FirstError(es, orphans) <= 0
    decreases |es|
  {
    if es != [] {
      NoError(env, es[..|es| - 1], orphans);
    }
  }

  ghost predicate Filed(deps: Deps) {
    forall d <- deps :: d != NO_DEVICE && forall e <- deps[d] :: e.dev == d
  }

  class Enumerator {
    var orphans: set<DevNum>
    var pending: map<Media, Deps>
    var devMap: map<DevNum, Media>
    var devices: seq<Media>
    var nodes: map<Entity, DevNum>

    function View(): State
      reads this
    {
      State(orphans, pending, devMap, devices, nodes)
    }

    /** Dependencies are filed under their own device number. */
    ghost predicate Valid()
      reads this
    {
      forall m <- pending :: Filed(pending[m])
    }

    constructor ()
      ensures Valid() && View() == START
    {
      orphans, pending, devMap, devices, nodes := {}, map[], map[], [], map[];
    }

    /** The loop over the entities: nodes for those whose device is an orphan, dependencies for the others. */
    method Associate(m: Media, env: Env) returns (ret: int, children: set<DevNum>, deps: Deps)
      modifies this`nodes
      ensures ret == env.FirstError(m.entities, orphans)
      ensures ret == 0 ==>
        && nodes == old(nodes) + Nodes(m.entities, orphans)
        && children == Devs(m) * orphans && deps == Group(m.entities, Devs(m) - orphans)
    {
      hide Nodes, Group, DevsOf, Env.Error, Env.FirstError;
      var es := m.entities;
      ret, children, deps := 0, {}, map[];
      NoEntities(orphans);
      assert {} - orphans == {};
      assert env.FirstError([], orphans) == 0 by { NoError(env, [], orphans); }
      for i := 0 to |es|
        invariant es[..0] == [] && env.FirstError(es[..i], orphans) == 0
        invariant children == DevsOf(es[..i]) * orphans
        invariant deps == Group(es[..i], DevsOf(es[..i]) - orphans)
        invariant nodes == old(nodes) + Nodes(es[..i], orphans)
      {
        var e := es[i];
        assert es[..i + 1] == es[..i] + [e];
        DevsAppend(es[..i], e);
        GroupAppend(es[..i], e, orphans);
        NodesAppend(es[..i], e, orphans);
        FirstErrorAppend(env, es[..i], e, orphans);
        if e.dev == NO_DEVICE {
          continue;
        }
        if e.dev !in orphans {
          deps := deps[e.dev := (if e.dev in deps then deps[e.dev] else []) + [e]];
          continue;
        }
        ret := SetNode(e, env);
        if ret != 0 {
          FirstErrorStays(env, es, i + 1, orphans);
          return;
        }
        children := children + {e.dev};
      }
      assert es[..|es|] == es;
    }

    /** lookupDeviceNode() and setDeviceNode(). */
    method SetNode(e: Entity, env: Env) returns (ret: int)
      modifies this`nodes
      ensures ret == env.Error(e.dev)
      ensures ret == if env.node(e.dev) == "" then -EINVAL else -(env.access(env.node(e.dev)) as int)
      ensures nodes == if ret == 0 then old(nodes)[e := e.dev] else old(nodes)
    {
      var node := env.node(e.dev);
      if node == "" { return -EINVAL; }
      var errno := env.access(node);
      if errno != 0 { return -(errno as int); }
      nodes := nodes[e := e.dev];
      ret := 0;
    }

    method PopulateMediaDevice(m: Media, env: Env) returns (ret: int)
      requires Valid()
      modifies this
      ensures Valid()
      ensures
        var error, unmet := env.FirstError(m.entities, old(orphans)), Devs(m) - old(orphans);
        if error == 0 then ret == |unmet| && View() == AddMedia(old(View()), m).(devices := old(devices))
        else ret == error < 0 && View() == old(View()).(nodes := nodes)
    {
      hide Nodes, Group, DevsOf, Env.FirstError;
      NoError(env, m.entities, orphans);
      var children, deps;
      ret, children, deps := Associate(m, env);
      if ret != 0 { return; }
      assert orphans - children == orphans - Devs(m);
      orphans := orphans - children;
      GroupKeys(m.entities, Devs(m) - old(orphans));
      GroupFiled(m.entities, Devs(m) - old(orphans));
      if deps != map[] {
        pending := pending[m := deps];
        devMap := devMap + map d | d in deps :: m;
      }
      ret := |deps|;
    }

    /** A media device, as udev announces it. */
    method AddMediaDevice(m: Media, env: Env)
      requires Valid()
      modifies this
      ensures Valid()
      ensures (forall d <- Devs(m) :: env.Works(d)) ==> View() == AddMedia(old(View()), m)
    {
      hide Nodes, Group, DevsOf;
      GroupKeys(m.entities, Devs(m) - orphans);
      if forall d <- Devs(m) :: env.Works(d) {
        WorksWithoutError(env, m, orphans);
      }
      var ret := PopulateMediaDevice(m, env);
      if ret == 0 {
        devices := devices + [m];
      }
    }

    /** The pending entry behind devMap[d], if there is one, still waits for d: each number arrives once. */
    method AddV4L2Device(d: DevNum, env: Env) returns (ret: int)
      requires Valid() && (d in devMap ==> devMap[d] in pending && d in pending[devMap[d]])
      modifies this
      ensures Valid()
      ensures ret == if d in old(devMap) && (env.node(d) == "" || old(pending[devMap[d]][d]) != []) then env.Error(d) else 0
      ensures View() == if ret == 0 then AddV4L2(old(View()), d) else old(View())
    {
      if d !in devMap {
        orphans := orphans + {d};
        return 0;
      }
      if env.node(d) == "" { return -EINVAL; }
      var m := devMap[d];
      assert Filed(pending[m]);
      ret := SetNodes(pending[m][d], d, env);
      if ret != 0 { return; }
      Satisfy(m, d);
    }

    /** Every entity that shares the device number gets the same node. */
    method SetNodes(users: seq<Entity>, d: DevNum, env: Env) returns (ret: int)
      requires d != NO_DEVICE && env.node(d) != "" && forall e <- users :: e.dev == d
      modifies this`nodes
      ensures ret == if users == [] then 0 else env.Error(d)
      ensures users != [] ==> ret == -(env.access(env.node(d)) as int)
      ensures nodes == if ret == 0 then old(nodes) + Nodes(users, {d}) else old(nodes)
    {
      for i := 0 to |users|
        invariant nodes == old(nodes) + Nodes(users[..i], {d})
        invariant i > 0 ==> env.Error(d) == 0
      {
        var errno := env.access(env.node(d));
        if errno != 0 { return -(errno as int); }
        assert users[..i + 1] == users[..i] + [users[i]];
        NodesAppend(users[..i], users[i], {d});
        nodes := nodes[users[i] := d];
      }
      assert users[..|users|] == users;
      ret := 0;
    }

    /** Strikes d off what m waits for, and hands m over when that was the last. */
    method Satisfy(m: Media, d: DevNum)
      requires Valid() && m in pending
      modifies this`devices, this`pending
      ensures Valid()
      ensures var deps := old(pending)[m] - {d};
        if deps == map[] then devices == old(devices) + [m] && pending == old(pending) - {m}
        else devices == old(devices) && pending == old(pending)[m := deps]
    {
      var deps := pending[m] - {d};
      assert Filed(deps) by { assert Filed(pending[m]); }
      if deps == map[] {
        devices := devices + [m];
        pending := pending - {m};
      } else {
        pending := pending[m := deps];
      }
    }
  }

  lemma NoEntities(orphans: set<DevNum>)
    ensures DevsOf([]) == {} && Group([], {}) == map[] && Nodes([], orphans) == map[]
  {
  }

  lemma GroupFiled(es: seq<Entity>, ds: set<DevNum>)
    requires ds <= DevsOf(es)
    ensures Filed(Group(es, ds))
  {
    forall d | d in ds
      ensures d != NO_DEVICE && forall e <- UsersOf(es, d) :: e.dev == d
    {
      UsersAre(es, d);
    }
  }

  lemma GroupKeys(es: seq<Entity>, ds: set<DevNum>)
    ensures Group(es, ds).Keys == ds && |Group(es, ds)| == |ds|
    ensures Group(es, ds) == map[] <==> ds == {}
    ensures |ds| == 0 <==> ds == {}
  {
  }

  lemma WorksWithoutError(env: Env, m: Media, orphans: set<DevNum>)
    requires forall d <- Devs(m) :: env.Works(d)
    ensures env.FirstError(m.entities, orphans) == 0
  {
    NoError(env, m.entities, orphans);
    assert forall e <- m.entities :: e.dev != NO_DEVICE ==> e.dev in Devs(m);
  }

  // --- What one more entity adds.

  lemma UsersAppend(es: seq<Entity>, e: Entity, d: DevNum)
    ensures UsersOf(es + [e], d) == UsersOf(es, d) + if e.dev == d then [e] else []
    ensures d != NO_DEVICE && d !in DevsOf(es) ==> UsersOf(es, d) == []
  {
    assert (es + [e])[..|es|] == es;
    UsersAre(es, d);
    if d != NO_DEVICE && d !in DevsOf(es) && UsersOf(es, d) != [] {
      assert UsersOf(es, d)[0] in UsersOf(es, d);
    }
  }

  lemma DevsAppend(es: seq<Entity>, e: Entity)
    ensures DevsOf(es + [e]) == if e.dev == NO_DEVICE then DevsOf(es) else DevsOf(es) + {e.dev}
  {
    assert forall x :: x in es + [e] <==> x in es || x == e;
  }

  lemma NodesAppend(es: seq<Entity>, e: Entity, ds: set<DevNum>)
    ensures Nodes(es + [e], ds) == if e.dev != NO_DEVICE && e.dev in ds then Nodes(es, ds)[e := e.dev] else Nodes(es, ds)
  {
    assert forall x :: x in es + [e] <==> x in es || x == e;
  }

  lemma GroupAppend(es: seq<Entity>, e: Entity, orphans: set<DevNum>)
    ensures Group(es + [e], DevsOf(es + [e]) - orphans) == GroupWith(Group(es, DevsOf(es) - orphans), e, orphans)
  {
    DevsAppend(es, e);
    assert NO_DEVICE !in DevsOf(es);
    hide UsersOf, DevsOf;
    var want := GroupWith(Group(es, DevsOf(es) - orphans), e, orphans);
    assert want.Keys == DevsOf(es + [e]) - orphans;
    forall d | d in want
      ensures UsersOf(es + [e], d) == want[d]
    {
      UsersAppend(es, e, d);
    }
  }

  /** deps[devnum].push_back(entity), for an entity with a device that is not an orphan. */
  function GroupWith(deps: Deps, e: Entity, orphans: set<DevNum>): Deps {
    if e.dev == NO_DEVICE || e.dev in orphans then deps
    else deps[e.dev := (if e.dev in deps then deps[e.dev] else []) + [e]]
  }
}
