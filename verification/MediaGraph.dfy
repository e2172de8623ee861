/** The media graph of a kernel topology: what populate() builds, for every topology. */
module MediaGraph {
  import opened Bytes

  const EINVAL := 22

  type Id = uint32

  datatype Interface = Interface(id: Id, major: nat, minor: nat)
  datatype EntityDesc = EntityDesc(id: Id)
  datatype PadDesc = PadDesc(id: Id, index: nat, entity: Id)
  /** isInterface is the MEDIA_LNK_FL_INTERFACE_LINK link type. */
  datatype LinkDesc = LinkDesc(id: Id, source: Id, sink: Id, isInterface: bool)

  datatype Topology = Topology(
    entities: seq<EntityDesc>, interfaces: seq<Interface>, pads: seq<PadDesc>, links: seq<LinkDesc>)

  /** Pointers between objects are kept as the ids under which objects_ stores them. */
  datatype Object =
    | Entity(dev: (nat, nat), pads: seq<Id>)
    | Pad(index: nat, entity: Id, links: seq<Id>)
    | Link(source: Id, sink: Id)

  type Objects = map<Id, Object>

  /** findInterface(): the source of the first interface link to the entity, if that is an interface. */
  function FindInterface(t: Topology, entity: Id): Option<Interface> {
    var l := FirstInterfaceLink(t.links, entity);
    if l.None? then None else InterfaceById(t.interfaces, l.value.source)
  }

  function FirstInterfaceLink(links: seq<LinkDesc>, entity: Id): Option<LinkDesc> {
    if links == [] then None
    else if links[0].sink == entity && links[0].isInterface then Some(links[0])
    else FirstInterfaceLink(links[1..], entity)
  }

  function InterfaceById(ifs: seq<Interface>, id: Id): Option<Interface> {
    if ifs == [] then None
    else if ifs[0].id == id then Some(ifs[0])
    else InterfaceById(ifs[1..], id)
  }

  function DeviceOf(t: Topology, entity: Id): (nat, nat) {
    match FindInterface(t, entity)
    case None => (0, 0)
    case Some(i) => (i.major, i.minor)
  }

  /** The first of the two is the major number, the second the minor; without an interface both are zero. */
  lemma DeviceNumbers(t: Topology, entity: Id)
    ensures
      match FindInterface(t, entity)
      case None => DeviceOf(t, entity).0 == 0 && DeviceOf(t, entity).1 == 0
      case Some(i) => DeviceOf(t, entity).0 == i.major && DeviceOf(t, entity).1 == i.minor
  {
  }

  /** The two loops of findInterface(). */
  method SearchInterface(t: Topology, entity: Id) returns (r: Option<Interface>)
    ensures r == FindInterface(t, entity)
  {
    var i := 0;
    while i < |t.links| && !(t.links[i].sink == entity && t.links[i].isInterface)
      invariant i <= |t.links|
      invariant FirstInterfaceLink(t.links, entity) == FirstInterfaceLink(t.links[i..], entity)
    {
      i := i + 1;
    }
    if i == |t.links| {
      return None;
    }
    var id := t.links[i].source;
    for j := 0 to |t.interfaces|
      invariant InterfaceById(t.interfaces, id) == InterfaceById(t.interfaces[j..], id)
    {
      if t.interfaces[j].id == id {
        return Some(t.interfaces[j]);
      }
    }
    r := None;
  }

  /** The device numbers an entity gets are those of an interface that some interface link ties to it. */
  lemma {:induction false} InterfaceFound(links: seq<LinkDesc>, ifs: seq<Interface>, entity: Id)
    ensures FirstInterfaceLink(links, entity).Some? <==> exists l <- links :: l.isInterface && l.sink == entity
    ensures
      match FirstInterfaceLink(links, entity)
      case None => true
      case Some(l) =>
        && l in links && l.isInterface && l.sink == entity
        && (InterfaceById(ifs, l.source).Some? <==> exists i <- ifs :: i.id == l.source)
        && (InterfaceById(ifs, l.source).Some? ==> InterfaceById(ifs, l.source).value in ifs)
    decreases |links|
  {
    if links != [] && !(links[0].sink == entity && links[0].isInterface) {
      InterfaceFound(links[1..], ifs, entity);
    } else if links != [] {
      ByIdFinds(ifs, links[0].source);
    }
  }

  lemma {:induction false} ByIdFinds(ifs: seq<Interface>, id: Id)
    ensures InterfaceById(ifs, id).Some? <==> exists i <- ifs :: i.id == id
    ensures InterfaceById(ifs, id).Some? ==> InterfaceById(ifs, id).value in ifs && InterfaceById(ifs, id).value.id == id
    decreases |ifs|
  {
    if ifs != [] {
      ByIdFinds(ifs[1..], id);
    }
  }

  // --- The graph a topology describes.

  /** The ids of the pads of an entity, in order. */
  function PadsOf(pads: seq<PadDesc>, entity: Id): seq<Id> {
    if pads == [] then []
    else
      var n := |pads| - 1;
      PadsOf(pads[..n], entity) + if pads[n].entity == entity then [pads[n].id] else []
  }

  /** The ids of the data links a pad takes part in, in order; a link to itself counts twice. */
  function LinksOf(links: seq<LinkDesc>, pad: Id): seq<Id> {
    if links == [] then []
    else
      var n := |links| - 1;
      var l := links[n];
      LinksOf(links[..n], pad)
      + (if !l.isInterface && l.source == pad then [l.id] else [])
      + (if !l.isInterface && l.sink == pad then [l.id] else [])
  }

  function EntityIds(es: seq<EntityDesc>): seq<Id> {
    seq(|es|, i requires 0 <= i < |es| => es[i].id)
  }

  function PadIds(ps: seq<PadDesc>): seq<Id> {
    seq(|ps|, i requires 0 <= i < |ps| => ps[i].id)
  }

  function LinkIds(ls: seq<LinkDesc>): seq<Id> {
    if ls == [] then []
    else
      var n := |ls| - 1;
      LinkIds(ls[..n]) + if ls[n].isInterface then [] else [ls[n].id]
  }

  /** The ids of everything that becomes an object, in the order in which it does. */
  function Ids(es: seq<EntityDesc>, ps: seq<PadDesc>, ls: seq<LinkDesc>): seq<Id> {
    EntityIds(es) + PadIds(ps) + LinkIds(ls)
  }

  predicate Distinct(ids: seq<Id>) {
    forall i, j | 0 <= i < j < |ids| :: ids[i] != ids[j]
  }

  /** A topology that makes sense: ids are unique, pads belong to entities, data links join pads. */
  predicate WellFormed(t: Topology) {
    && Distinct(Ids(t.entities, t.pads, t.links))
    && (forall p <- t.pads :: p.entity in EntityIds(t.entities))
    && (forall l <- t.links :: !l.isInterface ==> l.source in PadIds(t.pads) && l.sink in PadIds(t.pads))
  }

  predicate HasEntity(objects: Objects, t: Topology, e: EntityDesc, ps: seq<PadDesc>) {
    e.id in objects && objects[e.id] == Entity(DeviceOf(t, e.id), PadsOf(ps, e.id))
  }

  predicate HasPad(objects: Objects, p: PadDesc, ls: seq<LinkDesc>) {
    p.id in objects && objects[p.id] == Pad(p.index, p.entity, LinksOf(ls, p.id))
  }

  predicate HasLink(objects: Objects, l: LinkDesc) {
    l.id in objects && objects[l.id] == Link(l.source, l.sink)
  }

  /** objects is the graph of these entities, pads and links of a topology, and nothing else. */
  ghost predicate GraphOf(objects: Objects, t: Topology, es: seq<EntityDesc>, ps: seq<PadDesc>, ls: seq<LinkDesc>) {
    && Distinct(Ids(es, ps, ls))
    && (forall id :: id in objects <==> id in Ids(es, ps, ls))
    && (forall e <- es :: HasEntity(objects, t, e, ps))
    && (forall p <- ps :: HasPad(objects, p, ls))
    && (forall l <- ls :: !l.isInterface ==> HasLink(objects, l))
  }

  // --- One object at a time.

  lemma PadsOfSnoc(ps: seq<PadDesc>, p: PadDesc, id: Id)
    ensures PadsOf(ps + [p], id) == PadsOf(ps, id) + if p.entity == id then [p.id] else []
  {
    assert (ps + [p])[..|ps|] == ps;
  }

  lemma LinksOfSnoc(ls: seq<LinkDesc>, l: LinkDesc, id: Id)
    ensures LinksOf(ls + [l], id)
         == LinksOf(ls, id) + (if !l.isInterface && l.source == id then [l.id] else [])
            + (if !l.isInterface && l.sink == id then [l.id] else [])
  {
    assert (ls + [l])[..|ls|] == ls;
  }

  lemma LinkIdsSnoc(ls: seq<LinkDesc>, l: LinkDesc)
    ensures LinkIds(ls + [l]) == LinkIds(ls) + if l.isInterface then [] else [l.id]
  {
    assert (ls + [l])[..|ls|] == ls;
  }

  lemma DistinctSnoc(ids: seq<Id>, id: Id)
    ensures Distinct(ids + [id]) <==> Distinct(ids) && id !in ids
  {
    var all := ids + [id];
    if Distinct(all) {
      assert forall i | 0 <= i < |ids| :: ids[i] == all[i] != all[|ids|];
      assert forall i, j | 0 <= i < j < |ids| :: ids[i] == all[i] != all[j] == ids[j];
    }
  }

  lemma DistinctPrefix(ids: seq<Id>, more: seq<Id>)
    requires Distinct(ids + more)
    ensures Distinct(ids)
  {
    var all := ids + more;
    assert forall i, j | 0 <= i < j < |ids| :: ids[i] == all[i] != all[j] == ids[j];
  }

  lemma AddEntityStep(objects: Objects, t: Topology, es: seq<EntityDesc>, e: EntityDesc)
    requires GraphOf(objects, t, es, [], [])
    requires e.id !in objects
    ensures GraphOf(objects[e.id := Entity(DeviceOf(t, e.id), [])], t, es + [e], [], [])
  {
    assert Ids(es + [e], [], []) == Ids(es, [], []) + [e.id];
    DistinctSnoc(Ids(es, [], []), e.id);
    assert forall d <- es :: HasEntity(objects, t, d, []) && d.id != e.id;
    hide Distinct, Ids, DeviceOf;
  }

  lemma AddPadStep(objects: Objects, t: Topology, es: seq<EntityDesc>, ps: seq<PadDesc>, p: PadDesc)
    requires GraphOf(objects, t, es, ps, [])
    requires p.id !in objects && p.entity in objects && objects[p.entity].Entity?
    ensures
      var e := objects[p.entity];
      GraphOf(objects[p.id := Pad(p.index, p.entity, [])][p.entity := e.(pads := e.pads + [p.id])], t, es, ps + [p], [])
  {
    var e := objects[p.entity];
    var after := objects[p.id := Pad(p.index, p.entity, [])][p.entity := e.(pads := e.pads + [p.id])];
    assert Ids(es, ps + [p], []) == Ids(es, ps, []) + [p.id];
    DistinctSnoc(Ids(es, ps, []), p.id);
    assert forall id :: id in after <==> id in Ids(es, ps + [p], []);
    hide Distinct, Ids, DeviceOf;
    forall d <- es
      ensures HasEntity(after, t, d, ps + [p])
    {
      assert HasEntity(objects, t, d, ps);
      PadsOfSnoc(ps, p, d.id);
    }
    forall q <- ps + [p]
      ensures HasPad(after, q, [])
    {
      if q in ps {
        assert HasPad(objects, q, []);
      }
    }
  }

  /** source->addLink(link), then sink->addLink(link). */
  function WithLink(objects: Objects, l: LinkDesc): Objects
    requires l.source in objects && objects[l.source].Pad?
    requires l.sink in objects && objects[l.sink].Pad?
    requires l.id !in objects
  {
    var linked := objects[l.id := Link(l.source, l.sink)];
    var source := linked[l.source];
    var half := linked[l.source := source.(links := source.links + [l.id])];
    var sink := half[l.sink];
    half[l.sink := sink.(links := sink.links + [l.id])]
  }

  /** Linking changes the lists of the two ends and no other object. */
  lemma WithLinkAt(objects: Objects, l: LinkDesc, id: Id)
    requires l.source in objects && objects[l.source].Pad?
    requires l.sink in objects && objects[l.sink].Pad?
    requires l.id !in objects && !l.isInterface
    ensures id in WithLink(objects, l) <==> id in objects || id == l.id
    ensures id == l.id ==> WithLink(objects, l)[id] == Link(l.source, l.sink)
    ensures id in objects && !objects[id].Pad? ==> WithLink(objects, l)[id] == objects[id]
    ensures
      (id in objects && objects[id].Pad? ==>
         WithLink(objects, l)[id]
         == objects[id].(links := objects[id].links + (if l.source == id then [l.id] else [])
              + (if l.sink == id then [l.id] else [])))
  {
  }

  lemma AddLinkStep(
      objects: Objects, t: Topology, es: seq<EntityDesc>, ps: seq<PadDesc>, ls: seq<LinkDesc>, l: LinkDesc)
    requires GraphOf(objects, t, es, ps, ls)
    requires !l.isInterface && l.id !in objects
    requires l.source in objects && objects[l.source].Pad?
    requires l.sink in objects && objects[l.sink].Pad?
    ensures GraphOf(WithLink(objects, l), t, es, ps, ls + [l])
  {
    var after := WithLink(objects, l);
    LinkIdsSnoc(ls, l);
    assert Ids(es, ps, ls + [l]) == Ids(es, ps, ls) + [l.id];
    DistinctSnoc(Ids(es, ps, ls), l.id);
    hide Distinct, Ids, DeviceOf, WithLink;
    forall id
      ensures id in after <==> id in Ids(es, ps, ls + [l])
    {
      WithLinkAt(objects, l, id);
    }
    forall d <- es
      ensures HasEntity(after, t, d, ps)
    {
      assert HasEntity(objects, t, d, ps);
      WithLinkAt(objects, l, d.id);
    }
    forall q <- ps
      ensures HasPad(after, q, ls + [l])
    {
      assert HasPad(objects, q, ls);
      LinksOfSnoc(ls, l, q.id);
      WithLinkAt(objects, l, q.id);
    }
    forall k <- ls + [l] | !k.isInterface
      ensures HasLink(after, k)
    {
      WithLinkAt(objects, l, k.id);
      if k in ls {
        assert HasLink(objects, k);
      }
    }
  }

  /** An interface link adds nothing to the graph. */
  lemma SkipLinkStep(
      objects: Objects, t: Topology, es: seq<EntityDesc>, ps: seq<PadDesc>, ls: seq<LinkDesc>, l: LinkDesc)
    requires GraphOf(objects, t, es, ps, ls)
    requires l.isInterface
    ensures GraphOf(objects, t, es, ps, ls + [l])
  {
    LinkIdsSnoc(ls, l);
    assert Ids(es, ps, ls + [l]) == Ids(es, ps, ls);
    hide Distinct, Ids, DeviceOf;
    forall q <- ps
      ensures HasPad(objects, q, ls + [l])
    {
      assert HasPad(objects, q, ls);
      LinksOfSnoc(ls, l, q.id);
    }
  }

  /** What object() finds under an id, by what has been added so far. */
  lemma FindsEntityIff(objects: Objects, t: Topology, es: seq<EntityDesc>, ps: seq<PadDesc>, id: Id)
    requires GraphOf(objects, t, es, ps, [])
    ensures id in objects && objects[id].Entity? <==> id in EntityIds(es)
  {
    hide Distinct, DeviceOf;
    if id in EntityIds(es) {
      var i :| 0 <= i < |es| && EntityIds(es)[i] == id;
      assert HasEntity(objects, t, es[i], ps);
    } else if id in objects {
      assert id in PadIds(ps);
      var i :| 0 <= i < |ps| && PadIds(ps)[i] == id;
      assert HasPad(objects, ps[i], []);
    }
  }

  lemma HasExactly(objects: Objects, t: Topology, es: seq<EntityDesc>, ps: seq<PadDesc>, ls: seq<LinkDesc>, id: Id)
    requires GraphOf(objects, t, es, ps, ls)
    ensures id in objects <==> id in Ids(es, ps, ls)
  {
  }

  lemma LinkIdIsLink(ls: seq<LinkDesc>, id: Id)
    requires id in LinkIds(ls)
    ensures exists l <- ls :: !l.isInterface && l.id == id
    decreases |ls|
  {
    var n := |ls| - 1;
    if id in LinkIds(ls[..n]) {
      LinkIdIsLink(ls[..n], id);
    } else {
      assert ls[n] in ls;
    }
  }

  lemma FindsPadIff(
      objects: Objects, t: Topology, es: seq<EntityDesc>, ps: seq<PadDesc>, ls: seq<LinkDesc>, id: Id)
    requires GraphOf(objects, t, es, ps, ls)
    ensures id in objects && objects[id].Pad? <==> id in PadIds(ps)
    ensures forall p <- ps | p.id == id ::
      id in objects && objects[id].Pad? && objects[id].index == p.index && objects[id].entity == p.entity
  {
    hide Distinct, DeviceOf;
    if id in PadIds(ps) {
      var i :| 0 <= i < |ps| && PadIds(ps)[i] == id;
      assert HasPad(objects, ps[i], ls);
    } else if id in EntityIds(es) {
      var i :| 0 <= i < |es| && EntityIds(es)[i] == id;
      assert HasEntity(objects, t, es[i], ps);
    } else if id in objects {
      assert id in LinkIds(ls);
      LinkIdIsLink(ls, id);
      var l :| l in ls && !l.isInterface && l.id == id;
      assert HasLink(objects, l);
    }
  }

  // An id met twice, at any of the three stages, is a repetition in the whole topology.

  lemma EntityIdRepeats(t: Topology, i: nat)
    requires i < |t.entities|
    requires t.entities[i].id in Ids(t.entities[..i], [], [])
    ensures !WellFormed(t)
  {
    var all, id := Ids(t.entities, t.pads, t.links), t.entities[i].id;
    var before := Ids(t.entities[..i], [], []);
    DistinctSnoc(before, id);
    assert all == (before + [id]) + all[i + 1..];
    if Distinct(all) {
      DistinctPrefix(before + [id], all[i + 1..]);
    }
  }

  lemma PadIdRepeats(t: Topology, i: nat)
    requires i < |t.pads|
    requires t.pads[i].id in Ids(t.entities, t.pads[..i], [])
    ensures !WellFormed(t)
  {
    var all, id := Ids(t.entities, t.pads, t.links), t.pads[i].id;
    var before := Ids(t.entities, t.pads[..i], []);
    DistinctSnoc(before, id);
    assert all == (before + [id]) + all[|t.entities| + i + 1..];
    if Distinct(all) {
      DistinctPrefix(before + [id], all[|t.entities| + i + 1..]);
    }
  }

  lemma {:induction false} LinkIdsPrefix(ls: seq<LinkDesc>, i: nat, j: nat)
    requires i <= j <= |ls|
    ensures LinkIds(ls[..i]) <= LinkIds(ls[..j])
    decreases j
  {
    hide LinkIds;
    if i < j {
      LinkIdsPrefix(ls, i, j - 1);
      assert ls[..j] == ls[..j - 1] + [ls[j - 1]];
      LinkIdsSnoc(ls[..j - 1], ls[j - 1]);
    }
  }

  lemma LinkIdRepeats(t: Topology, i: nat)
    requires i < |t.links| && !t.links[i].isInterface
    requires t.links[i].id in Ids(t.entities, t.pads, t.links[..i])
    ensures !WellFormed(t)
  {
    var all, id := Ids(t.entities, t.pads, t.links), t.links[i].id;
    var before := Ids(t.entities, t.pads, t.links[..i]);
    DistinctSnoc(before, id);
    LinkIdsPrefix(t.links, i + 1, |t.links|);
    assert t.links[..|t.links|] == t.links;
    assert t.links[..i + 1] == t.links[..i] + [t.links[i]];
    LinkIdsSnoc(t.links[..i], t.links[i]);
    assert before + [id] <= all;
    assert all == (before + [id]) + all[|before| + 1..];
    if Distinct(all) {
      DistinctPrefix(before + [id], all[|before| + 1..]);
    }
  }

  lemma LinkNeedsPads(t: Topology, i: nat)
    requires i < |t.links| && !t.links[i].isInterface
    ensures WellFormed(t) ==> t.links[i].source in PadIds(t.pads) && t.links[i].sink in PadIds(t.pads)
  {
    assert t.links[i] in t.links;
  }

  // --- The device.

  class MediaDevice {
    var objects: Objects
    var entities: seq<Id>
    var valid: bool

    constructor ()
      ensures !valid && objects == map[] && entities == []
    {
      objects, entities, valid := map[], [], false;
    }

    method Clear()
      modifies this
      ensures !valid && objects == map[] && entities == []
    {
      objects, entities, valid := map[], [], false;
    }

    method AddObject(id: Id, o: Object) returns (ok: bool)
      modifies this`objects
      ensures ok <==> id !in old(objects)
      ensures objects == if ok then old(objects)[id := o] else old(objects)
    {
      if id in objects {
        return false;
      }
      objects := objects[id := o];
      ok := true;
    }

    method PopulateEntities(t: Topology) returns (ok: bool)
      requires objects == map[] && entities == []
      modifies this`objects, this`entities
      ensures ok ==> GraphOf(objects, t, t.entities, [], []) && entities == EntityIds(t.entities)
      ensures !ok ==> !WellFormed(t)
    {
      for i := 0 to |t.entities|
        invariant GraphOf(objects, t, t.entities[..i], [], [])
        invariant entities == EntityIds(t.entities[..i])
      {
        var e := t.entities[i];
        assert t.entities[..i + 1] == t.entities[..i] + [e];
        ghost var before := objects;
        var iface := SearchInterface(t, e.id);
        ok := AddObject(e.id, Entity(if iface.Some? then (iface.value.major, iface.value.minor) else (0, 0), []));
        if !ok {
          EntityIdRepeats(t, i);
          return;
        }
        AddEntityStep(before, t, t.entities[..i], e);
        hide GraphOf, DeviceOf;
        entities := entities + [e.id];
      }
      assert t.entities[..|t.entities|] == t.entities;
      ok := true;
    }

    method PopulatePads(t: Topology) returns (ok: bool)
      requires GraphOf(objects, t, t.entities, [], [])
      modifies this`objects
      ensures ok ==> GraphOf(objects, t, t.entities, t.pads, [])
      ensures ok ==> forall p <- t.pads :: p.entity in EntityIds(t.entities)
      ensures !ok ==> !WellFormed(t)
    {
      assert t.pads[..0] == [];
      hide GraphOf, Ids, EntityIds;
      for i := 0 to |t.pads|
        invariant GraphOf(objects, t, t.entities, t.pads[..i], [])
        invariant forall j | 0 <= j < i :: t.pads[j].entity in EntityIds(t.entities)
      {
        var p := t.pads[i];
        assert t.pads[..i + 1] == t.pads[..i] + [p];
        ok := PopulatePad(t, i);
        if !ok { return; }
      }
      assert t.pads[..|t.pads|] == t.pads;
      ok := true;
    }

    /** One pad: its entity is looked up, and the pad joins that entity's list. */
    method PopulatePad(t: Topology, i: nat) returns (ok: bool)
      requires i < |t.pads| && GraphOf(objects, t, t.entities, t.pads[..i], [])
      modifies this`objects
      ensures ok ==> GraphOf(objects, t, t.entities, t.pads[..i] + [t.pads[i]], [])
      ensures ok ==> t.pads[i].entity in EntityIds(t.entities)
      ensures !ok ==> !WellFormed(t)
    {
      hide GraphOf, Ids, EntityIds;
      var p := t.pads[i];
      ghost var before := objects;
      FindsEntityIff(objects, t, t.entities, t.pads[..i], p.entity);
      if p.entity !in objects || !objects[p.entity].Entity? {
        assert p in t.pads;
        return false;
      }
      HasExactly(objects, t, t.entities, t.pads[..i], [], p.id);
      ok := AddObject(p.id, Pad(p.index, p.entity, []));
      if !ok {
        PadIdRepeats(t, i);
        return;
      }
      AddPadStep(before, t, t.entities, t.pads[..i], p);
      var e := objects[p.entity];
      objects := objects[p.entity := e.(pads := e.pads + [p.id])];
    }

    /** source->addLink(link); sink->addLink(link), for a link that has just been added. */
    method LinkPads(ghost before: Objects, l: LinkDesc)
      requires l.source in before && before[l.source].Pad? && l.sink in before && before[l.sink].Pad?
      requires l.id !in before && objects == before[l.id := Link(l.source, l.sink)]
      modifies this`objects
      ensures objects == WithLink(before, l)
    {
      var source := objects[l.source];
      objects := objects[l.source := source.(links := source.links + [l.id])];
      var sink := objects[l.sink];
      objects := objects[l.sink := sink.(links := sink.links + [l.id])];
    }

    method PopulateLinks(t: Topology) returns (ok: bool)
      requires GraphOf(objects, t, t.entities, t.pads, [])
      modifies this`objects
      ensures ok ==> GraphOf(objects, t, t.entities, t.pads, t.links)
      ensures ok ==> forall l <- t.links :: !l.isInterface ==> l.source in PadIds(t.pads) && l.sink in PadIds(t.pads)
      ensures !ok ==> !WellFormed(t)
    {
      assert t.links[..0] == [];
      hide GraphOf, Ids, PadIds, WellFormed, WithLink;
      for i := 0 to |t.links|
        invariant GraphOf(objects, t, t.entities, t.pads, t.links[..i])
        invariant forall j | 0 <= j < i && !t.links[j].isInterface ::
          t.links[j].source in PadIds(t.pads) && t.links[j].sink in PadIds(t.pads)
      {
        var l := t.links[i];
        assert t.links[..i + 1] == t.links[..i] + [l];
        if l.isInterface {
          SkipLinkStep(objects, t, t.entities, t.pads, t.links[..i], l);
          continue;
        }
        ok := PopulateLink(t, i);
        if !ok { return; }
      }
      assert t.links[..|t.links|] == t.links;
      ok := true;
    }

    /** One data link: both its pads are looked up, and the link joins their lists. */
    method PopulateLink(t: Topology, i: nat) returns (ok: bool)
      requires i < |t.links| && !t.links[i].isInterface
      requires GraphOf(objects, t, t.entities, t.pads, t.links[..i])
      modifies this`objects
      ensures ok ==> GraphOf(objects, t, t.entities, t.pads, t.links[..i] + [t.links[i]])
      ensures ok ==> t.links[i].source in PadIds(t.pads) && t.links[i].sink in PadIds(t.pads)
      ensures !ok ==> !WellFormed(t)
    {
      hide GraphOf, Ids, PadIds, WellFormed, WithLink;
      var l := t.links[i];
      ghost var before := objects;
      FindsPadIff(objects, t, t.entities, t.pads, t.links[..i], l.source);
      FindsPadIff(objects, t, t.entities, t.pads, t.links[..i], l.sink);
      LinkNeedsPads(t, i);
      if l.source !in objects || !objects[l.source].Pad? {
        return false;
      }
      if l.sink !in objects || !objects[l.sink].Pad? {
        return false;
      }
      HasExactly(objects, t, t.entities, t.pads, t.links[..i], l.id);
      ok := AddObject(l.id, Link(l.source, l.sink));
      if !ok {
        LinkIdRepeats(t, i);
        return;
      }
      AddLinkStep(before, t, t.entities, t.pads, t.links[..i], l);
      LinkPads(before, l);
    }

    /** populate(), once the topology has been read: the whole graph or nothing. */
    method Populate(t: Topology) returns (ret: int)
      modifies this
      ensures valid <==> WellFormed(t)
      ensures ret == if valid then 0 else -EINVAL
      ensures valid ==> GraphOf(objects, t, t.entities, t.pads, t.links) && entities == EntityIds(t.entities)
      ensures !valid ==> objects == map[] && entities == []
    {
      Clear();
      assert GraphOf(objects, t, [], [], []);
      var ok := PopulateEntities(t);
      if ok {
        ok := PopulatePads(t);
      }
      if ok {
        ok := PopulateLinks(t);
      }
      valid := ok;
      if !valid {
        Clear();
        return -EINVAL;
      }
      ret := 0;
    }

    /** link(source, sink): the first link of the source pad that ends in the sink pad. */
    method FindLink(source: Id, sink: Id) returns (r: Option<Id>)
      requires source in objects && objects[source].Pad?
      requires forall l <- objects[source].links :: l in objects && objects[l].Link?
      ensures r == LinkBetween(objects, objects[source].links, sink)
    {
      var links := objects[source].links;
      for i := 0 to |links|
        invariant LinkBetween(objects, links, sink) == LinkBetween(objects, links[i..], sink)
      {
        if objects[links[i]].sink == sink {
          return Some(links[i]);
        }
      }
      r := None;
    }
  }

  /** The first of some links that ends in the given pad. */
  function LinkBetween(objects: Objects, links: seq<Id>, sink: Id): Option<Id>
    requires forall l <- links :: l in objects && objects[l].Link?
  {
    if links == [] then None
    else if objects[links[0]].sink == sink then Some(links[0])
    else LinkBetween(objects, links[1..], sink)
  }

  lemma LinkBetweenMeans(objects: Objects, links: seq<Id>, sink: Id)
    requires forall l <- links :: l in objects && objects[l].Link?
    ensures LinkBetween(objects, links, sink).Some? <==> exists l <- links :: objects[l].sink == sink
    ensures
      match LinkBetween(objects, links, sink)
      case None => true
      case Some(l) => l in links && objects[l].sink == sink
  {
  }

  /** A pad's list holds exactly the data links that have it as an end. */
  lemma {:induction false} LinksOfMeans(ls: seq<LinkDesc>, pad: Id, id: Id)
    ensures id in LinksOf(ls, pad) <==> exists l <- ls :: !l.isInterface && l.id == id && (l.source == pad || l.sink == pad)
    decreases |ls|
  {
    if ls != [] {
      var n := |ls| - 1;
      LinksOfMeans(ls[..n], pad, id);
      assert ls == ls[..n] + [ls[n]];
    }
  }

  /** The links a pad lists are objects of the graph. */
  lemma ListedLinksAreLinks(objects: Objects, t: Topology, p: PadDesc)
    requires GraphOf(objects, t, t.entities, t.pads, t.links)
    requires p in t.pads
    ensures HasPad(objects, p, t.links)
    ensures forall id <- objects[p.id].links :: id in objects && objects[id].Link?
  {
    forall id <- objects[p.id].links
      ensures id in objects && objects[id].Link?
    {
      LinksOfMeans(t.links, p.id, id);
      var l :| l in t.links && !l.isInterface && l.id == id;
      assert HasLink(objects, l);
    }
  }

  /** In a populated graph link(source, sink) finds a link iff the topology has a data link from one to
    * the other, and what it finds joins these two pads. Asked for a pad and itself it finds any link
    * into that pad. */
  lemma LinkFoundIff(objects: Objects, t: Topology, p: PadDesc, q: PadDesc)
    requires GraphOf(objects, t, t.entities, t.pads, t.links)
    requires p in t.pads && q in t.pads
    ensures HasPad(objects, p, t.links)
    ensures forall id <- objects[p.id].links :: id in objects && objects[id].Link?
    ensures
      var r := LinkBetween(objects, objects[p.id].links, q.id);
      && (r.Some? <==> exists l <- t.links :: !l.isInterface && l.sink == q.id && (l.source == p.id || p.id == q.id))
      && (r.Some? ==> r.value in objects && (p.id != q.id ==> objects[r.value] == Link(p.id, q.id)))
  {
    ListedLinksAreLinks(objects, t, p);
    var links := objects[p.id].links;
    LinkBetweenMeans(objects, links, q.id);
    var r := LinkBetween(objects, links, q.id);
    hide Distinct, Ids, DeviceOf;
    if r.Some? {
      LinksOfMeans(t.links, p.id, r.value);
      var l :| l in t.links && !l.isInterface && l.id == r.value && (l.source == p.id || l.sink == p.id);
      assert HasLink(objects, l);
    }
    if l :| l in t.links && !l.isInterface && l.sink == q.id && (l.source == p.id || p.id == q.id) {
      LinksOfMeans(t.links, p.id, l.id);
      assert HasLink(objects, l);
    }
  }
}
