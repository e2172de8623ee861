/** Two processes with one serializer each: the host sends info maps and lists, the guest sends lists back.
    Each side changes by the table functions the serializer's methods are proved against, and
    messages are the bytes those methods write. The senders ignore that serialize() may refuse a list: the
    zeroed buffer they prepared for it goes out all the same. */
module ControlProtocol {
  import opened Bytes
  import opened ControlFormat
  import opened Controls
  import opened Serializer

  /** What was meant, kept beside the bytes to state that it arrives; the receiver only sees the bytes. */
  datatype Sent =
    | SentMap(handle: uint32, recs: seq<Record>)
    | SentList(target: Option<MapRef>, tag: Option<uint32>, controls: map<uint32, ControlValue>, recs: seq<Record>)

  datatype Message = Message(bytes: seq<byte>, sent: Sent)

  /** Which map a handle was given to, and its contents then. */
  datatype Entry = Entry(ref: MapRef, ctrls: Ctrls, recs: seq<Record>)

  /** A map that deserialize() returned, kept by the guest at an address of its own. */
  datatype Copy = Copy(handle: uint32, ctrls: Ctrls)

  datatype World = World(
    host: Tables, guest: Tables, held: map<nat, Copy>,
    toGuest: seq<Message>, toHost: seq<Message>,
    log: map<uint32, Entry>)

  const START := World(INITIAL, INITIAL, map[], [], [], map[])

  datatype Event =
    | HostSendsMap(n: nat, ctrls: Ctrls, order: seq<ControlId>, bytes: seq<byte>)
    | HostRunsOutOfSpace(n: nat)
    | HostSendsList(infoMap: Option<MapRef>, controls: map<uint32, ControlValue>, ids: seq<uint32>, bytes: seq<byte>)
    | GuestSendsList(ownMap: Option<nat>, controls: map<uint32, ControlValue>, ids: seq<uint32>, bytes: seq<byte>)
    | GuestReceives(address: nat)
    | HostReceives
    | BothReset

  /** A caller can hold the address of a map of its own, a returned copy among them, but not of the cache. */
  function Address(infoMap: Option<nat>): Option<MapRef> {
    match infoMap
    case None => None
    case Some(n) => Some(External(n))
  }

  /** A buffer of the size of a list, as it was before anything was written to it. */
  predicate Untouched(bytes: seq<byte>, recs: seq<Record>) {
    |bytes| == PacketSize(recs) && forall i | 0 <= i < |bytes| :: bytes[i] == 0
  }

  predicate ValidList(t: Tables, infoMap: Option<MapRef>, controls: map<uint32, ControlValue>, ids: seq<uint32>, bytes: seq<byte>) {
    && Enumerates(ids, controls.Keys)
    && (match ListHandle(t, infoMap)
        case None => Untouched(bytes, ListRecords(ids, controls))
        case Some(h) => IsPacket(Values, bytes, h, ListRecords(ids, controls)))
    && |bytes| < U32
  }

  function ListMessage(t: Tables, infoMap: Option<MapRef>, controls: map<uint32, ControlValue>, ids: seq<uint32>, bytes: seq<byte>): Message
    requires Enumerates(ids, controls.Keys)
  {
    Message(bytes, SentList(infoMap, ListHandle(t, infoMap), controls, ListRecords(ids, controls)))
  }

  /** l is what deserialize() may yield for these bytes in state t, where its outcome is defined. */
  predicate Arrives(t: Tables, bytes: seq<byte>, l: ControlList) {
    match Parse(Values, bytes)
    case Ok(handle, recs, size) => HasKind(Values, recs) && DeserializesList(t, handle, recs, l)
    case Undefined => true
    case _ => l == EMPTY_LIST
  }

  /** The receiving call is the one for the kind of object announced, and decides from the bytes alone. */
  function Receive(t: Tables, m: Message): Tables {
    if m.sent.SentMap? then
      match Parse(Ranges, m.bytes)
      case Ok(handle, recs, size) => if HasKind(Ranges, recs) then AfterDeserializeMap(t, handle, recs) else t
      case _ => t
    else t
  }

  /** Handles run out after 2^32 - 1 map serializations; runs stay below that. */
  predicate Enabled(w: World, e: Event) {
    match e
    case HostSendsMap(n, ctrls, order, bytes) =>
      && w.host.serial + 1 < U32
      && Enumerates(order, ctrls.Keys)
      && AllWellTyped(MapRecords(order, ctrls))
      && IsPacket(Ranges, bytes, NextSerial(w.host), MapRecords(order, ctrls))
      && |bytes| < U32
    case HostRunsOutOfSpace(n) => w.host.serial + 1 < U32
    case HostSendsList(infoMap, controls, ids, bytes) => ValidList(w.host, infoMap, controls, ids, bytes)
    case GuestSendsList(ownMap, controls, ids, bytes) => ValidList(w.guest, Address(ownMap), controls, ids, bytes)
    case GuestReceives(_) => w.toGuest != []
    case HostReceives => w.toHost != []
    case BothReset => w.toGuest == [] && w.toHost == []
  }

  function Next(w: World, e: Event): World
    requires Enabled(w, e)
  {
    match e
    case HostSendsMap(n, ctrls, order, bytes) =>
      var recs, handle := MapRecords(order, ctrls), NextSerial(w.host);
      w.(host := AfterSerializeMap(w.host, External(n), true),
         toGuest := w.toGuest + [Message(bytes, SentMap(handle, recs))],
         log := w.log[handle := Entry(External(n), ctrls, recs)])
    case HostRunsOutOfSpace(n) => w.(host := AfterSerializeMap(w.host, External(n), false))
    case HostSendsList(infoMap, controls, ids, bytes) =>
      w.(toGuest := w.toGuest + [ListMessage(w.host, infoMap, controls, ids, bytes)])
    case GuestSendsList(ownMap, controls, ids, bytes) =>
      w.(toHost := w.toHost + [ListMessage(w.guest, Address(ownMap), controls, ids, bytes)])
    case GuestReceives(address) =>
      var guest, m := Receive(w.guest, w.toGuest[0]), w.toGuest[0].sent;
      w.(guest := guest, toGuest := w.toGuest[1..],
         held := if m.SentMap? && m.handle in guest.maps then w.held[address := Copy(m.handle, guest.maps[m.handle])]
                 else w.held)
    case HostReceives => w.(host := Receive(w.host, w.toHost[0]), toHost := w.toHost[1..])
    case BothReset => START
  }

  /** worlds is a run: it starts fresh and each world follows from the one before. */
  predicate IsRun(worlds: seq<World>, events: seq<Event>) {
    && |worlds| == |events| + 1 && worlds[0] == START
    && forall i | 0 <= i < |events| :: Enabled(worlds[i], events[i]) && worlds[i + 1] == Next(worlds[i], events[i])
  }

  // --- The invariant.

  predicate HostOk(w: World) {
    && (forall h <- w.log :: 0 < h <= w.host.serial && w.log[h].ref.External?)
    && (forall ref <- w.host.handles ::
          var h := w.host.handles[ref]; h in w.log && w.log[h].ref == ref)
    && w.host.maps == map[]
  }

  ghost predicate LogOk(w: World) {
    forall h <- w.log ::
      var e := w.log[h];
      && HasKind(Ranges, e.recs) && AllWellTyped(e.recs)
      && exists order :: Enumerates(order, e.ctrls.Keys) && e.recs == MapRecords(order, e.ctrls)
  }

  /** The guest's copies are its own ControlIds carrying the logged records. */
  ghost predicate GuestOk(w: World)
    requires LogOk(w)
  {
    && (forall h <- w.guest.maps :: h in w.log && exists base :: w.guest.maps[h] == DecodedCtrls(base, w.log[h].recs))
    && (forall ref <- w.guest.handles :: ref.Cached? && ref.handle in w.guest.maps && w.guest.handles[ref] == ref.handle)
    && (forall h <- w.guest.maps :: Cached(h) in w.guest.handles)
    && (forall n <- w.held ::
          w.held[n].handle in w.log && exists base :: w.held[n].ctrls == DecodedCtrls(base, w.log[w.held[n].handle].recs))
  }

  /** The guest serializes no maps, so only its cached ones have handles. */
  predicate OnlyCached(t: Tables) {
    forall ref <- t.handles :: ref.Cached?
  }

  predicate MapArrives(w: World, h: uint32, k: nat)
    requires k <= |w.toGuest|
  {
    h in w.guest.maps || exists j | 0 <= j < k :: w.toGuest[j].sent.SentMap? && w.toGuest[j].sent.handle == h
  }

  predicate Faithful(kind: Kind, bytes: seq<byte>, handle: uint32, recs: seq<Record>) {
    Sound(Packet(kind, handle, recs, bytes))
  }

  predicate ToGuestOk(w: World, k: nat)
    requires k < |w.toGuest|
  {
    var m := w.toGuest[k];
    match m.sent
    case SentMap(h, recs) => h in w.log && recs == w.log[h].recs && Faithful(Ranges, m.bytes, h, recs)
    case SentList(target, None, controls, recs) => target.Some? && Untouched(m.bytes, recs)
    case SentList(target, Some(h), controls, recs) =>
      && Faithful(Values, m.bytes, h, recs) && DecodedList(recs) == controls
      && (target.None? <==> h == 0)
      && (target.Some? ==> h in w.log && target.value == w.log[h].ref && MapArrives(w, h, k))
  }

  predicate ToHostOk(m: Message) {
    match m.sent
    case SentMap(_, _) => false
    case SentList(target, None, controls, recs) => target.Some? && Untouched(m.bytes, recs)
    case SentList(target, Some(h), controls, recs) =>
      && Faithful(Values, m.bytes, h, recs) && DecodedList(recs) == controls && target.None? && h == 0
  }

  ghost predicate Inv(w: World) {
    && HostOk(w) && LogOk(w) && GuestOk(w)
    && (forall h <- w.log :: MapArrives(w, h, |w.toGuest|))
    && (forall k: nat | k < |w.toGuest| :: ToGuestOk(w, k))
    && (forall m <- w.toHost :: ToHostOk(m))
  }

  lemma ParseFaithful(kind: Kind, bytes: seq<byte>, handle: uint32, recs: seq<Record>)
    requires Faithful(kind, bytes, handle, recs)
    ensures Parse(kind, bytes) == Ok(handle, recs, |bytes|) && HasKind(kind, recs)
  {
    hide IsPacket, Parse;
    RoundTrip(kind, bytes, handle, recs, []);
    assert bytes + [] == bytes;
  }

  lemma PacketIsFaithful(kind: Kind, bytes: seq<byte>, handle: uint32, recs: seq<Record>)
    requires IsPacket(kind, bytes, handle, recs) && |bytes| < U32 && HasKind(kind, recs) && AllWellTyped(recs)
    ensures Faithful(kind, bytes, handle, recs)
  {
    assert |bytes| == PacketSize(recs);
  }

  lemma ArrivesAppend(w: World, w': World, h: uint32, k: nat)
    requires k <= |w.toGuest| && MapArrives(w, h, k)
    requires w.toGuest <= w'.toGuest && w'.guest == w.guest
    ensures MapArrives(w', h, k)
  {
    if h !in w.guest.maps {
      var j :| 0 <= j < k && w.toGuest[j].sent.SentMap? && w.toGuest[j].sent.handle == h;
      assert w'.toGuest[j].sent.SentMap? && w'.toGuest[j].sent.handle == h;
    }
  }

  /** Messages already under way stay good when the queue and the log only grow. */
  lemma GrowKeepsToGuest(w: World, w': World)
    requires Inv(w) && w'.guest == w.guest && w.toGuest <= w'.toGuest
    requires forall h <- w.log :: h in w'.log && w'.log[h] == w.log[h]
    ensures forall k: nat | k < |w.toGuest| :: ToGuestOk(w', k)
    ensures forall h <- w.log :: MapArrives(w', h, |w'.toGuest|)
  {
    hide Faithful;
    forall k: nat | k < |w.toGuest|
      ensures ToGuestOk(w', k)
    {
      assert ToGuestOk(w, k) && w'.toGuest[k] == w.toGuest[k];
      if w.toGuest[k].sent.SentList? && w.toGuest[k].sent.tag.Some? && w.toGuest[k].sent.target.Some? {
        ArrivesAppend(w, w', w.toGuest[k].sent.tag.value, k);
      }
    }
    forall h <- w.log
      ensures MapArrives(w', h, |w'.toGuest|)
    {
      ArrivesAppend(w, w', h, |w.toGuest|);
    }
  }

  /** What the guest has does not depend on later entries of the log. */
  lemma GuestOkGrows(w: World, w': World)
    requires LogOk(w) && GuestOk(w) && LogOk(w')
    requires w'.guest == w.guest && w'.held == w.held
    requires forall h <- w.log :: h in w'.log && w'.log[h] == w.log[h]
    ensures GuestOk(w')
  {
    hide LogOk, DecodedCtrls;
  }

  lemma SendMapLog(w: World, e: Event)
    requires HostOk(w) && LogOk(w) && e.HostSendsMap? && Enabled(w, e)
    ensures var w', h := Next(w, e), NextSerial(w.host);
      && h !in w.log && h > 0 && LogOk(w')
      && w'.log == w.log[h := Entry(External(e.n), e.ctrls, MapRecords(e.order, e.ctrls))]
  {
    hide IsPacket, DecodedCtrls;
    var w', h := Next(w, e), NextSerial(w.host);
    assert w'.log == w.log[h := Entry(External(e.n), e.ctrls, MapRecords(e.order, e.ctrls))];
    hide MapRecords, AllWellTyped, Enumerates;
  }

  lemma SendMapTables(w: World, e: Event)
    requires Inv(w) && e.HostSendsMap? && Enabled(w, e)
    ensures NextSerial(w.host) !in w.log
    ensures HostOk(Next(w, e)) && LogOk(Next(w, e)) && GuestOk(Next(w, e))
  {
    hide IsPacket, ToGuestOk, ToHostOk, MapArrives, DecodedCtrls, MapRecords, AllWellTyped, Enumerates, LogOk;
    SendMapLog(w, e);
    GuestOkGrows(w, Next(w, e));
    hide GuestOk;
  }

  lemma SendMapKeeps(w: World, e: Event)
    requires Inv(w) && e.HostSendsMap? && Enabled(w, e)
    ensures Inv(Next(w, e))
  {
    hide IsPacket, Faithful, DecodedCtrls;
    var w', h := Next(w, e), NextSerial(w.host);
    var recs := MapRecords(e.order, e.ctrls);
    SendMapTables(w, e);
    hide HostOk, LogOk, GuestOk, Enumerates, MapRecords;
    PacketIsFaithful(Ranges, e.bytes, h, recs);
    GrowKeepsToGuest(w, w');
    assert w'.toGuest[|w.toGuest|] == Message(e.bytes, SentMap(h, recs));
    assert ToGuestOk(w', |w.toGuest|) && MapArrives(w', h, |w'.toGuest|);
    hide HasKind, AllWellTyped, MapArrives, ToGuestOk, ToHostOk;
  }

  lemma HostListKeeps(w: World, e: Event)
    requires Inv(w) && e.HostSendsList? && Enabled(w, e)
    ensures Inv(Next(w, e))
  {
    hide IsPacket, Faithful, DecodedCtrls, DecodedList, ListRecords;
    var w' := Next(w, e);
    var tag, recs := ListHandle(w.host, e.infoMap), ListRecords(e.ids, e.controls);
    DecodedListIsList(e.ids, e.controls);
    if tag.Some? {
      PacketIsFaithful(Values, e.bytes, tag.value, recs);
    }
    GrowKeepsToGuest(w, w');
    assert w'.toGuest[|w.toGuest|] == ListMessage(w.host, e.infoMap, e.controls, e.ids, e.bytes);
    if tag.Some? && e.infoMap.Some? {
      ArrivesAppend(w, w', tag.value, |w.toGuest|);
    }
    assert ToGuestOk(w', |w.toGuest|);
  }

  /** What the guest sends is a packet without a handle, or an untouched buffer. */
  lemma GuestMessageOk(w: World, e: Event)
    requires OnlyCached(w.guest) && e.GuestSendsList? && ValidList(w.guest, Address(e.ownMap), e.controls, e.ids, e.bytes)
    ensures ToHostOk(ListMessage(w.guest, Address(e.ownMap), e.controls, e.ids, e.bytes))
  {
    hide IsPacket, Faithful, DecodedList, ListRecords;
    DecodedListIsList(e.ids, e.controls);
    if e.ownMap.None? {
      PacketIsFaithful(Values, e.bytes, 0, ListRecords(e.ids, e.controls));
    }
  }

  /** Only the queue to the host changes, and its messages are good. */
  lemma ToHostChanges(w: World, w': World)
    requires Inv(w) && forall m <- w'.toHost :: ToHostOk(m)
    requires w' == w.(toHost := w'.toHost)
    ensures Inv(w')
  {
    hide Faithful, DecodedCtrls, DecodedList, ToHostOk, Untouched, CopyOf;
    assert HostOk(w') && LogOk(w') && GuestOk(w');
    hide HostOk, LogOk, GuestOk;
    forall k: nat | k < |w'.toGuest|
      ensures ToGuestOk(w', k)
    {
      assert ToGuestOk(w, k);
    }
    hide ToGuestOk;
    forall h <- w'.log
      ensures MapArrives(w', h, |w'.toGuest|)
    {
      assert MapArrives(w, h, |w.toGuest|);
    }
  }

  lemma InvToHost(w: World)
    requires Inv(w)
    ensures OnlyCached(w.guest) && forall m <- w.toHost :: ToHostOk(m)
  {
    hide Faithful, DecodedCtrls, DecodedList, ToHostOk, HostOk, ToGuestOk, MapArrives;
  }

  lemma GuestListKeeps(w: World, e: Event)
    requires Inv(w) && e.GuestSendsList? && Enabled(w, e)
    ensures Inv(Next(w, e))
  {
    hide Inv, ToHostOk, ListMessage, ListHandle, Enumerates;
    InvToHost(w);
    GuestMessageOk(w, e);
    ToHostChanges(w, Next(w, e));
  }

  lemma ArrivesShift(w: World, w': World, h: uint32, k: nat)
    requires k < |w.toGuest| && MapArrives(w, h, k + 1)
    requires w'.toGuest == w.toGuest[1..] && w.guest.maps.Keys <= w'.guest.maps.Keys
    requires w.toGuest[0].sent.SentMap? ==> w.toGuest[0].sent.handle in w'.guest.maps
    ensures MapArrives(w', h, k)
  {
    if h !in w'.guest.maps {
      var j :| 0 <= j < k + 1 && w.toGuest[j].sent.SentMap? && w.toGuest[j].sent.handle == h;
      assert j > 0 && w'.toGuest[j - 1] == w.toGuest[j];
    }
  }

  /** The guest stores a map of the log under its handle, and keeps the copy it is given. */
  lemma GuestStores(w: World, w': World, h: uint32, address: nat)
    requires LogOk(w) && GuestOk(w) && h in w.log
    requires w'.log == w.log && LogOk(w')
    requires w'.guest == AfterDeserializeMap(w.guest, h, w.log[h].recs)
    requires w'.held == w.held[address := Copy(h, DecodedCtrls(w.guest.nextId, w.log[h].recs))]
    ensures GuestOk(w')
  {
    hide LogOk, DecodedCtrls;
  }

  lemma GuestReceivesTables(w: World, address: nat)
    requires HostOk(w) && LogOk(w) && GuestOk(w) && w.toGuest != [] && ToGuestOk(w, 0)
    ensures var w' := Next(w, GuestReceives(address));
      && HostOk(w') && LogOk(w') && GuestOk(w') && w.guest.maps.Keys <= w'.guest.maps.Keys
      && (w.toGuest[0].sent.SentMap? ==> w.toGuest[0].sent.handle in w'.guest.maps)
  {
    hide Faithful, DecodedCtrls, Parse, GuestOk, DecodedList, Untouched;
    var w', m := Next(w, GuestReceives(address)), w.toGuest[0];
    assert HostOk(w') && LogOk(w');
    if m.sent.SentMap? {
      var h := m.sent.handle;
      ParseFaithful(Ranges, m.bytes, h, m.sent.recs);
      assert w'.guest == AfterDeserializeMap(w.guest, h, w.log[h].recs);
      assert w'.held == w.held[address := Copy(h, DecodedCtrls(w.guest.nextId, w.log[h].recs))];
      hide Receive, Next, HostOk, LogOk, ToGuestOk;
      GuestStores(w, w', h, address);
    } else {
      assert w'.guest == w.guest && w'.held == w.held && w'.log == w.log;
      hide Receive, Next, HostOk, LogOk, ToGuestOk;
      GuestOkGrows(w, w');
    }
  }

  lemma GuestReceivesKeeps(w: World, address: nat)
    requires Inv(w) && w.toGuest != []
    ensures Inv(Next(w, GuestReceives(address)))
  {
    assert ToGuestOk(w, 0);
    GuestReceivesTables(w, address);
    hide Faithful, Receive, HostOk, LogOk, GuestOk, DecodedList, ToHostOk;
    var w' := Next(w, GuestReceives(address));
    assert w'.toGuest == w.toGuest[1..] && w'.toHost == w.toHost && w'.log == w.log;
    hide Next;
    forall k: nat | k < |w'.toGuest|
      ensures ToGuestOk(w', k)
    {
      ToGuestShifts(w, w', k);
    }
    hide ToGuestOk;
    forall h <- w.log
      ensures MapArrives(w', h, |w'.toGuest|)
    {
      ArrivesShift(w, w', h, |w'.toGuest|);
    }
  }

  lemma ToGuestShifts(w: World, w': World, k: nat)
    requires k + 1 < |w.toGuest| && ToGuestOk(w, k + 1)
    requires w'.toGuest == w.toGuest[1..] && w'.log == w.log && w.guest.maps.Keys <= w'.guest.maps.Keys
    requires w.toGuest[0].sent.SentMap? ==> w.toGuest[0].sent.handle in w'.guest.maps
    ensures ToGuestOk(w', k)
  {
    hide Faithful, DecodedList, Untouched;
    var m := w.toGuest[k + 1].sent;
    if m.SentList? && m.tag.Some? && m.target.Some? {
      ArrivesShift(w, w', m.tag.value, k);
    }
  }

  lemma HostReceivesKeeps(w: World)
    requires Inv(w) && w.toHost != []
    ensures Inv(Next(w, HostReceives))
  {
    hide Inv;
    InvToHost(w);
    assert ToHostOk(w.toHost[0]);
    hide ToHostOk, AfterDeserializeMap, Parse;
    ToHostChanges(w, Next(w, HostReceives));
  }

  lemma OutOfSpaceKeeps(w: World, e: Event)
    requires Inv(w) && e.HostRunsOutOfSpace? && Enabled(w, e)
    ensures Inv(Next(w, e))
  {
    hide DecodedCtrls, ToHostOk;
    var w' := Next(w, e);
    assert HostOk(w') && LogOk(w');
    GuestOkGrows(w, w');
    hide HostOk, LogOk, GuestOk;
    GrowKeepsToGuest(w, w');
    hide ToGuestOk, MapArrives;
  }

  lemma StartInv()
    ensures Inv(START)
  {
  }

  lemma NextKeeps(w: World, e: Event)
    requires Inv(w) && Enabled(w, e)
    ensures Inv(Next(w, e))
  {
    assert e.BothReset? ==> Next(w, e) == START;
    hide Inv, Next, ValidList, IsPacket;
    match e
    case HostSendsMap(_, _, _, _) => SendMapKeeps(w, e);
    case HostRunsOutOfSpace(_) => OutOfSpaceKeeps(w, e);
    case HostSendsList(_, _, _, _) => HostListKeeps(w, e);
    case GuestSendsList(_, _, _, _) => GuestListKeeps(w, e);
    case GuestReceives(address) => GuestReceivesKeeps(w, address);
    case HostReceives => HostReceivesKeeps(w);
    case BothReset => StartInv();
  }

  lemma {:induction false} RunKeeps(worlds: seq<World>, events: seq<Event>, k: nat)
    requires IsRun(worlds, events) && k < |worlds|
    ensures Inv(worlds[k])
  {
    StartInv();
    hide Inv, Next, Enabled;
    if k > 0 {
      RunKeeps(worlds, events, k - 1);
      NextKeeps(worlds[k - 1], events[k - 1]);
    }
  }

  // --- What the two sides agree on, at any point of any run.

  /** A zeroed packet has a version that is not supported. */
  lemma UntouchedIsBad(bytes: seq<byte>, recs: seq<Record>)
    requires Untouched(bytes, recs)
    ensures Parse(Values, bytes) == BadVersion
  {
    assert bytes[..4] == [0, 0, 0, 0];
    ZerosDecode();
    assert Field(bytes, 0) == 0;
  }

  lemma ZerosDecode()
    ensures Decode([0, 0, 0, 0]) == 0
  {
    var z: seq<byte> := [0, 0, 0, 0];
    assert z[1..] == [0, 0, 0] && z[1..][1..] == [0, 0] && z[1..][1..][1..] == [0] && z[1..][1..][1..][1..] == [];
  }

  /** A list that reaches the guest is the list that was sent, unless the host had not serialized its map: then
      it is an empty list. If it was sent for a map, it refers to the guest's copy of exactly that map: one
      fresh ControlId for each of the map's controls, with its id, type and range. */
  lemma GuestAgrees(worlds: seq<World>, events: seq<Event>, k: nat, l: ControlList)
    requires IsRun(worlds, events) && k < |worlds|
    requires var q := worlds[k].toGuest; q != [] && q[0].sent.SentList?
    requires Arrives(worlds[k].guest, worlds[k].toGuest[0].bytes, l)
    ensures !Parse(Values, worlds[k].toGuest[0].bytes).Undefined?
    ensures var w, m := worlds[k], worlds[k].toGuest[0].sent;
      match m.tag
      case None => m.target.Some? && l == EMPTY_LIST
      case Some(h) =>
        && l.controls == m.controls
        && (m.target.None? ==> l.idmap == GlobalIdmap)
        && (m.target.Some? ==>
              && h in w.log && w.log[h].ref == m.target.value
              && l.idmap == IdmapOf(Cached(h)) && h in w.guest.maps
              && CopyOf(w.guest.maps[h], w.log[h].ctrls))
  {
    hide Faithful, Parse, DecodedCtrls, DecodedList;
    RunKeeps(worlds, events, k);
    var w, m := worlds[k], worlds[k].toGuest[0];
    assert ToGuestOk(w, 0);
    if m.sent.tag.None? {
      UntouchedIsBad(m.bytes, m.sent.recs);
    } else {
      var h := m.sent.tag.value;
      ParseFaithful(Values, m.bytes, h, m.sent.recs);
      if m.sent.target.Some? {
        assert MapArrives(w, h, 0);
        assert Cached(h) in w.guest.handles && w.guest.handles[Cached(h)] == h;
        CopyIsCopy(w, h);
      }
    }
  }

  /** A map that reaches the guest is cached there under its handle, and given to the caller, as a copy of the map
      that was sent. */
  lemma GuestIsGiven(worlds: seq<World>, events: seq<Event>, k: nat, address: nat)
    requires IsRun(worlds, events) && k < |worlds|
    requires worlds[k].toGuest != [] && worlds[k].toGuest[0].sent.SentMap?
    ensures
      var h, w := worlds[k].toGuest[0].sent.handle, Next(worlds[k], GuestReceives(address));
      && h in w.guest.maps && h in w.log && w.log == worlds[k].log && CopyOf(w.guest.maps[h], w.log[h].ctrls)
      && w.held == worlds[k].held[address := Copy(h, w.guest.maps[h])]
      && w.toGuest == worlds[k].toGuest[1..]
  {
    hide Inv, Next, CopyOf;
    RunKeeps(worlds, events, k);
    GivenStep(worlds[k], address);
  }

  lemma GivenStep(w: World, address: nat)
    requires Inv(w) && w.toGuest != [] && w.toGuest[0].sent.SentMap?
    ensures
      var h, w' := w.toGuest[0].sent.handle, Next(w, GuestReceives(address));
      && h in w'.guest.maps && h in w'.log && w'.log == w.log && CopyOf(w'.guest.maps[h], w'.log[h].ctrls)
      && w'.held == w.held[address := Copy(h, w'.guest.maps[h])] && w'.toGuest == w.toGuest[1..]
  {
    hide Faithful, CopyOf, HostOk, LogOk, GuestOk, Receive;
    GuestReceivesKeeps(w, address);
    assert ToGuestOk(w, 0);
    GuestReceivesTables(w, address);
    CopyIsCopy(Next(w, GuestReceives(address)), w.toGuest[0].sent.handle);
  }

  /** What the guest was given is a copy of the map with that handle, too. */
  lemma HeldIsCopy(worlds: seq<World>, events: seq<Event>, k: nat, n: nat)
    requires IsRun(worlds, events) && k < |worlds| && n in worlds[k].held
    ensures
      var w := worlds[k];
      w.held[n].handle in w.log && CopyOf(w.held[n].ctrls, w.log[w.held[n].handle].ctrls)
  {
    RunKeeps(worlds, events, k);
    var w, h := worlds[k], worlds[k].held[n].handle;
    var base :| w.held[n].ctrls == DecodedCtrls(base, w.log[h].recs);
    DecodedIsCopy(w.log[h], base);
  }

  lemma DecodedIsCopy(e: Entry, base: nat)
    requires HasKind(Ranges, e.recs)
    requires exists order :: Enumerates(order, e.ctrls.Keys) && e.recs == MapRecords(order, e.ctrls)
    ensures CopyOf(DecodedCtrls(base, e.recs), e.ctrls)
  {
    hide DecodedCtrls, MapRecords, FreshIds;
    var order :| Enumerates(order, e.ctrls.Keys) && e.recs == MapRecords(order, e.ctrls);
    DecodedCtrlsAreRecords(base, e.recs);
    assert MapRecords(FreshIds(base, e.recs), DecodedCtrls(base, e.recs)) == MapRecords(order, e.ctrls);
  }

  /** In every run the guest can serialize a list iff the list has no map: a map the guest can name is a copy,
      and only the one in the cache has a handle. */
  lemma GuestSerializesIff(worlds: seq<World>, events: seq<Event>, k: nat, infoMap: Option<nat>)
    requires IsRun(worlds, events) && k < |worlds|
    ensures ListHandle(worlds[k].guest, Address(infoMap)).Some? <==> infoMap.None?
  {
    RunKeeps(worlds, events, k);
  }

  // --- Two maps never share a ControlId.

  /** The ControlIds of a map are among those created so far, and no two maps have one in common. */
  ghost predicate IdsApart(t: Tables) {
    && (forall h, c | h in t.maps && c in t.maps[h] :: c.addr < t.nextId)
    && forall h, g, c | h in t.maps && g in t.maps && h != g && c in t.maps[h] :: c !in t.maps[g]
  }

  lemma DeserializeKeepsApart(t: Tables, handle: uint32, recs: seq<Record>)
    requires IdsApart(t) && HasKind(Ranges, recs)
    ensures IdsApart(AfterDeserializeMap(t, handle, recs))
    ensures forall c <- AfterDeserializeMap(t, handle, recs).maps[handle] :: t.nextId <= c.addr < t.nextId + |recs|
  {
    hide FreshIds, DecodedCtrls, HasKind;
    DecodedAreNew(t.nextId, recs);
    StoresApart(t, AfterDeserializeMap(t, handle, recs), handle, DecodedCtrls(t.nextId, recs));
  }

  lemma StoresApart(t: Tables, after: Tables, handle: uint32, m: Ctrls)
    requires IdsApart(t) && after.maps == t.maps[handle := m] && after.nextId >= t.nextId
    requires forall c <- m :: t.nextId <= c.addr < after.nextId
    ensures IdsApart(after)
  {
    assert forall h, c | h in t.maps && c in t.maps[h] :: c !in m;
  }

  lemma DecodedAreNew(base: nat, recs: seq<Record>)
    requires HasKind(Ranges, recs)
    ensures forall c <- DecodedCtrls(base, recs) :: base <= c.addr < base + |recs|
  {
    var ids := FreshIds(base, recs);
    assert forall c <- ids :: base <= c.addr < base + |recs|;
    assert forall c <- DecodedCtrls(base, recs) :: c in ids;
  }

  lemma NextKeepsApart(w: World, e: Event)
    requires IdsApart(w.guest) && Enabled(w, e)
    ensures IdsApart(Next(w, e).guest)
  {
    hide IdsApart, Parse, ValidList, IsPacket, AllWellTyped, Enumerates;
    match e
    case GuestReceives(_) =>
      if w.toGuest[0].sent.SentMap? && Parse(Ranges, w.toGuest[0].bytes).Ok? {
        var p := Parse(Ranges, w.toGuest[0].bytes);
        if HasKind(Ranges, p.recs) {
          DeserializeKeepsApart(w.guest, p.handle, p.recs);
        }
      }
    case BothReset => InitialApart();
    case _ =>
  }

  lemma InitialApart()
    ensures IdsApart(INITIAL)
  {
  }

  /** In every run the guest's maps are told apart by their ControlIds: each map it receives has new ones. */
  lemma {:induction false} MapsApart(worlds: seq<World>, events: seq<Event>, k: nat)
    requires IsRun(worlds, events) && k < |worlds|
    ensures IdsApart(worlds[k].guest)
    decreases k
  {
    InitialApart();
    hide IdsApart, Next, Enabled;
    if k > 0 {
      MapsApart(worlds, events, k - 1);
      NextKeepsApart(worlds[k - 1], events[k - 1]);
    }
  }

  /** b has the same controls as a, each under a ControlId of its own. */
  ghost predicate CopyOf(b: Ctrls, a: Ctrls) {
    exists order: seq<ControlId>, order': seq<ControlId> ::
      && Enumerates(order, a.Keys) && Enumerates(order', b.Keys)
      && MapRecords(order', b) == MapRecords(order, a)
  }

  lemma CopyIsCopy(w: World, h: uint32)
    requires Inv(w) && h in w.guest.maps
    ensures h in w.log && CopyOf(w.guest.maps[h], w.log[h].ctrls)
  {
    var base :| w.guest.maps[h] == DecodedCtrls(base, w.log[h].recs);
    DecodedIsCopy(w.log[h], base);
  }

  /** On a copy of a map with unique ids, the numeric lookup finds the same ids, with the same type and range. */
  lemma CopyLooksUpAlike(m: ControlInfoMap, a: Ctrls, c: ControlId)
    requires m.Valid() && CopyOf(m.ctrls, a) && UniqueIds(a) && c in a
    ensures m.Find(c.id).Some? && m.Find(c.id).value.typ == c.typ && m.ctrls[m.Find(c.id).value] == a[c]
  {
    var order: seq<ControlId>, order': seq<ControlId> :|
      Enumerates(order, a.Keys) && Enumerates(order', m.ctrls.Keys) && MapRecords(order', m.ctrls) == MapRecords(order, a);
    var i :| 0 <= i < |order| && order[i] == c;
    assert MapRecords(order', m.ctrls)[i] == MapRecords(order, a)[i];
    var d := m.Find(c.id).value;
    var j :| 0 <= j < |order'| && order'[j] == d;
    assert MapRecords(order', m.ctrls)[j] == MapRecords(order, a)[j];
    assert order[j].id == c.id && order[j] in a;
    var r, r' := a[c], m.ctrls[d];
    assert [r'.min, r'.max] == [r.min, r.max];
    assert [r'.min, r'.max][0] == r.min && [r'.min, r'.max][1] == r.max;
  }

  /** Ids the original does not have are not found in the copy either. */
  lemma CopyFindsNothingElse(m: ControlInfoMap, a: Ctrls, id: uint32)
    requires m.Valid() && CopyOf(m.ctrls, a) && m.Find(id).Some?
    ensures exists c <- a :: c.id == id
  {
    var order: seq<ControlId>, order': seq<ControlId> :|
      Enumerates(order, a.Keys) && Enumerates(order', m.ctrls.Keys) && MapRecords(order', m.ctrls) == MapRecords(order, a);
    var j :| 0 <= j < |order'| && order'[j] == m.Find(id).value;
    assert MapRecords(order', m.ctrls)[j] == MapRecords(order, a)[j];
    assert order[j] in a && order[j].id == id;
  }

  /** A list that comes back to the host is the one the guest sent, under the global ids, iff the guest sent it
      without a map. Sent with the map the guest was given, it arrives as an empty list without ids. */
  lemma HostAgreesIff(worlds: seq<World>, events: seq<Event>, k: nat, l: ControlList)
    requires IsRun(worlds, events) && k < |worlds| && worlds[k].toHost != []
    requires Arrives(worlds[k].host, worlds[k].toHost[0].bytes, l)
    ensures worlds[k].toHost[0].sent.SentList? && !Parse(Values, worlds[k].toHost[0].bytes).Undefined?
    ensures var m := worlds[k].toHost[0].sent;
      && (l == ControlList(m.controls, GlobalIdmap) <==> m.target.None?)
      && (m.target.Some? ==> l == EMPTY_LIST)
  {
    hide Faithful, Parse, DecodedCtrls, DecodedList;
    RunKeeps(worlds, events, k);
    var w, m := worlds[k], worlds[k].toHost[0];
    assert ToHostOk(w.toHost[0]);
    if m.sent.target.None? {
      ParseFaithful(Values, m.bytes, 0, m.sent.recs);
    } else {
      UntouchedIsBad(m.bytes, m.sent.recs);
    }
  }

  // --- A concrete run.

  /** The image of a map without controls, under handle 1. */
  function EmptyMapBytes(): seq<byte> {
    EncodeU32(1) + EncodeU32(1) + EncodeU32(0) + EncodeU32(32) + EncodeU32(32) + seq(12, _ => 0)
  }

  lemma EmptyMapIsPacket()
    ensures IsPacket(Ranges, EmptyMapBytes(), 1, []) && |EmptyMapBytes()| == 32
  {
    var p := EmptyMapBytes();
    assert p[..32] == p && p[32..32] == [] && p[32..] == [];
    assert p[0..4] == EncodeU32(1) && p[4..8] == EncodeU32(1) && p[8..12] == EncodeU32(0);
    assert p[12..16] == EncodeU32(32) && p[16..20] == EncodeU32(32);
  }

  function EmptyList(): seq<byte> {
    seq(32, _ => 0)
  }

  lemma EmptyListIsUntouched()
    ensures Enumerates<uint32>([], {}) && ListRecords([], map[]) == [] && PacketSize([]) == 32 && Untouched(EmptyList(), [])
  {
  }

  /** The host sends a map. The guest is given a copy of it, sets nothing in a list for it, and sends that back: what
    * the host receives is the zeroed buffer. */
  lemma SentWithMapArrivesEmpty() returns (worlds: seq<World>, events: seq<Event>)
    ensures IsRun(worlds, events) && |events| == 3
    ensures
      events == [HostSendsMap(1, map[], [], EmptyMapBytes()), GuestReceives(7), GuestSendsList(Some(7), map[], [], EmptyList())]
    ensures 7 in worlds[2].held && worlds[2].held[7].handle == 1 && worlds[3].toHost != []
    ensures worlds[3].toHost[0].sent.SentList? && worlds[3].toHost[0].sent.target == Some(External(7))
    ensures worlds[3].toHost[0].bytes == EmptyList() && Parse(Values, EmptyList()) == BadVersion
  {
    events := [HostSendsMap(1, map[], [], EmptyMapBytes()), GuestReceives(7), GuestSendsList(Some(7), map[], [], EmptyList())];
    EmptyMapIsSent();
    EmptyMapIsReceived();
    EmptyListIsSent();
    EmptyListIsUntouched();
    UntouchedIsBad(EmptyList(), []);
    hide Next, Enabled, Parse, EmptyMapBytes, EmptyList, IsRun;
    ThreeSteps(MapOnItsWay(), MapHeld([]), MapHeld([EmptyListMessage()]), events);
    worlds := [START, MapOnItsWay(), MapHeld([]), MapHeld([EmptyListMessage()])];
  }

  lemma ThreeSteps(w1: World, w2: World, w3: World, events: seq<Event>)
    requires |events| == 3 && Enabled(START, events[0]) && Next(START, events[0]) == w1
    requires Enabled(w1, events[1]) && Next(w1, events[1]) == w2
    requires Enabled(w2, events[2]) && Next(w2, events[2]) == w3
    ensures IsRun([START, w1, w2, w3], events)
  {
    hide Next, Enabled;
  }

  /** The host has sent the map. */
  function MapOnItsWay(): World {
    World(Tables(1, 0, map[], map[External(1) := 1]), INITIAL, map[],
          [Message(EmptyMapBytes(), SentMap(1, []))], [], map[1 := Entry(External(1), map[], [])])
  }

  /** The guest has it. */
  function MapHeld(toHost: seq<Message>): World {
    MapOnItsWay().(guest := Tables(0, 0, map[1 := map[]], map[Cached(1) := 1]), held := map[7 := Copy(1, map[])],
                   toGuest := [], toHost := toHost)
  }

  function EmptyListMessage(): Message {
    Message(EmptyList(), SentList(Some(External(7)), None, map[], []))
  }

  lemma EmptyMapIsSent()
    ensures
      var e := HostSendsMap(1, map[], [], EmptyMapBytes());
      Enabled(START, e) && Next(START, e) == MapOnItsWay()
  {
    hide EmptyMapBytes, IsPacket;
    EmptyMapIsPacket();
    var none: Ctrls := map[];
    assert Enumerates([], none.Keys) && MapRecords([], none) == [];
    hide MapRecords, AllWellTyped, Enumerates;
  }

  lemma EmptyMapIsReceived()
    ensures Enabled(MapOnItsWay(), GuestReceives(7)) && Next(MapOnItsWay(), GuestReceives(7)) == MapHeld([])
  {
    EmptyMapIsPacket();
    hide IsPacket, Parse, Faithful, EmptyMapBytes;
    PacketIsFaithful(Ranges, EmptyMapBytes(), 1, []);
    ParseFaithful(Ranges, EmptyMapBytes(), 1, []);
    assert DecodedCtrls(0, []) == map[];
    assert MapOnItsWay().toGuest[1..] == [];
  }

  lemma EmptyListIsSent()
    ensures
      var e := GuestSendsList(Some(7), map[], [], EmptyList());
      Enabled(MapHeld([]), e) && Next(MapHeld([]), e) == MapHeld([EmptyListMessage()])
  {
    EmptyListIsUntouched();
    hide EmptyList, Untouched;
    assert ListHandle(MapHeld([]).guest, Some(External(7))) == None;
  }
}
