/** The serializer with its handle tables, and what each call does to them. */
module Serializer {
  import opened Bytes
  import opened ByteStream
  import opened ControlFormat
  import opened Controls
  import opened PacketWriter
  import opened PacketReader

  const ENOENT: int := 2

  /** The address of a ControlInfoMap: one the caller owns, or the cache entry for a handle. */
  datatype MapRef = External(n: nat) | Cached(handle: uint32)

  /** The state of one serializer, without the idmaps. */
  datatype Tables = Tables(serial: uint32, nextId: nat, maps: map<uint32, Ctrls>, handles: map<MapRef, uint32>)

  const INITIAL := Tables(0, 0, map[], map[])

  function NextSerial(t: Tables): uint32 {
    (t.serial + 1) % U32
  }

  /** A map serialization consumes a handle even when it fails, and records it only when it does not. */
  function AfterSerializeMap(t: Tables, ref: MapRef, ok: bool): Tables {
    t.(serial := NextSerial(t), handles := if ok then t.handles[ref := NextSerial(t)] else t.handles)
  }

  function AfterDeserializeMap(t: Tables, handle: uint32, recs: seq<Record>): Tables
    requires HasKind(Ranges, recs)
  {
    t.(nextId := t.nextId + |recs|,
       maps := t.maps[handle := DecodedCtrls(t.nextId, recs)],
       handles := t.handles[Cached(handle) := handle])
  }

  /** The handle a list is tagged with: 0 without a map, none when its map is unknown. */
  function ListHandle(t: Tables, infoMap: Option<MapRef>): Option<uint32> {
    if infoMap.None? then Some(0)
    else if infoMap.value in t.handles then Some(t.handles[infoMap.value]) else None
  }

  /** Which id map a deserialized list refers to. */
  datatype IdmapRef = NoIdmap | GlobalIdmap | IdmapOf(ref: MapRef)

  datatype ControlList = ControlList(controls: map<uint32, ControlValue>, idmap: IdmapRef)

  const EMPTY_LIST := ControlList(map[], NoIdmap)

  /** l is what deserializing a list with these contents yields in state t. */
  predicate DeserializesList(t: Tables, handle: uint32, recs: seq<Record>, l: ControlList)
    requires HasKind(Values, recs)
  {
    if handle == 0 then l == ControlList(DecodedList(recs), GlobalIdmap)
    else if handle !in t.handles.Values then l == EMPTY_LIST
    else
      && l.controls == DecodedList(recs)
      && l.idmap.IdmapOf? && l.idmap.ref in t.handles && t.handles[l.idmap.ref] == handle
  }

  /** The cached maps without their idmaps. */
  function WithoutIdmaps(ms: map<uint32, ControlInfoMap>): map<uint32, Ctrls> {
    map h | h in ms :: ms[h].ctrls
  }

  lemma WithoutIdmapsUpdate(ms: map<uint32, ControlInfoMap>, h: uint32, m: ControlInfoMap)
    ensures WithoutIdmaps(ms[h := m]) == WithoutIdmaps(ms)[h := m.ctrls]
  {
  }

  class ControlSerializer {
    var serial: uint32
    var controlIds: seq<ControlId>
    var infoMaps: map<uint32, ControlInfoMap>
    var infoMapHandles: map<MapRef, uint32>

    function View(): Tables
      reads this
    {
      Tables(serial, |controlIds|, WithoutIdmaps(infoMaps), infoMapHandles)
    }

    /** Every cached map has a usable numeric lookup. */
    ghost predicate Valid()
      reads this
    {
      forall h <- infoMaps :: infoMaps[h].Valid()
    }

    constructor ()
      ensures Valid() && View() == INITIAL
    {
      serial := 0;
      controlIds := [];
      infoMaps := map[];
      infoMapHandles := map[];
    }

    method Reset()
      modifies this
      ensures Valid() && View() == INITIAL
    {
      serial := 0;
      infoMapHandles := map[];
      infoMaps := map[];
      controlIds := [];
    }

    /** serialize() of the map at address ref, whose contents are met in this order. */
    method SerializeMap(ref: MapRef, ctrls: Ctrls, order: seq<ControlId>, buffer: ByteStreamBuffer) returns (ret: int)
      requires Valid() && Enumerates(order, ctrls.Keys)
      requires buffer.Valid() && buffer.base.At? && buffer.write.At? && !buffer.overflow
      modifies this, buffer`write, buffer`overflow, buffer`read, buffer.ancestors`overflow, buffer.mem
      ensures Valid() && View() == AfterSerializeMap(old(View()), ref, ret == 0)
      ensures serial as int == (old(serial) as int + 1) % U32
      ensures infoMapHandles == if ret == 0 then old(infoMapHandles)[ref := serial] else old(infoMapHandles)
      ensures var recs := MapRecords(order, ctrls);
        && ret == (if old(buffer.View()).Fits(PacketSize(recs)) then 0 else -ENOSPC)
        && (ret == 0 ==>
              && buffer.View() == old(buffer.View()).Advance(PacketSize(recs))
              && IsPacket(Ranges, buffer.mem[old(buffer.write).off..buffer.write.off], serial, recs))
        && (ret != 0 ==> Flagged(buffer))
      ensures SameOutside(buffer.mem[..], old(buffer.mem[..]), old(buffer.write).off,
                          if ret == 0 then buffer.write.off else buffer.View().End())
    {
      hide IsPacket, SameOutside;
      var recs := MapRecords(order, ctrls);
      serial := NextSerial(View());
      ret := WritePacket(Ranges, serial, recs, buffer);
      if ret == 0 {
        infoMapHandles := infoMapHandles[ref := serial];
      }
    }

    method SerializeList(infoMap: Option<MapRef>, controls: map<uint32, ControlValue>, order: seq<uint32>,
                         buffer: ByteStreamBuffer) returns (ret: int)
      requires Enumerates(order, controls.Keys)
      requires buffer.Valid() && buffer.base.At? && buffer.write.At? && !buffer.overflow
      modifies buffer`write, buffer`overflow, buffer`read, buffer.ancestors`overflow, buffer.mem
      ensures var recs, handle := ListRecords(order, controls), ListHandle(View(), infoMap);
        && ret == (if handle.None? then -ENOENT else if old(buffer.View()).Fits(PacketSize(recs)) then 0 else -ENOSPC)
        && (ret == 0 ==>
              && buffer.View() == old(buffer.View()).Advance(PacketSize(recs))
              && IsPacket(Values, buffer.mem[old(buffer.write).off..buffer.write.off], handle.value, recs))
        && (ret == -ENOENT ==> buffer.View() == old(buffer.View()) && buffer.mem[..] == old(buffer.mem[..]))
        && (ret == -ENOSPC ==> Flagged(buffer))
      ensures ret != -ENOENT ==>
        SameOutside(buffer.mem[..], old(buffer.mem[..]), old(buffer.write).off,
                    if ret == 0 then buffer.write.off else buffer.View().End())
    {
      hide IsPacket, SameOutside;
      var handle := ListHandle(View(), infoMap);
      if handle.None? { return -ENOENT; }
      ret := WritePacket(Values, handle.value, ListRecords(order, controls), buffer);
    }

    /** The iteration order of a container is whatever the library makes it. */
    static method IterationOrder(ids: seq<ControlId>, ctrls: Ctrls) returns (order: seq<ControlId>)
      requires Enumerates(ids, ctrls.Keys)
      ensures Enumerates(order, ctrls.Keys)
    {
      order := ids;
    }

    /** Creates the ControlIds, and caches the map under its handle. */
    method Remember(handle: uint32, recs: seq<Record>) returns (m: ControlInfoMap)
      requires Valid() && HasKind(Ranges, recs) && AllWellTyped(recs)
      modifies this
      ensures Valid() && View() == AfterDeserializeMap(old(View()), handle, recs)
      ensures m.Valid() && m.ctrls == DecodedCtrls(old(|controlIds|), recs)
    {
      hide DecodedCtrls, FreshIds, Enumerates, MinTypesMatch, AllWellTyped, HasKind, ControlInfoMap.Valid;
      var ids, ctrls := FreshIds(|controlIds|, recs), DecodedCtrls(|controlIds|, recs);
      DecodedCtrlsKeys(|controlIds|, recs);
      DecodedCtrlsPass(|controlIds|, recs);
      controlIds := controlIds + ids;
      var order := IterationOrder(ids, ctrls);
      m := GenerateIdmap(ctrls, order);
      WithoutIdmapsUpdate(infoMaps, handle, m);
      hide WithoutIdmaps;
      infoMaps := infoMaps[handle := m];
      infoMapHandles := infoMapHandles[Cached(handle) := handle];
    }

    /** What is returned is a copy. Only the map in the cache gets the handle, so no address that a caller can
        hold, be it that of the copy, has a handle it did not have before. */
    method DeserializeMap(buffer: ByteStreamBuffer) returns (m: ControlInfoMap)
      requires Valid() && CanRead(buffer)
      modifies this, buffer`read, buffer`write, buffer`overflow, buffer.ancestors`overflow
      ensures Valid()
      ensures match Parse(Ranges, old(Ahead(buffer)))
        case Ok(handle, recs, size) =>
          && HasKind(Ranges, recs)
          && View() == AfterDeserializeMap(old(View()), handle, recs)
          && m.Valid() && m.ctrls == View().maps[handle] == DecodedCtrls(old(|controlIds|), recs)
          && (forall n: nat :: ListHandle(View(), Some(External(n))) == ListHandle(old(View()), Some(External(n))))
          && Moved(buffer, size)
        case Undefined => true
        case _ =>
          && m == ControlInfoMap(map[], map[]) && old(controlIds) <= controlIds
          && View() == old(View()).(nextId := |controlIds|)
    {
      hide Parse, DecodedCtrls, FreshIds;
      var p := ReadPacket(Ranges, buffer);
      match p
      case Ok(handle, recs, size) =>
        ParsedOkTypes(Ranges, old(Ahead(buffer)));
        m := Remember(handle, recs);
      case OffsetMismatch(_) =>
        var created: seq<ControlId> := *;
        controlIds := controlIds + created;
        m := ControlInfoMap(map[], map[]);
      case _ =>
        m := ControlInfoMap(map[], map[]);
    }

    method DeserializeList(buffer: ByteStreamBuffer) returns (l: ControlList)
      requires CanRead(buffer)
      modifies buffer`read, buffer`write, buffer`overflow, buffer.ancestors`overflow
      ensures match Parse(Values, old(Ahead(buffer)))
        case Ok(handle, recs, size) => HasKind(Values, recs) && DeserializesList(View(), handle, recs, l) && Moved(buffer, size)
        case Undefined => true
        case _ => l == EMPTY_LIST
      ensures var p := Parse(Values, old(Ahead(buffer)));
        p.Ok? ==>
          if p.handle == 0 then l.idmap == GlobalIdmap
          else l.idmap.IdmapOf? || (l == EMPTY_LIST && p.handle !in infoMapHandles.Values)
    {
      hide Parse;
      var p := ReadPacket(Values, buffer);
      match p
      case Ok(handle, recs, size) =>
        ParsedOkTypes(Values, old(Ahead(buffer)));
        var idmap := GlobalIdmap;
        if handle != 0 {
          if handle !in infoMapHandles.Values { return EMPTY_LIST; }
          var ref :| ref in infoMapHandles && infoMapHandles[ref] == handle;
          idmap := IdmapOf(ref);
        }
        var controls: map<uint32, ControlValue> := map[];
        for i := 0 to |recs|
          invariant controls == DecodedList(recs[..i])
        {
          assert recs[..i + 1][..i] == recs[..i];
          controls := controls[recs[i].id := recs[i].vals[0]];
        }
        assert recs[..|recs|] == recs;
        l := ControlList(controls, idmap);
      case _ =>
        l := EMPTY_LIST;
    }
  }
}
