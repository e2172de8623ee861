/** Control metadata, and the numeric-id lookup of a control info map. */
module Controls {
  import opened Bytes
  import opened ControlFormat

  /** A ControlId object; addr is its identity, which is what maps are keyed by. */
  datatype ControlId = ControlId(addr: nat, id: uint32, typ: ControlType)

  datatype ControlRange = ControlRange(min: ControlValue, max: ControlValue)

  type Ctrls = map<ControlId, ControlRange>

  datatype ControlInfoMap = ControlInfoMap(ctrls: Ctrls, idmap: map<uint32, ControlId>)
  {
    /** idmap_ holds, for each id that occurs, some control with that id. */
    predicate Valid() {
      && (forall c <- ctrls :: c.id in idmap)
      && (forall id <- idmap :: idmap[id] in ctrls && idmap[id].id == id)
    }

    function Find(id: uint32): (r: Option<ControlId>)
      ensures Valid() ==> (r.Some? <==> exists c <- ctrls :: c.id == id)
    {
      if id in idmap && idmap[id] in ctrls then Some(idmap[id]) else None
    }
  }

  /** order lists the keys of an unordered container in some iteration order. */
  predicate Enumerates<T(==)>(order: seq<T>, keys: set<T>) {
    && (forall k <- order :: k in keys)
    && (forall k <- keys :: k in order)
    && forall i, j | 0 <= i < j < |order| :: order[i] != order[j]
  }

  predicate UniqueIds(ctrls: Ctrls) {
    forall a <- ctrls, b <- ctrls :: a.id == b.id ==> a == b
  }

  /** What generateIdmap() checks: the type of each range's minimum, and nothing about its maximum. */
  predicate MinTypesMatch(ctrls: Ctrls) {
    forall c <- ctrls :: ctrls[c].min.Type() == c.typ
  }

  method GenerateIdmap(ctrls: Ctrls, order: seq<ControlId>) returns (m: ControlInfoMap)
    requires Enumerates(order, ctrls.Keys)
    ensures m.Valid()
    ensures m.ctrls == if MinTypesMatch(ctrls) then ctrls else map[]
  {
    var idmap: map<uint32, ControlId> := map[];
    for i := 0 to |order|
      invariant forall k | 0 <= k < i :: order[k].id in idmap && ctrls[order[k]].min.Type() == order[k].typ
      invariant forall id <- idmap :: idmap[id] in ctrls && idmap[id].id == id
    {
      var c := order[i];
      if c.typ != ctrls[c].min.Type() {
        return ControlInfoMap(map[], map[]);
      }
      idmap := idmap[c.id := c];
    }
    m := ControlInfoMap(ctrls, idmap);
  }

  /** The first control with this id in iteration order. */
  function Scan(order: seq<ControlId>, id: uint32): Option<ControlId> {
    if order == [] then None
    else if order[0].id == id then Some(order[0])
    else Scan(order[1..], id)
  }

  lemma {:induction false} ScanFinds(order: seq<ControlId>, id: uint32)
    ensures Scan(order, id).Some? ==> Scan(order, id).value in order && Scan(order, id).value.id == id
    ensures Scan(order, id).None? ==> forall c <- order :: c.id != id
  {
    if order != [] {
      ScanFinds(order[1..], id);
    }
  }

  /** With unique ids the numeric lookup is a linear scan, whatever the iteration order was. */
  lemma FindIsScan(m: ControlInfoMap, order: seq<ControlId>, id: uint32)
    requires m.Valid() && UniqueIds(m.ctrls) && Enumerates(order, m.ctrls.Keys)
    ensures m.Find(id) == Scan(order, id)
  {
    ScanFinds(order, id);
  }

  /** Without unique ids it is not: both controls are valid answers, and the order decides. */
  lemma FindIsScanOnlyIfUnique(m: ControlInfoMap, a: ControlId, b: ControlId)
    requires m.Valid() && a in m.ctrls && b in m.ctrls && a != b && a.id == b.id
    ensures exists m': ControlInfoMap :: m'.Valid() && m'.ctrls == m.ctrls && m'.Find(a.id) != m.Find(a.id)
  {
    var other := if m.idmap[a.id] == a then b else a;
    var m' := m.(idmap := m.idmap[a.id := other]);
    assert m'.Valid() && m'.Find(a.id) == Some(other);
  }

  // --- Maps and lists as records.

  function RangeRecord(c: ControlId, r: ControlRange): Record {
    Record(c.id, c.typ, [r.min, r.max])
  }

  function MapRecords(order: seq<ControlId>, ctrls: Ctrls): (recs: seq<Record>)
    requires forall c <- order :: c in ctrls
    ensures |recs| == |order| && forall i | 0 <= i < |order| :: recs[i] == RangeRecord(order[i], ctrls[order[i]])
  {
    seq(|order|, i requires 0 <= i < |order| => RangeRecord(order[i], ctrls[order[i]]))
  }

  /** The ControlIds deserialize() creates for these records, numbered from base. */
  function FreshIds(base: nat, recs: seq<Record>): (ids: seq<ControlId>)
    ensures |ids| == |recs|
    ensures forall i | 0 <= i < |recs| :: ids[i] == ControlId(base + i, recs[i].id, recs[i].typ)
  {
    seq(|recs|, i requires 0 <= i < |recs| => ControlId(base + i, recs[i].id, recs[i].typ))
  }

  function DecodedCtrls(base: nat, recs: seq<Record>): (ctrls: Ctrls)
    requires HasKind(Ranges, recs)
    ensures forall c :: c in ctrls <==> c in FreshIds(base, recs)
    ensures forall i | 0 <= i < |recs| ::
      ctrls[FreshIds(base, recs)[i]] == ControlRange(recs[i].vals[0], recs[i].vals[1])
  {
    var ids := FreshIds(base, recs);
    map c | c in ids :: assert ids[c.addr - base] == c; ControlRange(recs[c.addr - base].vals[0], recs[c.addr - base].vals[1])
  }

  lemma DecodedCtrlsAt(base: nat, recs: seq<Record>, i: nat)
    requires HasKind(Ranges, recs) && i < |recs|
    ensures var c := FreshIds(base, recs)[i];
            c in DecodedCtrls(base, recs) && RangeRecord(c, DecodedCtrls(base, recs)[c]) == recs[i]
  {
    hide DecodedCtrls, FreshIds;
    assert |recs[i].vals| == 2;
    assert recs[i].vals == [recs[i].vals[0], recs[i].vals[1]];
  }

  /** The receiver's map holds one fresh ControlId per record, and nothing else... */
  lemma DecodedCtrlsKeys(base: nat, recs: seq<Record>)
    requires HasKind(Ranges, recs)
    ensures Enumerates(FreshIds(base, recs), DecodedCtrls(base, recs).Keys)
  {
    hide FreshIds, DecodedCtrls;
  }

  /** ... and these carry the sender's records. */
  lemma DecodedCtrlsAreRecords(base: nat, recs: seq<Record>)
    requires HasKind(Ranges, recs)
    ensures Enumerates(FreshIds(base, recs), DecodedCtrls(base, recs).Keys)
    ensures MapRecords(FreshIds(base, recs), DecodedCtrls(base, recs)) == recs
  {
    DecodedCtrlsKeys(base, recs);
    hide *;
    var ids, ctrls := FreshIds(base, recs), DecodedCtrls(base, recs);
    forall i: nat | i < |recs|
      ensures MapRecords(ids, ctrls)[i] == recs[i]
    {
      DecodedCtrlsAt(base, recs, i);
    }
  }

  /** Being well typed, they pass the constructor's check, so the map is not cleared. */
  lemma DecodedCtrlsPass(base: nat, recs: seq<Record>)
    requires HasKind(Ranges, recs) && AllWellTyped(recs)
    ensures MinTypesMatch(DecodedCtrls(base, recs))
  {
    hide FreshIds, DecodedCtrls, Enumerates;
    var ids, ctrls := FreshIds(base, recs), DecodedCtrls(base, recs);
    forall c <- ctrls
      ensures ctrls[c].min.Type() == c.typ
    {
      var i :| 0 <= i < |ids| && ids[i] == c;
      DecodedCtrlsAt(base, recs, i);
      assert recs[i] in recs && WellTyped(recs[i]) && recs[i].vals[0] in recs[i].vals;
    }
  }

  function ListRecords(order: seq<uint32>, controls: map<uint32, ControlValue>): (recs: seq<Record>)
    requires forall id <- order :: id in controls
    ensures |recs| == |order|
    ensures forall i | 0 <= i < |order| :: recs[i] == Record(order[i], controls[order[i]].Type(), [controls[order[i]]])
  {
    seq(|order|, i requires 0 <= i < |order| => Record(order[i], controls[order[i]].Type(), [controls[order[i]]]))
  }

  /** Setting the decoded values one after the other. */
  function DecodedList(recs: seq<Record>): map<uint32, ControlValue>
    requires HasKind(Values, recs)
  {
    if recs == [] then map[]
    else var r := recs[|recs| - 1]; DecodedList(recs[..|recs| - 1])[r.id := r.vals[0]]
  }

  lemma {:induction false} DecodedListKeys(order: seq<uint32>, controls: map<uint32, ControlValue>)
    requires forall id <- order :: id in controls
    ensures HasKind(Values, ListRecords(order, controls)) && AllWellTyped(ListRecords(order, controls))
    ensures forall id :: id in DecodedList(ListRecords(order, controls)) <==> id in order
    ensures forall id <- order :: DecodedList(ListRecords(order, controls))[id] == controls[id]
  {
    var n, recs := |order| - 1, ListRecords(order, controls);
    if order != [] {
      DecodedListKeys(order[..n], controls);
      assert recs[..n] == ListRecords(order[..n], controls);
      assert order == order[..n] + [order[n]];
    }
  }

  lemma DecodedListIsList(order: seq<uint32>, controls: map<uint32, ControlValue>)
    requires Enumerates(order, controls.Keys)
    ensures HasKind(Values, ListRecords(order, controls)) && AllWellTyped(ListRecords(order, controls))
    ensures DecodedList(ListRecords(order, controls)) == controls
  {
    DecodedListKeys(order, controls);
  }

  /** A list has the ids of its records, and of several records with one id the last one counts. */
  lemma {:induction false} DecodedListIs(recs: seq<Record>, id: uint32)
    requires HasKind(Values, recs)
    ensures id in DecodedList(recs) <==> exists k | 0 <= k < |recs| :: recs[k].id == id
    ensures forall k | 0 <= k < |recs| && recs[k].id == id && (forall j | k < j < |recs| :: recs[j].id != id) ::
      DecodedList(recs)[id] == recs[k].vals[0]
    decreases |recs|
  {
    if recs != [] {
      var n := |recs| - 1;
      DecodedListIs(recs[..n], id);
      assert recs == recs[..n] + [recs[n]];
      if recs[n].id != id {
        assert forall k | 0 <= k < n :: recs[..n][k] == recs[k];
      }
    }
  }

  /** A map's records are well typed exactly when its constructor check passed and each maximum agrees too. */
  lemma MapRecordsWellTyped(order: seq<ControlId>, ctrls: Ctrls)
    requires Enumerates(order, ctrls.Keys)
    ensures HasKind(Ranges, MapRecords(order, ctrls))
    ensures AllWellTyped(MapRecords(order, ctrls))
       <==> MinTypesMatch(ctrls) && forall c <- ctrls :: ctrls[c].max.Type() == c.typ
  {
    var recs := MapRecords(order, ctrls);
    if AllWellTyped(recs) {
      forall c <- ctrls
        ensures ctrls[c].min.Type() == c.typ && ctrls[c].max.Type() == c.typ
      {
        var i :| 0 <= i < |order| && order[i] == c;
        assert WellTyped(recs[i]) && recs[i].vals[0] in recs[i].vals && recs[i].vals[1] in recs[i].vals;
      }
    }
  }
}
