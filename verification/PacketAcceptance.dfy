/** Which packets deserialize() accepts, and why it refuses the others: entry by entry, without its loop. */
module PacketAcceptance {
  import opened Bytes
  import opened ControlFormat

  // --- Values.

  /** These bytes stand for a value: any byte but 0 is true, everything else has one representation. */
  predicate Denotes(s: seq<byte>, v: ControlValue) {
    if v.Bool? then |s| == 1 && (v.b <==> s[0] != 0) else s == Store(v)
  }

  lemma LoadIff(t: ControlType, s: seq<byte>, v: ControlValue)
    requires |s| == LoadSize(t)
    ensures LoadExact(t, s) == v <==> v.Type() == t && Denotes(s, v)
  {
    Pow256Values();
    DecodeBounds(s);
    EncodeDecode(s);
    if v.Type() == t && !v.Bool? {
      LoadStore(v);
    }
  }

  /** A value of a type at an offset. */
  predicate ValueReads(t: ControlType, v: ControlValue, vs: seq<byte>, at: nat) {
    at + LoadSize(t) <= |vs| && v.Type() == t && Denotes(vs[at..at + LoadSize(t)], v)
  }

  /** The two values of an info map's entry, one behind the other, or the value of a list's. */
  predicate ValuesRead(kind: Kind, t: ControlType, vals: seq<ControlValue>, vs: seq<byte>, at: nat) {
    && |vals| == Arity(kind)
    && ValueReads(t, vals[0], vs, at)
    && (kind == Ranges ==> ValueReads(t, vals[1], vs, at + LoadSize(t)))
  }

  function Length(kind: Kind, t: ControlType): nat {
    if kind == Ranges then 2 * LoadSize(t) else LoadSize(t)
  }

  lemma LoadAllIff(kind: Kind, t: ControlType, vs: seq<byte>, vals: seq<ControlValue>, used: nat)
    ensures LoadAll(t, Arity(kind), vs) == Some((vals, used)) <==> ValuesRead(kind, t, vals, vs, 0) && used == Length(kind, t)
  {
    var k := LoadSize(t);
    LoadAllShort(kind, t, vs);
    if |vs| >= Length(kind, t) && |vals| == Arity(kind) {
      LoadIff(t, vs[..k], vals[0]);
      if kind == Ranges {
        LoadIff(t, vs[k..][..k], vals[1]);
        assert vs[k..k + k] == vs[k..][..k];
        assert vals == [vals[0], vals[1]];
      } else {
        assert vals == [vals[0]];
      }
    }
    hide LoadExact, Denotes, LoadSize, LoadAll;
  }

  lemma LoadAllShort(kind: Kind, t: ControlType, vs: seq<byte>)
    ensures LoadAll(t, Arity(kind), vs)
         == if |vs| < Length(kind, t) then None
            else
              var k := LoadSize(t);
              var v := LoadExact(t, vs[..k]);
              Some((if kind == Ranges then [v, LoadExact(t, vs[k..][..k])] else [v], Length(kind, t)))
  {
    var k := LoadSize(t);
    LoadOne(t, vs);
    if kind == Ranges && |vs| >= k {
      LoadOne(t, vs[k..]);
      assert LoadAll(t, 2, vs) == match LoadAll(t, 1, vs[k..])
        case None => None
        case Some((tail, used)) => Some(([LoadExact(t, vs[..k])] + tail, k + used));
      if |vs| >= 2 * k {
        var v, w := LoadExact(t, vs[..k]), LoadExact(t, vs[k..][..k]);
        assert [v] + [w] == [v, w];
      }
    }
    hide LoadExact, LoadAll;
  }

  lemma LoadOne(t: ControlType, s: seq<byte>)
    ensures LoadAll(t, 1, s) == if |s| < LoadSize(t) then None else Some(([LoadExact(t, s[..LoadSize(t)])], LoadSize(t)))
  {
    if |s| >= LoadSize(t) {
      var v := LoadExact(t, s[..LoadSize(t)]);
      assert LoadAll(t, 0, s[LoadSize(t)..]) == Some(([], 0)) && [v] + [] == [v];
    }
    hide LoadExact;
  }

  // --- Entries.

  /** The place of the offset in an entry. */
  function OffsetField(kind: Kind): nat {
    if kind == Ranges then 8 else 12
  }

  /** The entry at p and the values at an offset read as a record. The values begin base bytes behind the first. */
  predicate EntryReads(kind: Kind, es: seq<byte>, p: nat, vs: seq<byte>, at: nat, base: nat, r: Record) {
    && p + 16 <= |es|
    && Field(es, p) == r.id && Field(es, p + 4) == TypeCode(r.typ)
    && Field(es, p + OffsetField(kind)) == (base + at) % U32
    && ValuesRead(kind, r.typ, r.vals, vs, at)
  }

  lemma EntryIff(kind: Kind, es: seq<byte>, vs: seq<byte>, off: nat, r: Record, used: nat)
    ensures ParseEntry(kind, es, vs, off) == OneEntry(r, used)
        <==> EntryReads(kind, es, 0, vs, 0, off, r) && used == Length(kind, r.typ)
  {
    hide Field, LoadAll, ValuesRead, LoadSize, Length;
    if |es| >= 16 {
      var t := TypeOf(Field(es, 4));
      if t.Some? {
        LoadAllIff(kind, t.value, vs, r.vals, used);
      }
    }
  }

  /** Where the values of the i-th record begin. */
  function Before(kind: Kind, recs: seq<Record>, i: nat): nat
    requires i <= |recs|
  {
    if i == 0 then 0 else Length(kind, recs[0].typ) + Before(kind, recs[1..], i - 1)
  }

  /** The first entries read as these records, each with its values behind those of the ones before. */
  predicate Reads(kind: Kind, es: seq<byte>, vs: seq<byte>, base: nat, recs: seq<Record>) {
    forall i | 0 <= i < |recs| :: ReadsAt(kind, es, vs, base, recs, i)
  }

  predicate ReadsAt(kind: Kind, es: seq<byte>, vs: seq<byte>, base: nat, recs: seq<Record>, i: nat)
    requires i < |recs|
  {
    EntryReads(kind, es, 16 * i, vs, Before(kind, recs, i), base, recs[i])
  }

  lemma EntryShift(kind: Kind, es: seq<byte>, p: nat, vs: seq<byte>, u: nat, at: nat, base: nat, r: Record)
    requires |es| >= 16 && u <= |vs|
    ensures EntryReads(kind, es[16..], p, vs[u..], at, base + u, r) <==> EntryReads(kind, es, p + 16, vs, at + u, base, r)
  {
    hide Field, LoadSize, ValueReads;
    if p + 32 <= |es| {
      FieldShift(es, p);
      FieldShift(es, p + 4);
      FieldShift(es, p + OffsetField(kind));
    }
    ValuesShift(kind, r.typ, r.vals, vs, u, at);
    hide ValuesRead;
  }

  lemma ValuesShift(kind: Kind, t: ControlType, vals: seq<ControlValue>, vs: seq<byte>, u: nat, at: nat)
    requires u <= |vs|
    ensures ValuesRead(kind, t, vals, vs[u..], at) <==> ValuesRead(kind, t, vals, vs, at + u)
  {
    hide LoadSize, ValueReads;
    ValueShift(t, vs, u, at);
    ValueShift(t, vs, u, at + LoadSize(t));
  }

  lemma FieldShift(es: seq<byte>, k: nat)
    requires k + 20 <= |es|
    ensures Field(es[16..], k) == Field(es, k + 16)
  {
    assert es[16..][k..k + 4] == es[k + 16..k + 20];
  }

  lemma ValueShift(t: ControlType, vs: seq<byte>, u: nat, at: nat)
    requires u <= |vs|
    ensures forall v :: ValueReads(t, v, vs[u..], at) <==> ValueReads(t, v, vs, at + u)
  {
    var n := LoadSize(t);
    if at + u + n <= |vs| {
      assert vs[u..][at..at + n] == vs[at + u..at + u + n];
    }
    hide Denotes, LoadSize;
  }

  lemma ReadsAtShift(kind: Kind, es: seq<byte>, vs: seq<byte>, base: nat, recs: seq<Record>, i: nat)
    requires 0 < i < |recs| && |es| >= 16 && Length(kind, recs[0].typ) <= |vs|
    ensures
      var u := Length(kind, recs[0].typ);
      ReadsAt(kind, es[16..], vs[u..], base + u, recs[1..], i - 1) <==> ReadsAt(kind, es, vs, base, recs, i)
  {
    hide EntryReads, Length;
    var u, rest := Length(kind, recs[0].typ), recs[1..];
    EntryShift(kind, es, 16 * (i - 1), vs, u, Before(kind, rest, i - 1), base, rest[i - 1]);
  }

  lemma ReadsTail(kind: Kind, es: seq<byte>, vs: seq<byte>, base: nat, recs: seq<Record>)
    requires recs != [] && |es| >= 16 && Length(kind, recs[0].typ) <= |vs|
    ensures
      var u := Length(kind, recs[0].typ);
      Reads(kind, es[16..], vs[u..], base + u, recs[1..]) <==> forall i | 0 < i < |recs| :: ReadsAt(kind, es, vs, base, recs, i)
  {
    hide ReadsAt, Length;
    var u, rest := Length(kind, recs[0].typ), recs[1..];
    var es', vs', base' := es[16..], vs[u..], base + u;
    forall i | 0 < i < |recs|
      ensures ReadsAt(kind, es', vs', base', rest, i - 1) <==> ReadsAt(kind, es, vs, base, recs, i)
    {
      ReadsAtShift(kind, es, vs, base, recs, i);
    }
    if Reads(kind, es', vs', base', rest) {
      forall i | 0 < i < |recs| ensures ReadsAt(kind, es, vs, base, recs, i) {
        assert ReadsAt(kind, es', vs', base', rest, i - 1);
      }
    } else {
      var j :| 0 <= j < |rest| && !ReadsAt(kind, es', vs', base', rest, j);
      assert !ReadsAt(kind, es, vs, base, recs, j + 1);
    }
  }

  lemma ReadsUnfold(kind: Kind, es: seq<byte>, vs: seq<byte>, base: nat, recs: seq<Record>)
    requires recs != []
    ensures
      var u := Length(kind, recs[0].typ);
      Reads(kind, es, vs, base, recs)
      <==> EntryReads(kind, es, 0, vs, 0, base, recs[0]) && |es| >= 16 && u <= |vs|
           && Reads(kind, es[16..], vs[u..], base + u, recs[1..])
  {
    FirstReads(kind, es, vs, base, recs);
    hide ReadsAt, EntryReads, Length;
    if EntryReads(kind, es, 0, vs, 0, base, recs[0]) {
      EntryFits(kind, es, vs, base, recs[0]);
      ReadsTail(kind, es, vs, base, recs);
    }
  }

  lemma FirstReads(kind: Kind, es: seq<byte>, vs: seq<byte>, base: nat, recs: seq<Record>)
    requires recs != []
    ensures ReadsAt(kind, es, vs, base, recs, 0) <==> EntryReads(kind, es, 0, vs, 0, base, recs[0])
  {
    hide EntryReads;
  }

  lemma EntryFits(kind: Kind, es: seq<byte>, vs: seq<byte>, base: nat, r: Record)
    requires EntryReads(kind, es, 0, vs, 0, base, r)
    ensures |es| >= 16 && Length(kind, r.typ) <= |vs|
  {
  }

  lemma {:induction false} EntriesIff(kind: Kind, es: seq<byte>, vs: seq<byte>, n: nat, base: nat, recs: seq<Record>)
    ensures ParseEntries(kind, es, vs, n, base) == Entries(recs) <==> |recs| == n && Reads(kind, es, vs, base, recs)
    decreases n
  {
    hide ParseEntry, EntryReads, Length, ReadsAt;
    if ParseEntries(kind, es, vs, n, base).Entries? {
      ParsedTypes(kind, es, vs, n, base);
      ParseEntriesStep(kind, es, vs, n, base);
    }
    if recs != [] && |recs| == n {
      var r := recs[0];
      var u := Length(kind, r.typ);
      EntryIff(kind, es, vs, base, r, u);
      var p := ParseEntry(kind, es, vs, base);
      if p.OneEntry? {
        EntryIff(kind, es, vs, base, p.r, p.used);
      }
      ReadsUnfold(kind, es, vs, base, recs);
      if EntryReads(kind, es, 0, vs, 0, base, r) {
        EntriesIff(kind, es[16..], vs[u..], n - 1, base + u, recs[1..]);
        ParseEntriesCons(kind, es, vs, n, base, recs);
      }
    }
  }

  lemma ParseEntriesCons(kind: Kind, es: seq<byte>, vs: seq<byte>, n: nat, base: nat, recs: seq<Record>)
    requires n > 0 && recs != [] && ParseEntry(kind, es, vs, base).OneEntry? && ParseEntry(kind, es, vs, base).r == recs[0]
    ensures
      var used := ParseEntry(kind, es, vs, base).used;
      ParseEntries(kind, es, vs, n, base) == Entries(recs)
      <==> ParseEntries(kind, es[16..], vs[used..], n - 1, base + used) == Entries(recs[1..])
  {
    hide ParseEntry;
    assert recs == [recs[0]] + recs[1..];
    var used := ParseEntry(kind, es, vs, base).used;
    var rest := ParseEntries(kind, es[16..], vs[used..], n - 1, base + used);
    assert rest.Entries? ==> ([recs[0]] + rest.recs)[1..] == rest.recs;
  }

  // --- Entries with a wrong offset.

  /** The entry at p has a known type, but is not for values at this offset. */
  predicate OffsetWrong(kind: Kind, es: seq<byte>, p: nat, off: nat) {
    p + 16 <= |es| && Field(es, p + 4) < 4 && Field(es, p + OffsetField(kind)) != off % U32
  }

  /** i entries read as records, and the next one has a wrong offset. */
  ghost predicate StopsAt(kind: Kind, es: seq<byte>, vs: seq<byte>, base: nat, i: nat) {
    exists recs: seq<Record> :: |recs| == i && Reads(kind, es, vs, base, recs) && OffsetWrong(kind, es, 16 * i, base + Before(kind, recs, i))
  }

  lemma StopsUnfold(kind: Kind, es: seq<byte>, vs: seq<byte>, base: nat, i: nat)
    requires i > 0
    ensures
      var p := ParseEntry(kind, es, vs, base);
      StopsAt(kind, es, vs, base, i) <==> p.OneEntry? && StopsAt(kind, es[16..], vs[p.used..], base + p.used, i - 1)
  {
    hide ParseEntry, Reads, OffsetWrong, EntryReads, Length;
    var p := ParseEntry(kind, es, vs, base);
    if StopsAt(kind, es, vs, base, i) {
      var recs: seq<Record> :| |recs| == i && Reads(kind, es, vs, base, recs) && OffsetWrong(kind, es, 16 * i, base + Before(kind, recs, i));
      var u := Length(kind, recs[0].typ);
      ReadsUnfold(kind, es, vs, base, recs);
      EntryIff(kind, es, vs, base, recs[0], u);
      WrongShift(kind, es, 16 * (i - 1), base + Before(kind, recs, i));
      assert StopsAt(kind, es[16..], vs[u..], base + u, i - 1);
    }
    if p.OneEntry? && StopsAt(kind, es[16..], vs[p.used..], base + p.used, i - 1) {
      var es', base' := es[16..], base + p.used;
      var rest: seq<Record> :| |rest| == i - 1 && Reads(kind, es', vs[p.used..], base', rest)
                  && OffsetWrong(kind, es', 16 * (i - 1), base' + Before(kind, rest, i - 1));
      var recs := [p.r] + rest;
      assert recs[1..] == rest;
      EntryIff(kind, es, vs, base, p.r, p.used);
      ReadsUnfold(kind, es, vs, base, recs);
      WrongShift(kind, es, 16 * (i - 1), base + Before(kind, recs, i));
    }
  }

  lemma WrongShift(kind: Kind, es: seq<byte>, p: nat, off: nat)
    requires |es| >= 16
    ensures OffsetWrong(kind, es[16..], p, off) <==> OffsetWrong(kind, es, p + 16, off)
  {
    if p + 32 <= |es| {
      FieldShift(es, p + 4);
      FieldShift(es, p + OffsetField(kind));
    }
    hide Field;
  }

  lemma StopsFirst(kind: Kind, es: seq<byte>, vs: seq<byte>, base: nat)
    ensures StopsAt(kind, es, vs, base, 0) <==> ParseEntry(kind, es, vs, base).Mismatch?
  {
    hide Field, LoadAll;
    assert Reads(kind, es, vs, base, []);
    assert forall recs: seq<Record> | |recs| == 0 :: Before(kind, recs, 0) == 0;
    assert StopsAt(kind, es, vs, base, 0) <==> OffsetWrong(kind, es, 0, base);
  }

  lemma {:induction false} MismatchIff(kind: Kind, es: seq<byte>, vs: seq<byte>, n: nat, base: nat, i: nat)
    ensures ParseEntries(kind, es, vs, n, base) == MismatchAt(i) <==> i < n && StopsAt(kind, es, vs, base, i)
    decreases n
  {
    hide ParseEntry, StopsAt;
    StopsFirst(kind, es, vs, base);
    var p := ParseEntry(kind, es, vs, base);
    if i > 0 {
      StopsUnfold(kind, es, vs, base, i);
      if n > 0 && p.OneEntry? {
        MismatchIff(kind, es[16..], vs[p.used..], n - 1, base + p.used, i - 1);
      }
    }
  }

  // --- Packets.

  /** A header of the right version, with room for itself. */
  predicate Framed(s: seq<byte>) {
    |s| >= 32 && Field(s, 0) == FORMAT_VERSION && 32 <= Field(s, 16) <= Field(s, 12)
  }

  function EntriesOf(s: seq<byte>): seq<byte>
    requires Framed(s) && Field(s, 12) <= |s|
  {
    s[32..Field(s, 16)]
  }

  function ValuesOf(s: seq<byte>): seq<byte>
    requires Framed(s) && Field(s, 12) <= |s|
  {
    s[Field(s, 16)..Field(s, 12)]
  }

  /** A packet is accepted as these records iff its header says so and each of its entries reads as the record in its
    * place. */
  lemma AcceptedIff(kind: Kind, s: seq<byte>, handle: uint32, recs: seq<Record>, size: nat)
    ensures Parse(kind, s) == Ok(handle, recs, size)
        <==> Framed(s) && Field(s, 4) == handle && Field(s, 8) == |recs| && Field(s, 12) == size <= |s|
             && Reads(kind, EntriesOf(s), ValuesOf(s), 0, recs)
  {
    hide Field, Reads, ParseEntries;
    if Framed(s) && Field(s, 12) <= |s| {
      EntriesIff(kind, EntriesOf(s), ValuesOf(s), Field(s, 8), 0, recs);
    }
  }

  /** Why a packet is refused. */
  lemma RefusedIff(kind: Kind, s: seq<byte>)
    ensures Parse(kind, s).BadVersion? <==> |s| >= 32 && Field(s, 0) != FORMAT_VERSION
    ensures Parse(kind, s).TooSmall? <==> Framed(s) && |s| < Field(s, 12)
    ensures Parse(kind, s).OffsetMismatch?
        <==> Framed(s) && Field(s, 12) <= |s|
             && exists i | 0 <= i < Field(s, 8) :: StopsAt(kind, EntriesOf(s), ValuesOf(s), 0, i)
  {
    hide Field, StopsAt, ParseEntries;
    if Framed(s) && Field(s, 12) <= |s| {
      var p := ParseEntries(kind, EntriesOf(s), ValuesOf(s), Field(s, 8), 0);
      if p.MismatchAt? {
        MismatchIff(kind, EntriesOf(s), ValuesOf(s), Field(s, 8), 0, p.index);
      }
      forall i: nat | i < Field(s, 8) && StopsAt(kind, EntriesOf(s), ValuesOf(s), 0, i) ensures p == MismatchAt(i) {
        MismatchIff(kind, EntriesOf(s), ValuesOf(s), Field(s, 8), 0, i);
      }
    }
  }

  /** Of a packet whose end is missing nothing is read. */
  lemma TruncatedIsTooSmall(p: Packet, n: nat)
    requires Sound(p) && 32 <= n < |p.bytes|
    ensures Parse(p.kind, p.bytes[..n]).TooSmall?
  {
    hide Parse, StopsAt, EntriesMatch, Stored, AllWellTyped, HasKind, HeaderMatches, Field, ValuesSize;
    var s := p.bytes[..n];
    assert s[..32] == p.bytes[..32];
    HeaderFields(s, p.handle, p.recs);
    RefusedIff(p.kind, s);
  }
}
