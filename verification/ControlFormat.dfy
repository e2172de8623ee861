/** The wire format of control packets, and its inverse.
    A packet is a 32-byte header, one 16-byte entry per control and the packed values. */
module ControlFormat {
  import opened Bytes

  const FORMAT_VERSION: nat := 1

  datatype ControlType = TypeNone | TypeBool | TypeInteger32 | TypeInteger64

  datatype ControlValue = Empty | Bool(b: bool) | Integer32(i: int32) | Integer64(l: int64)
  {
    function Type(): ControlType {
      match this
      case Empty => TypeNone
      case Bool(_) => TypeBool
      case Integer32(_) => TypeInteger32
      case Integer64(_) => TypeInteger64
    }
  }

  function TypeCode(t: ControlType): (c: nat)
    ensures c < 4
  {
    match t
    case TypeNone => 0
    case TypeBool => 1
    case TypeInteger32 => 2
    case TypeInteger64 => 3
  }

  function TypeOf(code: nat): (t: Option<ControlType>)
    ensures forall u :: t == Some(u) <==> code == TypeCode(u)
  {
    if code == 0 then Some(TypeNone) else if code == 1 then Some(TypeBool)
    else if code == 2 then Some(TypeInteger32) else if code == 3 then Some(TypeInteger64) else None
  }

  /** ControlValueSize: what a value is counted for, which for an empty value is one byte. */
  function BinarySize(v: ControlValue): nat {
    match v
    case Empty => 1
    case Bool(_) => 1
    case Integer32(_) => 4
    case Integer64(_) => 8
  }

  /** What store() writes for a value, which for an empty value is nothing. */
  function Store(v: ControlValue): (s: seq<byte>)
    ensures |s| == (if v == Empty then 0 else BinarySize(v))
  {
    Pow256Values();
    match v
    case Empty => []
    case Bool(b) => [if b then 1 else 0]
    case Integer32(i) => EncodeSigned(i, 4)
    case Integer64(l) => EncodeSigned(l, 8)
  }

  function LoadSize(t: ControlType): nat {
    match t
    case TypeNone => 0
    case TypeBool => 1
    case TypeInteger32 => 4
    case TypeInteger64 => 8
  }

  /** The value of type t in exactly the bytes load() reads for it. */
  function LoadExact(t: ControlType, s: seq<byte>): (v: ControlValue)
    requires |s| == LoadSize(t)
    ensures v.Type() == t
  {
    Pow256Values();
    match t
    case TypeNone => Empty
    case TypeBool => Bool(s[0] != 0)
    case TypeInteger32 => DecodeBounds(s); Integer32(DecodeSigned(s))
    case TypeInteger64 => DecodeBounds(s); Integer64(DecodeSigned(s))
  }

  lemma LoadStore(v: ControlValue)
    ensures LoadExact(v.Type(), Store(v)) == v
  {
    Pow256Values();
    match v
    case Integer32(i) => DecodeSignedEncode(i, 4);
    case Integer64(l) => DecodeSignedEncode(l, 8);
    case _ =>
  }

  /** Info maps carry a min and a max per control, lists carry one value. */
  datatype Kind = Ranges | Values

  function Arity(kind: Kind): nat {
    if kind == Ranges then 2 else 1
  }

  /** One control as it travels: its id, the type in its entry, its values. */
  datatype Record = Record(id: uint32, typ: ControlType, vals: seq<ControlValue>)

  predicate WellTyped(r: Record) {
    forall v <- r.vals :: v.Type() == r.typ
  }

  predicate AllWellTyped(recs: seq<Record>) {
    forall r <- recs :: WellTyped(r)
  }

  predicate HasKind(kind: Kind, recs: seq<Record>) {
    forall r <- recs :: |r.vals| == Arity(kind)
  }

  function SizeOf(vals: seq<ControlValue>): nat {
    if vals == [] then 0 else BinarySize(vals[0]) + SizeOf(vals[1..])
  }

  function StoreAll(vals: seq<ControlValue>): (s: seq<byte>)
    ensures |s| <= SizeOf(vals)
  {
    if vals == [] then [] else Store(vals[0]) + StoreAll(vals[1..])
  }

  function ValuesSize(recs: seq<Record>): nat {
    if recs == [] then 0 else SizeOf(recs[0].vals) + ValuesSize(recs[1..])
  }

  function Stored(recs: seq<Record>): (s: seq<byte>)
    ensures |s| <= ValuesSize(recs)
  {
    if recs == [] then [] else StoreAll(recs[0].vals) + Stored(recs[1..])
  }

  function DataOffset(recs: seq<Record>): nat {
    32 + 16 * |recs|
  }

  /** binarySize() of a map or a list. */
  function PacketSize(recs: seq<Record>): nat {
    DataOffset(recs) + ValuesSize(recs)
  }

  // --- What serialize() leaves in memory. Reserved and padding bytes may hold anything.

  predicate HeaderMatches(h: seq<byte>, handle: nat, recs: seq<Record>) {
    && |h| == 32
    && h[0..4] == EncodeU32(FORMAT_VERSION)
    && h[4..8] == EncodeU32(handle)
    && h[8..12] == EncodeU32(|recs|)
    && h[12..16] == EncodeU32(PacketSize(recs))
    && h[16..20] == EncodeU32(DataOffset(recs))
  }

  predicate EntryMatches(kind: Kind, e: seq<byte>, r: Record, off: nat) {
    && |e| == 16
    && e[0..4] == EncodeU32(r.id)
    && e[4..8] == EncodeU32(TypeCode(r.typ))
    && match kind
       case Ranges => e[8..12] == EncodeU32(off)
       case Values => e[8..12] == EncodeU32(1) && e[12..16] == EncodeU32(off)
  }

  predicate EntriesMatch(kind: Kind, es: seq<byte>, recs: seq<Record>, off: nat) {
    if recs == [] then es == []
    else
      && |es| >= 16
      && EntryMatches(kind, es[..16], recs[0], off)
      && EntriesMatch(kind, es[16..], recs[1..], off + |StoreAll(recs[0].vals)|)
  }

  /** p is the image of these records under this handle. */
  predicate IsPacket(kind: Kind, p: seq<byte>, handle: nat, recs: seq<Record>) {
    var d := DataOffset(recs);
    && |p| == PacketSize(recs)
    && HeaderMatches(p[..32], handle, recs)
    && EntriesMatch(kind, p[32..d], recs, 0)
    && Stored(recs) <= p[d..]
  }

  // --- What deserialize() makes of any bytes.

  /** Undefined stands for an outcome that depends on an unchecked failed read. */
  datatype Parsed =
    | Ok(handle: uint32, recs: seq<Record>, size: nat)
    | BadVersion
    | TooSmall
    | OffsetMismatch(size: nat)
    | Undefined

  datatype ParsedEntries = Entries(recs: seq<Record>) | MismatchAt(index: nat) | Unread

  function Field(s: seq<byte>, k: nat): (n: uint32)
    requires k + 4 <= |s|
  {
    Pow256Values();
    DecodeBounds(s[k..k + 4]);
    Decode(s[k..k + 4])
  }

  /** n values of type t from the front of s, and how many bytes they took. */
  function LoadAll(t: ControlType, n: nat, s: seq<byte>): (r: Option<(seq<ControlValue>, nat)>)
    ensures r.Some? ==> |r.value.0| == n && r.value.1 <= |s|
  {
    if n == 0 then Some(([], 0))
    else if |s| < LoadSize(t) then None
    else
      var rest := LoadAll(t, n - 1, s[LoadSize(t)..]);
      if rest.None? then None
      else Some(([LoadExact(t, s[..LoadSize(t)])] + rest.value.0, LoadSize(t) + rest.value.1))
  }

  lemma {:induction false} LoadAllTypes(t: ControlType, n: nat, s: seq<byte>)
    requires LoadAll(t, n, s).Some?
    ensures forall v <- LoadAll(t, n, s).value.0 :: v.Type() == t
  {
    if n > 0 {
      LoadAllTypes(t, n - 1, s[LoadSize(t)..]);
    }
  }

  datatype ParsedEntry = OneEntry(r: Record, used: nat) | Mismatch | NoEntry

  /** One turn of the loop: an entry from the front of es, its values from the front of vs. */
  function ParseEntry(kind: Kind, es: seq<byte>, vs: seq<byte>, off: nat): (p: ParsedEntry)
    ensures p.OneEntry? ==> |es| >= 16 && p.used <= |vs|
  {
    if |es| < 16 then NoEntry
    else
      var t := TypeOf(Field(es, 4));
      if t.None? then NoEntry
      else if Field(es, if kind == Ranges then 8 else 12) != off % U32 then Mismatch
      else
        var vals := LoadAll(t.value, Arity(kind), vs);
        if vals.None? then NoEntry else OneEntry(Record(Field(es, 0), t.value, vals.value.0), vals.value.1)
  }

  lemma ParseEntryTypes(kind: Kind, es: seq<byte>, vs: seq<byte>, off: nat)
    requires ParseEntry(kind, es, vs, off).OneEntry?
    ensures WellTyped(ParseEntry(kind, es, vs, off).r) && |ParseEntry(kind, es, vs, off).r.vals| == Arity(kind)
  {
    LoadAllTypes(TypeOf(Field(es, 4)).value, Arity(kind), vs);
  }

  function Reindex(p: ParsedEntries, head: Record): ParsedEntries {
    match p
    case Entries(recs) => Entries([head] + recs)
    case MismatchAt(i) => MismatchAt(i + 1)
    case Unread => Unread
  }

  /** Reads n entries from es and their values from vs, whose next byte is at offset off. */
  function ParseEntries(kind: Kind, es: seq<byte>, vs: seq<byte>, n: nat, off: nat): (p: ParsedEntries)
    decreases n
  {
    if n == 0 then Entries([])
    else match ParseEntry(kind, es, vs, off)
      case OneEntry(r, used) => Reindex(ParseEntries(kind, es[16..], vs[used..], n - 1, off + used), r)
      case Mismatch => MismatchAt(0)
      case NoEntry => Unread
  }

  lemma {:induction false} ParsedTypes(kind: Kind, es: seq<byte>, vs: seq<byte>, n: nat, off: nat)
    requires ParseEntries(kind, es, vs, n, off).Entries?
    ensures var recs := ParseEntries(kind, es, vs, n, off).recs; |recs| == n && AllWellTyped(recs) && HasKind(kind, recs)
    decreases n
  {
    hide ParseEntry, ParseEntries, WellTyped;
    ParseEntriesStep(kind, es, vs, n, off);
    if n > 0 {
      var p := ParseEntry(kind, es, vs, off);
      ParseEntryTypes(kind, es, vs, off);
      ParsedTypes(kind, es[16..], vs[p.used..], n - 1, off + p.used);
    }
  }

  /** The records that are read are the one in front and those read behind it. */
  lemma ParseEntriesStep(kind: Kind, es: seq<byte>, vs: seq<byte>, n: nat, off: nat)
    requires ParseEntries(kind, es, vs, n, off).Entries?
    ensures
      var p := ParseEntry(kind, es, vs, off);
      if n == 0 then ParseEntries(kind, es, vs, n, off).recs == []
      else
        && p.OneEntry?
        && ParseEntries(kind, es[16..], vs[p.used..], n - 1, off + p.used).Entries?
        && ParseEntries(kind, es, vs, n, off).recs
           == [p.r] + ParseEntries(kind, es[16..], vs[p.used..], n - 1, off + p.used).recs
  {
    hide ParseEntry;
  }

  function Parse(kind: Kind, s: seq<byte>): Parsed {
    if |s| < 32 then Undefined
    else if Field(s, 0) != FORMAT_VERSION then BadVersion
    else
      var handle, n, size, data := Field(s, 4), Field(s, 8), Field(s, 12), Field(s, 16);
      if data < 32 || size < data then Undefined
      else if |s| < size then TooSmall
      else
        match ParseEntries(kind, s[32..data], s[data..size], n, 0)
        case Entries(recs) => Ok(handle, recs, size)
        case MismatchAt(_) => OffsetMismatch(size)
        case Unread => Undefined
  }

  // --- Round trips.

  lemma FieldIs(s: seq<byte>, w: nat, k: nat, n: nat)
    requires k + 4 <= w <= |s| && s[..w][k..k + 4] == EncodeU32(n)
    ensures Field(s, k) == n % U32
  {
    assert s[k..k + 4] == s[..w][k..k + 4];
    DecodeU32(n);
  }

  lemma LoadAllStep(v: ControlValue, n: nat, rest: seq<byte>)
    ensures LoadAll(v.Type(), n + 1, Store(v) + rest)
         == match LoadAll(v.Type(), n, rest)
            case None => None
            case Some((tail, used)) => Some(([v] + tail, |Store(v)| + used))
  {
    var t, s := v.Type(), Store(v) + rest;
    assert |Store(v)| == LoadSize(t);
    assert s[..LoadSize(t)] == Store(v) && s[LoadSize(t)..] == rest;
    LoadStore(v);
  }

  lemma StoreAllUnfold(vals: seq<ControlValue>)
    ensures StoreAll(vals) == if vals == [] then [] else Store(vals[0]) + StoreAll(vals[1..])
  {
  }

  lemma LoadAllNone(t: ControlType, s: seq<byte>)
    ensures LoadAll(t, 0, s) == Some(([], 0))
  {
  }

  lemma {:induction false} LoadAllStoreAll(t: ControlType, vals: seq<ControlValue>, rest: seq<byte>)
    requires forall v <- vals :: v.Type() == t
    ensures LoadAll(t, |vals|, StoreAll(vals) + rest) == Some((vals, |StoreAll(vals)|))
  {
    hide *;
    if vals == [] {
      LoadAllNone(t, StoreAll(vals) + rest);
      StoreAllUnfold(vals);
    } else {
      var v, tail := vals[0], vals[1..];
      assert v.Type() == t;
      LoadAllStoreAll(t, tail, rest);
      LoadAllStep(v, |tail|, StoreAll(tail) + rest);
      StoreAllUnfold(vals);
      assert StoreAll(vals) + rest == Store(v) + (StoreAll(tail) + rest);
      assert vals == [v] + tail;
    }
  }

  lemma EntryFields(kind: Kind, es: seq<byte>, r: Record, off: nat)
    requires |es| >= 16 && EntryMatches(kind, es[..16], r, off)
    ensures Field(es, 0) == r.id && Field(es, 4) == TypeCode(r.typ)
    ensures Field(es, if kind == Ranges then 8 else 12) == off % U32
  {
    FieldIs(es, 16, 0, r.id);
    FieldIs(es, 16, 4, TypeCode(r.typ));
    FieldIs(es, 16, if kind == Ranges then 8 else 12, off);
  }

  lemma PrefixSplits(a: seq<byte>, b: seq<byte>, s: seq<byte>)
    requires a + b <= s
    ensures |a| <= |s| && s == a + s[|a|..] && b <= s[|a|..]
  {
    assert s == a + b + s[|a + b|..];
  }

  lemma StoredHead(recs: seq<Record>, vs: seq<byte>)
    requires recs != [] && Stored(recs) <= vs
    ensures var k := |StoreAll(recs[0].vals)|;
            k <= |vs| && vs == StoreAll(recs[0].vals) + vs[k..] && Stored(recs[1..]) <= vs[k..]
  {
    var a, b := StoreAll(recs[0].vals), Stored(recs[1..]);
    assert Stored(recs) == a + b;
    hide StoreAll, Stored;
    PrefixSplits(a, b, vs);
  }

  lemma ParseEntryOfMatching(kind: Kind, es: seq<byte>, vs: seq<byte>, r: Record, off: nat)
    requires |es| >= 16 && EntryMatches(kind, es[..16], r, off)
    requires LoadAll(r.typ, Arity(kind), vs) == Some((r.vals, |StoreAll(r.vals)|))
    ensures ParseEntry(kind, es, vs, off) == OneEntry(r, |StoreAll(r.vals)|)
  {
    EntryFields(kind, es, r, off);
    hide EntryMatches, Field, LoadAll, StoreAll, TypeCode;
  }

  lemma MatchingUnfold(kind: Kind, es: seq<byte>, recs: seq<Record>, off: nat)
    requires recs != [] && EntriesMatch(kind, es, recs, off)
    requires HasKind(kind, recs) && AllWellTyped(recs)
    ensures |es| >= 16 && EntryMatches(kind, es[..16], recs[0], off)
    ensures EntriesMatch(kind, es[16..], recs[1..], off + |StoreAll(recs[0].vals)|)
    ensures HasKind(kind, recs[1..]) && AllWellTyped(recs[1..])
    ensures |recs[0].vals| == Arity(kind) && forall v <- recs[0].vals :: v.Type() == recs[0].typ
  {
    hide EntryMatches, StoreAll;
    assert WellTyped(recs[0]);
  }

  lemma {:induction false} ParseEntriesOfMatching(kind: Kind, es: seq<byte>, vs: seq<byte>, recs: seq<Record>, off: nat)
    requires EntriesMatch(kind, es, recs, off) && Stored(recs) <= vs
    requires HasKind(kind, recs) && AllWellTyped(recs)
    ensures ParseEntries(kind, es, vs, |recs|, off) == Entries(recs)
  {
    hide *;
    if recs == [] {
      ParseEntriesUnfold(kind, es, vs, 0, off);
    } else {
      var r, rest := recs[0], recs[1..];
      var k := |StoreAll(r.vals)|;
      MatchingUnfold(kind, es, recs, off);
      StoredHead(recs, vs);
      LoadAllStoreAll(r.typ, r.vals, vs[k..]);
      ParseEntryOfMatching(kind, es, vs, r, off);
      ParseEntriesOfMatching(kind, es[16..], vs[k..], rest, off + k);
      ParseEntriesUnfold(kind, es, vs, |recs|, off);
      assert recs == [r] + rest;
    }
  }

  lemma ParseEntriesUnfold(kind: Kind, es: seq<byte>, vs: seq<byte>, n: nat, off: nat)
    ensures n == 0 ==> ParseEntries(kind, es, vs, n, off) == Entries([])
    ensures n > 0 ==>
      var p := ParseEntry(kind, es, vs, off);
      p.OneEntry? ==>
        var q := ParseEntries(kind, es[16..], vs[p.used..], n - 1, off + p.used);
        q.Entries? ==> ParseEntries(kind, es, vs, n, off) == Entries([p.r] + q.recs)
  {
    hide ParseEntry;
  }

  lemma HeaderFields(p: seq<byte>, handle: nat, recs: seq<Record>)
    requires |p| >= 32 && HeaderMatches(p[..32], handle, recs)
    ensures Field(p, 0) == FORMAT_VERSION
    ensures Field(p, 4) == handle % U32
    ensures Field(p, 8) == |recs| % U32
    ensures Field(p, 12) == PacketSize(recs) % U32
    ensures Field(p, 16) == DataOffset(recs) % U32
  {
    FieldIs(p, 32, 0, FORMAT_VERSION);
    FieldIs(p, 32, 4, handle);
    FieldIs(p, 32, 8, |recs|);
    FieldIs(p, 32, 12, PacketSize(recs));
    FieldIs(p, 32, 16, DataOffset(recs));
  }

  lemma RoundTrip(kind: Kind, p: seq<byte>, handle: uint32, recs: seq<Record>, rest: seq<byte>)
    requires IsPacket(kind, p, handle, recs) && HasKind(kind, recs)
    requires AllWellTyped(recs) && PacketSize(recs) < U32
    ensures Parse(kind, p + rest) == Ok(handle, recs, |p|)
  {
    hide HeaderMatches, Field, ParseEntries, EntriesMatch, Stored;
    var s, d := p + rest, DataOffset(recs);
    assert s[..32] == p[..32];
    HeaderFields(s, handle, recs);
    assert s[32..d] == p[32..d];
    assert s[d..|p|] == p[d..];
    ParseEntriesOfMatching(kind, p[32..d], p[d..], recs, 0);
  }

  lemma ParsedOkTypes(kind: Kind, s: seq<byte>)
    requires Parse(kind, s).Ok?
    ensures AllWellTyped(Parse(kind, s).recs) && HasKind(kind, Parse(kind, s).recs) && Parse(kind, s).size < U32
  {
    var n, size, data := Field(s, 8), Field(s, 12), Field(s, 16);
    ParsedTypes(kind, s[32..data], s[data..size], n, 0);
  }

  /** How many of the values are None. */
  function Nones(vals: seq<ControlValue>): nat {
    if vals == [] then 0 else (if vals[0].Type() == TypeNone then 1 else 0) + Nones(vals[1..])
  }

  function NonesIn(recs: seq<Record>): nat {
    if recs == [] then 0 else Nones(recs[0].vals) + NonesIn(recs[1..])
  }

  lemma {:induction false} SizeCounts(vals: seq<ControlValue>)
    ensures SizeOf(vals) == |StoreAll(vals)| + Nones(vals)
    decreases |vals|
  {
    if vals != [] {
      SizeCounts(vals[1..]);
    }
  }

  lemma {:induction false} ValuesSizeCounts(recs: seq<Record>)
    ensures ValuesSize(recs) == |Stored(recs)| + NonesIn(recs)
    decreases |recs|
  {
    if recs != [] {
      SizeCounts(recs[0].vals);
      ValuesSizeCounts(recs[1..]);
    }
  }

  /** A packet is as long as its header, its entries and the bytes of its values, and one byte for each value
      that is None: binarySize() counts it, though nothing is stored for it. */
  lemma PacketLength(kind: Kind, p: seq<byte>, handle: nat, recs: seq<Record>)
    requires IsPacket(kind, p, handle, recs)
    ensures |p| == 32 + 16 * |recs| + |Stored(recs)| + NonesIn(recs)
    ensures |p| == PacketSize(recs)
  {
    ValuesSizeCounts(recs);
  }

  /** Exactly when the bytes of a map or list give it back, whatever follows them: every value has
      the type its entry announces, and the packet length fits the header's 32-bit size. */
  lemma RoundTripIff(kind: Kind, p: seq<byte>, handle: uint32, recs: seq<Record>, rest: seq<byte>)
    requires IsPacket(kind, p, handle, recs) && HasKind(kind, recs)
    ensures Parse(kind, p + rest) == Ok(handle, recs, |p|) <==> AllWellTyped(recs) && PacketSize(recs) < U32
  {
    hide IsPacket, ParseEntries;
    if AllWellTyped(recs) && PacketSize(recs) < U32 {
      RoundTrip(kind, p, handle, recs, rest);
    } else if Parse(kind, p + rest) == Ok(handle, recs, |p|) {
      ParsedOkTypes(kind, p + rest);
      assert |p| == PacketSize(recs) by { PacketLength(kind, p, handle, recs); }
    }
  }

  /** The same bytes are never the image of two different contents. */
  lemma UniquelyDecodable(kind: Kind, p: seq<byte>, h1: uint32, r1: seq<Record>, h2: uint32, r2: seq<Record>)
    requires IsPacket(kind, p, h1, r1) && HasKind(kind, r1) && AllWellTyped(r1)
    requires IsPacket(kind, p, h2, r2) && HasKind(kind, r2) && AllWellTyped(r2)
    requires |p| < U32
    ensures h1 == h2 && r1 == r2
  {
    RoundTrip(kind, p, h1, r1, []);
    RoundTrip(kind, p, h2, r2, []);
  }

  datatype Packet = Packet(kind: Kind, handle: uint32, recs: seq<Record>, bytes: seq<byte>)

  predicate Sound(p: Packet) {
    && IsPacket(p.kind, p.bytes, p.handle, p.recs) && HasKind(p.kind, p.recs)
    && AllWellTyped(p.recs) && PacketSize(p.recs) < U32
  }

  function Concat(ps: seq<Packet>): seq<byte> {
    if ps == [] then [] else ps[0].bytes + Concat(ps[1..])
  }

  function Kinds(ps: seq<Packet>): seq<Kind> {
    if ps == [] then [] else [ps[0].kind] + Kinds(ps[1..])
  }

  function Contents(ps: seq<Packet>): seq<(uint32, seq<Record>)> {
    if ps == [] then [] else [(ps[0].handle, ps[0].recs)] + Contents(ps[1..])
  }

  /** Deserializes one packet of each kind after the other from one buffer. */
  function ParseStream(kinds: seq<Kind>, s: seq<byte>): Option<seq<(uint32, seq<Record>)>> {
    if kinds == [] then Some([])
    else match Parse(kinds[0], s)
      case Ok(handle, recs, size) =>
        if size > |s| then None
        else
          var rest := ParseStream(kinds[1..], s[size..]);
          if rest.None? then None else Some([(handle, recs)] + rest.value)
      case _ => None
  }

  lemma {:induction false} StreamRoundTrip(ps: seq<Packet>, rest: seq<byte>)
    requires forall p <- ps :: Sound(p)
    ensures ParseStream(Kinds(ps), Concat(ps) + rest) == Some(Contents(ps))
  {
    hide Parse, IsPacket;
    if ps != [] {
      var p, tail := ps[0], ps[1..];
      assert Sound(p);
      var s := Concat(ps) + rest;
      assert s == p.bytes + (Concat(tail) + rest);
      RoundTrip(p.kind, p.bytes, p.handle, p.recs, Concat(tail) + rest);
      assert s[|p.bytes|..] == Concat(tail) + rest;
      StreamRoundTrip(tail, rest);
      assert Kinds(ps)[0] == p.kind && Kinds(ps)[1..] == Kinds(tail);
    }
  }

  // --- How the image grows as controls are appended, for the serializer's loops.

  lemma {:induction false} StoredAppend(recs: seq<Record>, r: Record)
    ensures Stored(recs + [r]) == Stored(recs) + StoreAll(r.vals)
    ensures ValuesSize(recs + [r]) == ValuesSize(recs) + SizeOf(r.vals)
  {
    hide StoreAll;
    if recs == [] {
      assert recs + [r] == [r];
      assert Stored([r]) == StoreAll(r.vals) + Stored([]);
    } else {
      var a, b, c := StoreAll(recs[0].vals), Stored(recs[1..]), StoreAll(r.vals);
      assert (recs + [r])[1..] == recs[1..] + [r];
      StoredAppend(recs[1..], r);
      assert Stored(recs + [r]) == a + (b + c) && Stored(recs) == a + b;
      hide Stored;
      assert a + (b + c) == (a + b) + c;
    }
  }

  lemma EntriesCons(kind: Kind, e: seq<byte>, es: seq<byte>, r: Record, recs: seq<Record>, off: nat)
    requires EntryMatches(kind, e, r, off) && EntriesMatch(kind, es, recs, off + |StoreAll(r.vals)|)
    ensures EntriesMatch(kind, e + es, [r] + recs, off)
  {
    assert |e| == 16;
    hide EntryMatches, StoreAll;
    assert (e + es)[..16] == e && (e + es)[16..] == es;
    assert ([r] + recs)[1..] == recs;
  }

  lemma {:induction false} EntriesAppend(kind: Kind, es: seq<byte>, e: seq<byte>, recs: seq<Record>, r: Record, off: nat)
    requires EntriesMatch(kind, es, recs, off)
    requires EntryMatches(kind, e, r, off + |Stored(recs)|)
    ensures EntriesMatch(kind, es + e, recs + [r], off)
  {
    hide EntryMatches, StoreAll;
    if recs == [] {
      EntriesCons(kind, e, [], r, [], off);
      assert [] + e == e + [] && [] + [r] == [r] + [];
    } else {
      var k := |StoreAll(recs[0].vals)|;
      EntriesAppend(kind, es[16..], e, recs[1..], r, off + k);
      hide EntriesMatch;
      EntriesCons(kind, es[..16], es[16..] + e, recs[0], recs[1..] + [r], off);
      assert es + e == es[..16] + (es[16..] + e);
      assert recs + [r] == [recs[0]] + (recs[1..] + [r]);
    }
  }
}
