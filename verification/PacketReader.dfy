/** Reading a packet back through a buffer, against the Parse function. */
module PacketReader {
  import opened Bytes
  import opened ByteStream
  import opened ControlFormat

  /** A read buffer on live memory with no overflow so far. */
  ghost predicate CanRead(b: ByteStreamBuffer)
    reads b, b.ancestors`parent, b.ancestors`ancestors
  {
    b.Valid() && b.base.At? && b.read.At? && !b.overflow
  }

  /** The bytes still ahead of b. */
  ghost function Ahead(b: ByteStreamBuffer): seq<byte>
    requires CanRead(b)
    reads b, b.ancestors`parent, b.ancestors`ancestors, b.mem
  {
    b.mem[b.read.off..b.View().End()]
  }

  /** The overflow marks of a chain of buffers. */
  ghost function Flags(bs: seq<ByteStreamBuffer>): (f: seq<bool>)
    reads bs`overflow
  {
    if bs == [] then [] else [bs[0].overflow] + Flags(bs[1..])
  }

  twostate lemma {:induction false} SameFlags(bs: seq<ByteStreamBuffer>)
    requires forall b <- bs :: b.overflow == old(b.overflow)
    ensures Flags(bs) == old(Flags(bs))
  {
    if bs != [] {
      SameFlags(bs[1..]);
    }
  }

  /** b has moved on by n bytes and nothing else has happened to it. */
  twostate predicate Moved(b: ByteStreamBuffer, n: nat)
    requires old(CanRead(b))
    reads b, b.ancestors, b.mem
  {
    && CanRead(b) && b.View() == old(b.View()).Advance(n) && b.ancestors == old(b.ancestors)
    && n <= old(|Ahead(b)|) && Ahead(b) == old(Ahead(b))[n..]
    && Flags(b.ancestors) == old(Flags(b.ancestors))
  }

  /** read() on a fresh variable: the next n bytes, or nothing defined. */
  method ReadBytes(n: nat, b: ByteStreamBuffer) returns (r: Option<seq<byte>>)
    requires CanRead(b)
    modifies b`read, b`overflow, b.ancestors`overflow
    ensures if n <= old(|Ahead(b)|) then r == Some(old(Ahead(b))[..n]) && Moved(b, n) else r == None
  {
    b.NotOwnAncestor();
    ghost var ahead, m := Ahead(b), b.mem[..];
    ghost var at, end := b.read.off, b.View().End();
    assert ahead == m[at..end];
    var ret, data := b.Read(n);
    if ret == 0 {
      assert data == m[at..at + n] == ahead[..n];
      assert m[at + n..end] == ahead[n..];
    }
    r := if ret == 0 then Some(data) else None;
  }

  /** load(): one value of type t; an empty value is not read at all. */
  method LoadValue(t: ControlType, b: ByteStreamBuffer) returns (r: Option<ControlValue>)
    requires CanRead(b)
    modifies b`read, b`overflow, b.ancestors`overflow
    ensures if LoadSize(t) <= old(|Ahead(b)|)
      then r == Some(LoadExact(t, old(Ahead(b))[..LoadSize(t)])) && Moved(b, LoadSize(t))
      else r == None
  {
    if t == TypeNone {
      r := Some(Empty);
    } else {
      var bytes := ReadBytes(LoadSize(t), b);
      r := if bytes.Some? then Some(LoadExact(t, bytes.value)) else None;
    }
  }

  lemma LoadAllUnfold(t: ControlType, n: nat, s: seq<byte>)
    ensures LoadAll(t, n, s) ==
      if n == 0 then Some(([], 0))
      else if |s| < LoadSize(t) then None
      else match LoadAll(t, n - 1, s[LoadSize(t)..])
        case None => None
        case Some((vals, used)) => Some(([LoadExact(t, s[..LoadSize(t)])] + vals, LoadSize(t) + used))
  {
  }

  /** Moving on by a and then by b bytes is moving on by a + b. */
  lemma MovesAdd(r: Region, s: seq<byte>, a: nat, b: nat)
    requires a + b <= |s|
    ensures r.Advance(a).Advance(b) == r.Advance(a + b)
    ensures s[a..][b..] == s[a + b..] && s[a..][..b] == s[a..a + b]
  {
  }

  method LoadValues(t: ControlType, n: nat, b: ByteStreamBuffer) returns (r: Option<seq<ControlValue>>)
    requires CanRead(b)
    modifies b`read, b`overflow, b.ancestors`overflow
    ensures match old(LoadAll(t, n, Ahead(b)))
      case Some((vals, used)) => r == Some(vals) && Moved(b, used)
      case None => r == None
  {
    hide LoadExact, LoadSize, LoadAll;
    ghost var s := Ahead(b);
    LoadAllUnfold(t, n, s);
    if n == 0 { return Some([]); }
    b.NotOwnAncestor();
    hide Ahead, Region.Fits, Region.Ok, Flags, CanRead, Region.Advance;
    ghost var view := b.View();
    var v := LoadValue(t, b);
    if v.None? { return None; }
    assert Ahead(b) == s[LoadSize(t)..];
    var rest := LoadValues(t, n - 1, b);
    if rest.Some? {
      MovesAdd(view, s, LoadSize(t), LoadAll(t, n - 1, s[LoadSize(t)..]).value.1);
    }
    r := if rest.None? then None else Some([v.value] + rest.value);
  }

  // --- The entry loop, against ParseEntries.

  /** What the whole loop returns once acc has been read and p is what remains to be seen. */
  function After(acc: seq<Record>, p: ParsedEntries): ParsedEntries {
    match p
    case Entries(recs) => Entries(acc + recs)
    case MismatchAt(i) => MismatchAt(|acc| + i)
    case Unread => Unread
  }

  lemma AfterNothing(p: ParsedEntries)
    ensures After([], p) == p
  {
  }

  lemma AfterStops(acc: seq<Record>)
    ensures After(acc, Entries([])) == Entries(acc)
    ensures After(acc, MismatchAt(0)) == MismatchAt(|acc|)
    ensures After(acc, Unread) == Unread
  {
  }

  lemma AfterStep(kind: Kind, es: seq<byte>, vs: seq<byte>, n: nat, off: nat, acc: seq<Record>)
    requires n > 0
    ensures match ParseEntry(kind, es, vs, off)
      case OneEntry(r, used) => After(acc, ParseEntries(kind, es, vs, n, off))
                             == After(acc + [r], ParseEntries(kind, es[16..], vs[used..], n - 1, off + used))
      case Mismatch => ParseEntries(kind, es, vs, n, off) == MismatchAt(0)
      case NoEntry => ParseEntries(kind, es, vs, n, off) == Unread
  {
    hide ParseEntry;
    var p := ParseEntry(kind, es, vs, off);
    if p.OneEntry? {
      var q := ParseEntries(kind, es[16..], vs[p.used..], n - 1, off + p.used);
      if q.Entries? {
        assert acc + ([p.r] + q.recs) == (acc + [p.r]) + q.recs;
      }
    }
  }

  /** The two cursors have these bytes ahead of them, and the second has got this far. */
  ghost predicate Position(entries: ByteStreamBuffer, values: ByteStreamBuffer, es: seq<byte>, vs: seq<byte>, off: nat)
    reads entries, entries.ancestors`parent, entries.ancestors`ancestors, entries.mem
    reads values, values.ancestors`parent, values.ancestors`ancestors, values.mem
  {
    && CanRead(entries) && Ahead(entries) == es
    && CanRead(values) && Ahead(values) == vs && values.View().Offset() == off
  }

  method ReadEntry(kind: Kind, entries: ByteStreamBuffer, values: ByteStreamBuffer,
                   ghost es: seq<byte>, ghost vs: seq<byte>, ghost off: nat)
    returns (r: ParsedEntry)
    requires Position(entries, values, es, vs, off) && entries.mem == values.mem
    requires entries != values && entries !in values.ancestors && values !in entries.ancestors
    requires entries.ancestors == values.ancestors
    modifies entries`read, entries`overflow, entries.ancestors`overflow
    modifies values`read, values`overflow, values.ancestors`overflow
    ensures r == ParseEntry(kind, es, vs, off)
    ensures r.OneEntry? ==> Position(entries, values, es[16..], vs[r.used..], off + r.used)
    ensures !r.NoEntry? ==> Flags(entries.ancestors) == old(Flags(entries.ancestors))
  {
    hide LoadAll, Field, TypeOf;
    entries.NotOwnAncestor();
    values.NotOwnAncestor();
    hide Ahead, Region.Fits, Region.Ok, Flags;
    var e := ReadBytes(16, entries);
    if e.None? { return NoEntry; }
    FieldPrefix(es);
    assert Ahead(values) == vs;
    var t := TypeOf(Field(e.value, 4));
    if t.None? { return NoEntry; }
    if Field(e.value, if kind == Ranges then 8 else 12) != values.View().Offset() % U32 { return Mismatch; }
    var start := values.View().Offset();
    var vals := LoadValues(t.value, Arity(kind), values);
    if vals.None? { return NoEntry; }
    r := OneEntry(Record(Field(e.value, 0), t.value, vals.value), values.View().Offset() - start);
  }

  lemma FieldPrefix(es: seq<byte>)
    requires |es| >= 16
    ensures forall k: nat | k <= 12 :: Field(es[..16], k) == Field(es, k)
  {
    forall k: nat | k <= 12
      ensures Field(es[..16], k) == Field(es, k)
    {
      assert es[..16][k..k + 4] == es[k..k + 4];
    }
  }

  /** The whole loop over n entries. */
  method ReadEntries(kind: Kind, n: nat, entries: ByteStreamBuffer, values: ByteStreamBuffer,
                     ghost entryBytes: seq<byte>, ghost valueBytes: seq<byte>)
    returns (p: ParsedEntries)
    requires Position(entries, values, entryBytes, valueBytes, 0) && entries.mem == values.mem
    requires entries != values && entries !in values.ancestors && values !in entries.ancestors
    requires entries.ancestors == values.ancestors
    modifies entries`read, entries`overflow, entries.ancestors`overflow
    modifies values`read, values`overflow, values.ancestors`overflow
    ensures p == ParseEntries(kind, entryBytes, valueBytes, n, 0)
    ensures !p.Unread? ==> Flags(entries.ancestors) == old(Flags(entries.ancestors))
  {
    hide *;
    var recs: seq<Record> := [];
    ghost var es, vs, off: nat := entryBytes, valueBytes, 0;
    ghost var all, flags := ParseEntries(kind, es, vs, n, off), Flags(entries.ancestors);
    AfterNothing(all);
    for i := 0 to n
      invariant Position(entries, values, es, vs, off)
      invariant Flags(entries.ancestors) == flags && |recs| == i
      invariant all == After(recs, ParseEntries(kind, es, vs, n - i, off))
    {
      AfterStep(kind, es, vs, n - i, off, recs);
      AfterStops(recs);
      var e := ReadEntry(kind, entries, values, es, vs, off);
      match e
      case OneEntry(r, used) =>
        recs := recs + [r];
        es, vs, off := es[16..], vs[used..], off + used;
      case Mismatch => return MismatchAt(i);
      case NoEntry => return Unread;
    }
    ParseNoEntries(kind, es, vs, off);
    AfterStops(recs);
    p := Entries(recs);
  }

  lemma ParseNoEntries(kind: Kind, es: seq<byte>, vs: seq<byte>, off: nat)
    ensures ParseEntries(kind, es, vs, 0, off) == Entries([])
  {
  }

  /** A carve-out from a read buffer that has s ahead of it. */
  method CarveReader(b: ByteStreamBuffer, n: nat, ghost s: seq<byte>) returns (c: ByteStreamBuffer)
    requires CanRead(b) && b.size > 0 && Ahead(b) == s
    modifies b`read, b`write, b`overflow, b.ancestors`overflow
    ensures b.Valid() && c.Valid() && fresh(c) && c.mem == b.mem
    ensures n <= |s| ==>
      && CanRead(c) && c.View().Offset() == 0 && Ahead(c) == s[..n] && c.ancestors == [b] + b.ancestors
      && CanRead(b) && Ahead(b) == s[n..] && b.View() == old(b.View()).Advance(n)
      && Flags(b.ancestors) == old(Flags(b.ancestors))
    ensures n > |s| ==> b.View() == old(b.View()).(overflow := true)
    ensures b.overflow <==> n > |s|
  {
    b.NotOwnAncestor();
    ghost var at, end := b.read.off, b.View().End();
    assert s == b.mem[at..end];
    c := b.CarveOut(n);
    if n <= |s| {
      assert s[..n] == b.mem[at..at + n] && s[n..] == b.mem[at + n..end];
      SameFlags(b.ancestors);
    }
  }

  lemma Positioned(entries: ByteStreamBuffer, values: ByteStreamBuffer, es: seq<byte>, vs: seq<byte>)
    requires CanRead(entries) && Ahead(entries) == es
    requires CanRead(values) && Ahead(values) == vs && values.View().Offset() == 0
    ensures Position(entries, values, es, vs, 0)
  {
  }

  /** The two carve-outs that the entries and the values are read from, if the buffer has that much. */
  method CarveTwo(es: nat, vs: nat, buffer: ByteStreamBuffer, ghost s: seq<byte>)
    returns (entries: ByteStreamBuffer, values: ByteStreamBuffer, ok: bool)
    requires CanRead(buffer) && buffer.size > 0 && Ahead(buffer) == s
    modifies buffer`read, buffer`write, buffer`overflow, buffer.ancestors`overflow
    ensures ok <==> es + vs <= |s|
    ensures ok ==>
      && fresh(entries) && fresh(values) && entries != values && entries.mem == values.mem == buffer.mem
      && entries.ancestors == values.ancestors == [buffer] + buffer.ancestors
      && entries !in entries.ancestors && values !in entries.ancestors
      && Position(entries, values, s[..es], s[es..es + vs], 0)
      && CanRead(buffer) && Ahead(buffer) == s[es + vs..] && buffer.View() == old(buffer.View()).Advance(es + vs)
      && Flags(buffer.ancestors) == old(Flags(buffer.ancestors))
  {
    buffer.NotOwnAncestor();
    ghost var view := buffer.View();
    hide Ahead, Flags, CanRead, Position, Region.Advance, Region.Offset, Region.Fits, Region.Ok;
    entries := CarveReader(buffer, es, s);
    values, ok := entries, false;
    if !buffer.overflow {
      values, ok := CarveValues(vs, buffer, entries, s[..es], s[es..]);
      if ok {
        MovesAdd(view, s, es, vs);
      }
    }
  }

  method CarveValues(vs: nat, buffer: ByteStreamBuffer, entries: ByteStreamBuffer, ghost es: seq<byte>, ghost s: seq<byte>)
    returns (values: ByteStreamBuffer, ok: bool)
    requires CanRead(buffer) && buffer.size > 0 && Ahead(buffer) == s
    requires CanRead(entries) && Ahead(entries) == es && entries.View().Offset() == 0
    requires entries != buffer && entries !in buffer.ancestors && entries.ancestors == [buffer] + buffer.ancestors
    requires entries.mem == buffer.mem
    modifies buffer`read, buffer`write, buffer`overflow, buffer.ancestors`overflow
    ensures fresh(values) && (ok <==> vs <= |s|)
    ensures ok ==>
      && values.mem == buffer.mem && values.ancestors == [buffer] + buffer.ancestors
      && Position(entries, values, es, s[..vs], 0)
      && CanRead(buffer) && Ahead(buffer) == s[vs..] && buffer.View() == old(buffer.View()).Advance(vs)
      && Flags(buffer.ancestors) == old(Flags(buffer.ancestors))
  {
    buffer.NotOwnAncestor();
    hide Ahead, Flags, CanRead, Position, Region.Advance, Region.Offset, Region.Fits, Region.Ok;
    values := CarveReader(buffer, vs, s);
    ok := !buffer.overflow;
    if ok {
      Positioned(entries, values, es, s[..vs]);
    }
  }

  /** Everything after the header: es bytes of entries, then vs bytes of values. None is a packet too small. */
  method ReadBody(kind: Kind, n: nat, es: nat, vs: nat, buffer: ByteStreamBuffer) returns (p: Option<ParsedEntries>)
    requires CanRead(buffer) && buffer.size > 0
    modifies buffer`read, buffer`write, buffer`overflow, buffer.ancestors`overflow
    ensures var s := old(Ahead(buffer));
      p == if es + vs > |s| then None else Some(ParseEntries(kind, s[..es], s[es..es + vs], n, 0))
    ensures p.Some? && !p.value.Unread? ==> Moved(buffer, es + vs)
  {
    hide ParseEntries, Ahead, Flags, CanRead, Position, Region.Advance, ByteStreamBuffer.Valid, ByteStreamBuffer.Chain;
    ghost var s := Ahead(buffer);
    var entries, values, ok := CarveTwo(es, vs, buffer, s);
    if !ok { return None; }
    p := ReadCarved(kind, n, entries, values, buffer, s[..es], s[es..es + vs]);
  }

  /** The loop, seen from the buffer that entries and values were carved from. */
  method ReadCarved(kind: Kind, n: nat, entries: ByteStreamBuffer, values: ByteStreamBuffer,
                    ghost buffer: ByteStreamBuffer, ghost es: seq<byte>, ghost vs: seq<byte>)
    returns (p: Option<ParsedEntries>)
    requires Position(entries, values, es, vs, 0) && CanRead(buffer) && entries.mem == values.mem
    requires entries.ancestors == values.ancestors == [buffer] + buffer.ancestors
    requires entries != values && entries !in entries.ancestors && values !in entries.ancestors
    modifies entries`read, values`read, entries`overflow, values`overflow, buffer`overflow, buffer.ancestors`overflow
    ensures p == Some(ParseEntries(kind, es, vs, n, 0))
    ensures !p.value.Unread? ==>
      && CanRead(buffer) && buffer.View() == old(buffer.View())
      && Ahead(buffer) == old(Ahead(buffer)) && Flags(buffer.ancestors) == old(Flags(buffer.ancestors))
  {
    hide ParseEntries;
    buffer.NotOwnAncestor();
    ghost var chain, flags := entries.ancestors, Flags(entries.ancestors);
    assert chain[1..] == buffer.ancestors && flags == [buffer.overflow] + Flags(buffer.ancestors);
    var q := ReadEntries(kind, n, entries, values, es, vs);
    p := Some(q);
    if !q.Unread? {
      assert Flags(chain) == [buffer.overflow] + Flags(buffer.ancestors);
      assert flags[0] == Flags(chain)[0] && flags[1..] == Flags(chain)[1..];
    }
  }

  /** Common part of both deserialize() specializations. */
  method ReadPacket(kind: Kind, buffer: ByteStreamBuffer) returns (p: Parsed)
    requires CanRead(buffer)
    modifies buffer`read, buffer`write, buffer`overflow, buffer.ancestors`overflow
    ensures p == Parse(kind, old(Ahead(buffer)))
    ensures p.Ok? || p.OffsetMismatch? ==> Moved(buffer, p.size)
    ensures p.BadVersion? ==> Moved(buffer, 32)
  {
    hide Field, ParseEntries;
    buffer.NotOwnAncestor();
    ghost var s := Ahead(buffer);
    var h := ReadBytes(32, buffer);
    if h.None? { return Undefined; }
    FieldPrefixes(s);
    if Field(h.value, 0) != FORMAT_VERSION { return BadVersion; }
    var handle, n, size, data := Field(h.value, 4), Field(h.value, 8), Field(h.value, 12), Field(h.value, 16);
    if data < 32 || size < data { return Undefined; }
    var es := ReadBody(kind, n, data - 32, size - data, buffer);
    SliceAfter(s, data, size);
    match es
    case None => p := TooSmall;
    case Some(Entries(recs)) => p := Ok(handle, recs, size);
    case Some(MismatchAt(_)) => p := OffsetMismatch(size);
    case Some(Unread) => p := Undefined;
  }

  lemma SliceAfter(s: seq<byte>, data: nat, size: nat)
    requires |s| >= 32 && 32 <= data <= size
    ensures size <= |s| ==>
      && s[32..][..data - 32] == s[32..data]
      && s[32..][data - 32..data - 32 + (size - data)] == s[data..size]
      && s[32..][size - 32..] == s[size..]
  {
  }

  lemma FieldPrefixes(s: seq<byte>)
    requires |s| >= 32
    ensures forall k: nat | k <= 16 :: Field(s[..32], k) == Field(s, k)
  {
    forall k: nat | k <= 16
      ensures Field(s[..32], k) == Field(s, k)
    {
      assert s[..32][k..k + 4] == s[k..k + 4];
    }
  }
}
