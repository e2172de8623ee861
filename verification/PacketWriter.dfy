/** Writing a packet through a buffer: header, then entries and values side by side
    through two carved-out sub-buffers. */
module PacketWriter {
  import opened Bytes
  import opened ByteStream
  import opened ControlFormat

  /** A write buffer on live memory with no overflow so far and room for n bytes. */
  ghost predicate CanWrite(b: ByteStreamBuffer, n: nat)
    reads b
  {
    b.write.At? && b.base.At? && !b.overflow && b.View().Fits(n)
  }

  /** Memory outside lo..hi is as it was. */
  predicate SameOutside(m: seq<byte>, was: seq<byte>, lo: nat, hi: nat) {
    |m| == |was| && lo <= hi <= |m| && m[..lo] == was[..lo] && m[hi..] == was[hi..]
  }

  /** The effect on b of writing d where there is room for it, or of doing nothing where b is null. */
  twostate predicate Wrote(b: ByteStreamBuffer, d: seq<byte>)
    requires old(b.Valid())
    reads b, b.ancestors, b.mem
  {
    && b.Valid()
    && (old(b.write).Null? ==> b.mem[..] == old(b.mem[..]) && b.View() == old(b.View()))
    && (old(CanWrite(b, |d|)) ==>
          && b.View() == old(b.View()).Advance(|d|)
          && b.mem[..] == Splice(old(b.mem[..]), old(b.write).off, d))
    && b.ancestors == old(b.ancestors)
    && forall a <- old(b.ancestors) :: a.overflow == old(a.overflow)
  }

  method WriteBytes(d: seq<byte>, b: ByteStreamBuffer)
    requires b.Valid() && (b.write.At? ==> CanWrite(b, |d|))
    modifies b`write, b`overflow, b.ancestors`overflow, b.mem
    ensures Wrote(b, d)
  {
    b.NotOwnAncestor();
    var ret := b.Write(d);
  }

  /** store(): an empty value writes nothing. */
  method StoreValue(v: ControlValue, b: ByteStreamBuffer)
    requires b.Valid() && (b.write.At? ==> CanWrite(b, |Store(v)|))
    modifies b`write, b`overflow, b.ancestors`overflow, b.mem
    ensures Wrote(b, Store(v))
  {
    if v != Empty {
      hide Store;
      WriteBytes(Store(v), b);
    }
  }

  method StoreValues(vals: seq<ControlValue>, b: ByteStreamBuffer)
    requires b.Valid() && (b.write.At? ==> CanWrite(b, |StoreAll(vals)|))
    modifies b`write, b`overflow, b.ancestors`overflow, b.mem
    ensures Wrote(b, StoreAll(vals))
  {
    hide Store;
    b.NotOwnAncestor();
    if vals != [] {
      ghost var was, at := b.mem[..], b.write;
      StoreValue(vals[0], b);
      StoreValues(vals[1..], b);
      if at.At? {
        SpliceTwice(was, at.off, Store(vals[0]), StoreAll(vals[1..]));
      }
    }
  }

  /** The bytes of one entry; the padding the source leaves uninitialised is arbitrary. */
  method EntryBytes(kind: Kind, r: Record, off: nat) returns (e: seq<byte>)
    ensures EntryMatches(kind, e, r, off)
  {
    var head := EncodeU32(r.id) + EncodeU32(TypeCode(r.typ));
    if kind == Ranges {
      var padding: nat := *;
      e := head + EncodeU32(off) + EncodeU32(padding);
    } else {
      e := head + EncodeU32(1) + EncodeU32(off);
    }
  }

  /** Writing e at a and then s further up at d grows both runs and leaves the rest. */
  lemma GrowBoth(m: seq<byte>, a0: nat, a: nat, e: seq<byte>, d0: nat, d: nat, s: seq<byte>, hi: nat)
    requires a0 <= a && a + |e| <= d0 <= d && d + |s| <= hi <= |m|
    ensures var m' := Splice(Splice(m, a, e), d, s);
            && m'[a0..a + |e|] == m[a0..a] + e
            && m'[d0..d + |s|] == m[d0..d] + s
            && m'[..a0] == m[..a0] && m'[hi..] == m[hi..]
  {
    var m' := Splice(Splice(m, a, e), d, s);
    SpliceElements(m, a, e);
    SpliceElements(Splice(m, a, e), d, s);
    hide Splice;
    assert forall i | 0 <= i < |m| :: m'[i] == if d <= i < d + |s| then s[i - d] else if a <= i < a + |e| then e[i - a] else m[i];
  }

  lemma SpliceElements(m: seq<byte>, a: nat, e: seq<byte>)
    requires a + |e| <= |m|
    ensures |Splice(m, a, e)| == |m|
    ensures forall i | 0 <= i < |m| :: Splice(m, a, e)[i] == if a <= i < a + |e| then e[i - a] else m[i]
  {
  }

  lemma StoredPrefix(recs: seq<Record>, i: nat)
    requires i < |recs|
    ensures Stored(recs[..i + 1]) == Stored(recs[..i]) + StoreAll(recs[i].vals)
    ensures |Stored(recs[..i + 1])| <= |Stored(recs)|
  {
    hide *;
    assert recs[..i + 1] == recs[..i] + [recs[i]];
    StoredAppend(recs[..i], recs[i]);
    StoredConcat(recs[..i + 1], recs[i + 1..]);
    assert recs == recs[..i + 1] + recs[i + 1..];
  }

  lemma {:induction false} StoredConcat(a: seq<Record>, b: seq<Record>)
    ensures Stored(a + b) == Stored(a) + Stored(b)
  {
    hide StoreAll;
    if a == [] {
      assert a + b == b;
    } else {
      assert (a + b)[1..] == a[1..] + b;
      StoredConcat(a[1..], b);
    }
  }

  /** One turn of the serialization loop. */
  method WriteEntry(kind: Kind, r: Record, entries: ByteStreamBuffer, values: ByteStreamBuffer)
    returns (ghost e: seq<byte>)
    requires entries.Valid() && values.Valid() && entries.mem == values.mem
    requires entries != values && entries !in values.ancestors && values !in entries.ancestors
    requires entries.write.At? ==> CanWrite(entries, 16)
    requires values.write.At? ==> CanWrite(values, |StoreAll(r.vals)|)
    modifies entries`write, entries`overflow, entries.ancestors`overflow
    modifies values`write, values`overflow, values.ancestors`overflow, values.mem
    ensures entries.Valid() && values.Valid()
    ensures entries.View() == old(if entries.write.At? then entries.View().Advance(16) else entries.View())
    ensures values.View() == old(if values.write.At? then values.View().Advance(|StoreAll(r.vals)|) else values.View())
    ensures forall a <- entries.ancestors :: a.overflow == old(a.overflow)
    ensures forall a <- values.ancestors :: a.overflow == old(a.overflow)
    ensures |e| == 16 && EntryMatches(kind, e, r, old(values.View().Offset()))
    ensures old(entries.write).At? && old(values.write).At? ==>
      values.mem[..] == Splice(Splice(old(values.mem[..]), old(entries.write).off, e), old(values.write).off, StoreAll(r.vals))
    ensures old(entries.write).At? && old(values.write).Null? ==>
      values.mem[..] == Splice(old(values.mem[..]), old(entries.write).off, e)
    ensures old(entries.write).Null? && old(values.write).Null? ==> values.mem[..] == old(values.mem[..])
  {
    hide StoreAll;
    entries.NotOwnAncestor();
    values.NotOwnAncestor();
    var bytes := EntryBytes(kind, r, values.View().Offset());
    e := bytes;
    assert |e| == 16;
    hide EntryMatches;
    WriteBytes(bytes, entries);
    StoreValues(r.vals, values);
  }

  /** Memory after i turns of the loop, with entries from lo and values from mid. */
  ghost predicate Written(kind: Kind, m: seq<byte>, was: seq<byte>, recs: seq<Record>, i: nat, lo: nat, mid: nat) {
    && i <= |recs| && lo + 16 * |recs| == mid
    && var k := |Stored(recs[..i])|;
    && k <= |Stored(recs)|
    && SameOutside(m, was, lo, mid + |Stored(recs)|)
    && EntriesMatch(kind, m[lo..lo + 16 * i], recs[..i], 0)
    && m[mid..mid + k] == Stored(recs[..i])
  }

  lemma WrittenStep(kind: Kind, m: seq<byte>, m': seq<byte>, was: seq<byte>, recs: seq<Record>, i: nat, lo: nat, mid: nat, e: seq<byte>)
    requires Written(kind, m, was, recs, i, lo, mid) && i < |recs|
    requires EntryMatches(kind, e, recs[i], |Stored(recs[..i])|)
    requires lo + 16 * i + 16 <= mid && mid + |Stored(recs[..i])| + |StoreAll(recs[i].vals)| <= mid + |Stored(recs)| <= |m| == |m'|
    requires m'[lo..lo + 16 * i + 16] == m[lo..lo + 16 * i] + e
    requires var k, s := |Stored(recs[..i])|, StoreAll(recs[i].vals);
             m'[mid..mid + k + |s|] == m[mid..mid + k] + s
    requires m'[..lo] == m[..lo] && m'[mid + |Stored(recs)|..] == m[mid + |Stored(recs)|..]
    ensures Written(kind, m', was, recs, i + 1, lo, mid)
  {
    hide *;
    StoredPrefix(recs, i);
    assert recs[..i + 1] == recs[..i] + [recs[i]];
    WrittenBounds(kind, m, was, recs, i, lo, mid);
    EntriesAppend(kind, m[lo..lo + 16 * i], e, recs[..i], recs[i], 0);
    assert lo + 16 * (i + 1) == lo + 16 * i + 16;
    WrittenIntro(kind, m', was, recs, i + 1, lo, mid);
  }

  lemma WrittenSplice(kind: Kind, m: seq<byte>, was: seq<byte>, recs: seq<Record>, i: nat, lo: nat, mid: nat, e: seq<byte>)
    requires Written(kind, m, was, recs, i, lo, mid) && i < |recs|
    requires EntryMatches(kind, e, recs[i], |Stored(recs[..i])|)
    requires lo + 16 * i + |e| <= |m| && mid + |Stored(recs[..i])| + |StoreAll(recs[i].vals)| <= |m|
    ensures var m' := Splice(Splice(m, lo + 16 * i, e), mid + |Stored(recs[..i])|, StoreAll(recs[i].vals));
            Written(kind, m', was, recs, i + 1, lo, mid)
  {
    hide *;
    EntrySize(kind, e, recs[i], |Stored(recs[..i])|);
    WrittenBounds(kind, m, was, recs, i, lo, mid);
    StoredPrefix(recs, i);
    var k, s := |Stored(recs[..i])|, StoreAll(recs[i].vals);
    GrowBoth(m, lo, lo + 16 * i, e, mid, mid + k, s, mid + |Stored(recs)|);
    WrittenStep(kind, m, Splice(Splice(m, lo + 16 * i, e), mid + k, s), was, recs, i, lo, mid, e);
  }

  lemma WrittenBounds(kind: Kind, m: seq<byte>, was: seq<byte>, recs: seq<Record>, i: nat, lo: nat, mid: nat)
    requires Written(kind, m, was, recs, i, lo, mid)
    ensures lo + 16 * |recs| == mid && mid + |Stored(recs)| <= |m| == |was| && |Stored(recs[..i])| <= |Stored(recs)|
    ensures m[..lo] == was[..lo] && m[mid + |Stored(recs)|..] == was[mid + |Stored(recs)|..]
    ensures EntriesMatch(kind, m[lo..lo + 16 * i], recs[..i], 0)
    ensures m[mid..mid + |Stored(recs[..i])|] == Stored(recs[..i])
  {
    hide Stored, EntriesMatch;
  }

  lemma WrittenIntro(kind: Kind, m: seq<byte>, was: seq<byte>, recs: seq<Record>, i: nat, lo: nat, mid: nat)
    requires i <= |recs| && lo + 16 * |recs| == mid && mid + |Stored(recs)| <= |m| == |was|
    requires |Stored(recs[..i])| <= |Stored(recs)|
    requires m[..lo] == was[..lo] && m[mid + |Stored(recs)|..] == was[mid + |Stored(recs)|..]
    requires EntriesMatch(kind, m[lo..lo + 16 * i], recs[..i], 0)
    requires m[mid..mid + |Stored(recs[..i])|] == Stored(recs[..i])
    ensures Written(kind, m, was, recs, i, lo, mid)
  {
    hide Stored, EntriesMatch;
  }

  /** Turn i of the loop where both buffers are complete. */
  method WriteEntryAt(kind: Kind, recs: seq<Record>, i: nat, entries: ByteStreamBuffer, values: ByteStreamBuffer,
                      ghost was: seq<byte>, ghost lo: nat, ghost mid: nat)
    requires entries.Valid() && values.Valid() && entries.mem == values.mem
    requires entries != values && entries !in values.ancestors && values !in entries.ancestors
    requires i < |recs| && Written(kind, values.mem[..], was, recs, i, lo, mid)
    requires CanWrite(entries, 16) && entries.write.off == lo + 16 * i
    requires CanWrite(values, |StoreAll(recs[i].vals)|) && values.base == At(mid) && values.write.off == mid + |Stored(recs[..i])|
    modifies entries`write, entries`overflow, entries.ancestors`overflow
    modifies values`write, values`overflow, values.ancestors`overflow, values.mem
    ensures entries.Valid() && values.Valid()
    ensures entries.View() == old(entries.View()).Advance(16)
    ensures values.View() == old(values.View()).Advance(|StoreAll(recs[i].vals)|)
    ensures forall a <- entries.ancestors :: a.overflow == old(a.overflow)
    ensures forall a <- values.ancestors :: a.overflow == old(a.overflow)
    ensures Written(kind, values.mem[..], was, recs, i + 1, lo, mid)
  {
    hide Stored, StoreAll, EntryMatches, EntriesMatch, Written;
    ghost var m, k := values.mem[..], |Stored(recs[..i])|;
    WrittenBounds(kind, m, was, recs, i, lo, mid);
    StoredPrefix(recs, i);
    ghost var e := WriteEntry(kind, recs[i], entries, values);
    WrittenSplice(kind, m, was, recs, i, lo, mid, e);
  }

  /** The loop where both buffers were carved out. */
  method WriteEntries(kind: Kind, recs: seq<Record>, entries: ByteStreamBuffer, values: ByteStreamBuffer)
    requires entries.Valid() && values.Valid() && entries.mem == values.mem
    requires entries != values && entries !in values.ancestors && values !in entries.ancestors
    requires CanWrite(entries, 16 * |recs|)
    requires CanWrite(values, |Stored(recs)|) && values.write == values.base
    requires entries.write.off + 16 * |recs| == values.write.off
    modifies entries`write, entries`overflow, entries.ancestors`overflow
    modifies values`write, values`overflow, values.ancestors`overflow, values.mem
    ensures forall a <- entries.ancestors :: a.overflow == old(a.overflow)
    ensures forall a <- values.ancestors :: a.overflow == old(a.overflow)
    ensures Written(kind, values.mem[..], old(values.mem[..]), recs, |recs|, old(entries.write).off, old(values.write).off)
  {
    hide Stored, StoreAll, EntryMatches, EntriesMatch, Written;
    entries.NotOwnAncestor();
    values.NotOwnAncestor();
    ghost var was, lo, mid := values.mem[..], entries.write.off, values.write.off;
    ghost var ev, vv := entries.View(), values.View();
    StoredNone(recs);
    WrittenNone(kind, was, recs, lo, mid);
    for i := 0 to |recs|
      invariant entries.Valid() && values.Valid()
      invariant entries.View() == ev.Advance(16 * i)
      invariant values.View() == vv.Advance(|Stored(recs[..i])|)
      invariant forall a <- entries.ancestors :: a.overflow == old(a.overflow)
      invariant forall a <- values.ancestors :: a.overflow == old(a.overflow)
      invariant Written(kind, values.mem[..], was, recs, i, lo, mid)
    {
      StoredPrefix(recs, i);
      WriteEntryAt(kind, recs, i, entries, values, was, lo, mid);
    }
  }

  lemma SpliceInside(m: seq<byte>, was: seq<byte>, lo: nat, hi: nat, at: nat, e: seq<byte>)
    requires SameOutside(m, was, lo, hi) && lo <= at && at + |e| <= hi
    ensures SameOutside(Splice(m, at, e), was, lo, hi)
  {
  }

  lemma SameOutsideSelf(m: seq<byte>, lo: nat, hi: nat)
    ensures lo <= hi <= |m| ==> SameOutside(m, m, lo, hi)
  {
  }

  /** The same loop after an overflow: values is null, entries null or complete. */
  method WriteEntriesTruncated(kind: Kind, recs: seq<Record>, entries: ByteStreamBuffer, values: ByteStreamBuffer)
    requires entries.Valid() && values.Valid() && entries.mem == values.mem
    requires entries != values && entries !in values.ancestors && values !in entries.ancestors
    requires entries.write.At? ==> CanWrite(entries, 16 * |recs|)
    requires values.write.Null?
    modifies entries`write, entries`overflow, entries.ancestors`overflow
    modifies values`write, values`overflow, values.ancestors`overflow, values.mem
    ensures forall a <- entries.ancestors :: a.overflow == old(a.overflow)
    ensures forall a <- values.ancestors :: a.overflow == old(a.overflow)
    ensures var lo := Off(old(entries.write));
      SameOutside(values.mem[..], old(values.mem[..]), lo, lo + if old(entries.write).At? then 16 * |recs| else 0)
  {
    hide StoreAll, EntryMatches, SameOutside, Splice;
    entries.NotOwnAncestor();
    values.NotOwnAncestor();
    SameOutsideSelf(values.mem[..], Off(entries.write), Off(entries.write) + if entries.write.At? then 16 * |recs| else 0);
    ghost var was, lo, ev, vv := values.mem[..], Off(entries.write), entries.View(), values.View();
    for i := 0 to |recs|
      invariant entries.Valid() && values.Valid() && values.View() == vv
      invariant entries.View() == if ev.write.At? then ev.Advance(16 * i) else ev
      invariant forall a <- entries.ancestors :: a.overflow == old(a.overflow)
      invariant forall a <- values.ancestors :: a.overflow == old(a.overflow)
      invariant SameOutside(values.mem[..], was, lo, lo + if ev.write.At? then 16 * |recs| else 0)
    {
      ghost var m := values.mem[..];
      ghost var e := WriteEntry(kind, recs[i], entries, values);
      if ev.write.At? {
        SpliceInside(m, was, lo, lo + 16 * |recs|, lo + 16 * i, e);
      }
    }
  }

  lemma WrittenNone(kind: Kind, m: seq<byte>, recs: seq<Record>, lo: nat, mid: nat)
    requires lo + 16 * |recs| == mid && mid + |Stored(recs)| <= |m|
    ensures Written(kind, m, m, recs, 0, lo, mid)
  {
    StoredNone(recs);
    assert m[lo..lo] == [];
  }

  lemma StoredNone(recs: seq<Record>)
    ensures Stored(recs[..0]) == []
  {
  }

  lemma EntrySize(kind: Kind, e: seq<byte>, r: Record, off: nat)
    requires EntryMatches(kind, e, r, off)
    ensures |e| == 16
  {
  }

  method TotalSize(recs: seq<Record>) returns (n: nat)
    ensures n == ValuesSize(recs)
  {
    n := 0;
    hide SizeOf;
    assert recs[..0] == [];
    for i := 0 to |recs|
      invariant n == ValuesSize(recs[..i])
    {
      StoredAppend(recs[..i], recs[i]);
      assert recs[..i + 1] == recs[..i] + [recs[i]];
      n := n + SizeOf(recs[i].vals);
    }
    assert recs[..|recs|] == recs;
  }

  /** The header; its reserved words are left uninitialised, hence arbitrary. */
  method HeaderBytes(handle: uint32, recs: seq<Record>) returns (h: seq<byte>)
    ensures HeaderMatches(h, handle, recs) && |h| == 32
  {
    var r0: nat, r1: nat, r2: nat := *, *, *;
    h := EncodeU32(1) + EncodeU32(handle) + EncodeU32(|recs|) + EncodeU32(PacketSize(recs)) + EncodeU32(DataOffset(recs))
       + EncodeU32(r0) + EncodeU32(r1) + EncodeU32(r2);
  }

  lemma SubSlice(m: seq<byte>, w: nat, n: nat, a: nat, b: nat)
    requires w + n <= |m| && a <= b <= n
    ensures m[w..w + n][a..b] == m[w + a..w + b]
    ensures b == n ==> m[w..w + n][a..] == m[w + a..w + n]
  {
    var p := m[w..w + n];
    assert forall i | a <= i < n :: p[i] == m[w + i];
    assert forall i | 0 <= i < b - a :: p[a..b][i] == m[w + a + i];
  }

  lemma PacketWritten(kind: Kind, was: seq<byte>, h: seq<byte>, handle: uint32, recs: seq<Record>, m: seq<byte>, w: nat)
    requires w + PacketSize(recs) <= |was| && |h| == 32 && HeaderMatches(h, handle, recs)
    requires Written(kind, m, Splice(was, w, h), recs, |recs|, w + 32, w + 32 + 16 * |recs|)
    ensures |m| == |was| && IsPacket(kind, m[w..w + PacketSize(recs)], handle, recs)
    ensures SameOutside(m, was, w, w + PacketSize(recs))
  {
    hide Stored, HeaderMatches, EntriesMatch, ValuesSize, Splice;
    var n, d := PacketSize(recs), 32 + 16 * |recs|;
    var p := m[w..w + n];
    assert recs[..|recs|] == recs;
    HeaderWritten(m, was, h, w, w + d + |Stored(recs)|, w + n);
    SubSlice(m, w, n, 0, 32);
    assert p[0..32] == p[..32];
    SubSlice(m, w, n, 32, d);
    SubSlice(m, w, n, d, n);
    SubSlice(m, w + d, n - d, 0, |Stored(recs)|);
    IsPrefix(Stored(recs), p[d..]);
  }

  lemma IsPrefix<T>(x: seq<T>, y: seq<T>)
    requires |x| <= |y| && y[0..|x|] == x
    ensures x <= y
  {
  }

  /** Writing behind a header that was spliced in leaves the header and everything outside the packet. */
  lemma HeaderWritten(m: seq<byte>, was: seq<byte>, h: seq<byte>, w: nat, hi: nat, end: nat)
    requires |h| == 32 && w + 32 <= |was| && SameOutside(m, Splice(was, w, h), w + 32, hi) && hi <= end <= |was|
    ensures m[w..w + 32] == h && SameOutside(m, was, w, end)
  {
    var s := Splice(was, w, h);
    assert s[w..w + 32] == h && s[..w] == was[..w] && s[hi..] == was[hi..];
    assert m[w..w + 32] == m[..w + 32][w..] == s[..w + 32][w..] == s[w..w + 32];
    assert m[..w] == m[..w + 32][..w] == s[..w + 32][..w] == s[..w];
    assert m[end..] == m[hi..][end - hi..] == was[hi..][end - hi..] == was[end..];
  }

  /** b has overflown, and so has every buffer it stems from. */
  ghost predicate Flagged(b: ByteStreamBuffer)
    reads b, b.ancestors
  {
    b.overflow && forall a <- b.ancestors :: a.overflow
  }

  /** A carve-out from a write buffer that is either flagged or has not overflown. */
  method CarveWriter(b: ByteStreamBuffer, n: nat) returns (c: ByteStreamBuffer)
    requires b.Valid() && b.base.At? && b.write.At? && (b.size > 0 || b.overflow) && (b.overflow ==> Flagged(b))
    modifies b`write, b`overflow, b`read, b.ancestors`overflow
    ensures b.Valid() && c.Valid() && fresh(c) && c.mem == b.mem
    ensures c.ancestors == if c.base.At? then [b] + b.ancestors else []
    ensures if !old(b.overflow) && old(b.View()).Fits(n) then
      && b.View() == old(b.View()).Advance(n)
      && c.View() == Region(old(b.write), n, false, Null, old(b.write))
      && forall a <- b.ancestors :: a.overflow == old(a.overflow)
      else Flagged(b) && b.View() == old(b.View()).(overflow := true) && c.View() == NULL_REGION
  {
    b.NotOwnAncestor();
    c := b.CarveOut(n);
  }

  /** Header written, entries and values carved out of buffer; or an overflow on the way. */
  method Prepare(h: seq<byte>, es: nat, vs: nat, buffer: ByteStreamBuffer) returns (entries: ByteStreamBuffer, values: ByteStreamBuffer)
    requires buffer.Valid() && buffer.base.At? && buffer.write.At? && !buffer.overflow && |h| == 32
    modifies buffer`write, buffer`overflow, buffer`read, buffer.ancestors`overflow, buffer.mem
    ensures buffer.Valid() && entries.Valid() && values.Valid() && fresh(entries) && fresh(values) && entries != values
    ensures entries.mem == values.mem == buffer.mem
    ensures entries.ancestors == (if entries.base.At? then [buffer] + buffer.ancestors else [])
    ensures values.ancestors == (if values.base.At? then [buffer] + buffer.ancestors else [])
    ensures values.write.At? <==> old(buffer.View()).Fits(32 + es + vs)
    ensures old(buffer.View()).Fits(32 + es + vs) ==>
      var w := old(buffer.write).off;
      && w + 32 + es + vs <= buffer.mem.Length
      && buffer.View() == old(buffer.View()).Advance(32 + es + vs)
      && entries.View() == Region(At(w + 32), es, false, Null, At(w + 32))
      && values.View() == Region(At(w + 32 + es), vs, false, Null, At(w + 32 + es))
      && buffer.mem[..] == Splice(old(buffer.mem[..]), w, h)
      && forall a <- buffer.ancestors :: a.overflow == old(a.overflow)
    ensures !old(buffer.View()).Fits(32 + es + vs) ==>
      var w := old(buffer.write).off;
      && Flagged(buffer) && buffer.View().End() == old(buffer.View()).End()
      && values.View() == NULL_REGION
      && (entries.View() == NULL_REGION ||
            (w + 32 + es <= buffer.View().End() && entries.View() == Region(At(w + 32), es, false, Null, At(w + 32))))
      && SameOutside(buffer.mem[..], old(buffer.mem[..]), w, buffer.View().End())
  {
    hide SameOutside, Splice;
    WriteHeader(h, buffer);
    entries, values := CarveParts(es, vs, buffer);
  }

  /** The header, or an overflow. */
  method WriteHeader(h: seq<byte>, buffer: ByteStreamBuffer)
    requires buffer.Valid() && buffer.base.At? && buffer.write.At? && !buffer.overflow && |h| == 32
    modifies buffer`write, buffer`overflow, buffer.ancestors`overflow, buffer.mem
    ensures buffer.Valid() && (buffer.size > 0 || buffer.overflow)
    ensures
      var was, w, end := old(buffer.View()), old(buffer.write).off, old(buffer.View()).End();
      if was.Fits(32) then
        && buffer.View() == was.Advance(32) && w + 32 <= end && buffer.mem[..] == Splice(old(buffer.mem[..]), w, h)
        && SameOutside(buffer.mem[..], old(buffer.mem[..]), w, end)
        && forall a <- buffer.ancestors :: a.overflow == old(a.overflow)
      else
        && Flagged(buffer) && buffer.View() == was.(overflow := true)
        && SameOutside(buffer.mem[..], old(buffer.mem[..]), w, end)
  {
    hide SameOutside, Splice;
    buffer.NotOwnAncestor();
    ghost var was, w, end := buffer.mem[..], buffer.write.off, buffer.View().End();
    SameOutsideSelf(was, w, end);
    var written := buffer.Write(h);
    if written == 0 {
      SpliceInside(was, was, w, end, w, h);
    }
  }

  /** The two carve-outs. */
  method CarveParts(es: nat, vs: nat, buffer: ByteStreamBuffer) returns (entries: ByteStreamBuffer, values: ByteStreamBuffer)
    requires buffer.Valid() && buffer.base.At? && buffer.write.At? && (buffer.size > 0 || buffer.overflow)
    requires buffer.overflow ==> Flagged(buffer)
    modifies buffer`write, buffer`overflow, buffer`read, buffer.ancestors`overflow
    ensures buffer.Valid() && entries.Valid() && values.Valid() && fresh(entries) && fresh(values) && entries != values
    ensures entries.mem == values.mem == buffer.mem
    ensures entries.ancestors == (if entries.base.At? then [buffer] + buffer.ancestors else [])
    ensures values.ancestors == (if values.base.At? then [buffer] + buffer.ancestors else [])
    ensures
      var was, w := old(buffer.View()), old(buffer.write);
      if !was.overflow && was.Fits(es + vs) then
        && buffer.View() == was.Advance(es + vs)
        && entries.View() == Region(w, es, false, Null, w)
        && values.View() == Region(At(w.off + es), vs, false, Null, At(w.off + es))
        && forall a <- buffer.ancestors :: a.overflow == old(a.overflow)
      else
        && Flagged(buffer) && buffer.View().End() == was.End() && values.View() == NULL_REGION
        && (entries.View() == NULL_REGION
            || (!was.overflow && was.Fits(es) && entries.View() == Region(w, es, false, Null, w)))
  {
    buffer.NotOwnAncestor();
    entries := CarveWriter(buffer, es);
    values := CarveWriter(buffer, vs);
  }

  /** entries and values as Prepare leaves them: both complete, or values null. */
  ghost predicate Prepared(entries: ByteStreamBuffer, values: ByteStreamBuffer, buffer: ByteStreamBuffer, lo: nat, n: nat, vs: nat)
    reads entries, entries.ancestors`parent, entries.ancestors`ancestors, values, values.ancestors`parent, values.ancestors`ancestors, buffer
  {
    && entries.Valid() && values.Valid() && entries != values && entries.mem == values.mem == buffer.mem
    && entries.ancestors == (if entries.base.At? then [buffer] + buffer.ancestors else [])
    && values.ancestors == (if values.base.At? then [buffer] + buffer.ancestors else [])
    && entries != buffer && values != buffer && entries !in buffer.ancestors && values !in buffer.ancestors
    && (entries.View() == NULL_REGION || entries.View() == Region(At(lo), 16 * n, false, Null, At(lo)))
    && (values.View() == NULL_REGION ||
          (entries.base.At? && values.View() == Region(At(lo + 16 * n), vs, false, Null, At(lo + 16 * n))))
  }

  /** The packet's bytes are written side by side where values was carved out, else thrown away. */
  method WriteBody(kind: Kind, recs: seq<Record>, entries: ByteStreamBuffer, values: ByteStreamBuffer,
                   ghost buffer: ByteStreamBuffer, ghost lo: nat)
    requires buffer.Valid() && Prepared(entries, values, buffer, lo, |recs|, ValuesSize(recs))
    modifies entries`write, entries`overflow, entries.ancestors`overflow
    modifies values`write, values`overflow, values.ancestors`overflow, values.mem
    ensures buffer.Valid() && buffer.View() == old(buffer.View())
    ensures forall a <- buffer.ancestors :: a.overflow == old(a.overflow)
    ensures old(values.write).At? ==>
      Written(kind, buffer.mem[..], old(buffer.mem[..]), recs, |recs|, lo, lo + 16 * |recs|)
    ensures old(values.write).Null? ==> old(entries.write).At? ==>
      SameOutside(buffer.mem[..], old(buffer.mem[..]), lo, lo + 16 * |recs|)
    ensures old(values.write).Null? && old(entries.write).Null? ==> buffer.mem[..] == old(buffer.mem[..])
  {
    hide Written, SameOutside, Stored, ValuesSize;
    buffer.NotOwnAncestor();
    ghost var was, ew := buffer.mem[..], entries.write;
    if values.write.At? {
      WriteEntries(kind, recs, entries, values);
    } else {
      WriteEntriesTruncated(kind, recs, entries, values);
      if ew.Null? {
        SameOutsideNothing(buffer.mem[..], was, 0);
      }
    }
  }

  lemma SameOutsideNothing(m: seq<byte>, was: seq<byte>, lo: nat)
    requires SameOutside(m, was, lo, lo)
    ensures m == was
  {
    assert m == m[..lo] + m[lo..] == was;
  }

  lemma SameOutsideTrans(m: seq<byte>, mid: seq<byte>, was: seq<byte>, lo: nat, hi: nat, lo': nat, hi': nat)
    requires SameOutside(mid, was, lo, hi) && SameOutside(m, mid, lo', hi') && lo <= lo' && hi' <= hi
    ensures SameOutside(m, was, lo, hi)
  {
    assert m[..lo] == m[..lo'][..lo] == mid[..lo];
    assert m[hi..] == m[hi'..][hi - hi'..] == mid[hi..];
  }

  /** A header of 32 bytes, then the entries and the values, in the room there is. */
  method WriteParts(kind: Kind, recs: seq<Record>, h: seq<byte>, valuesSize: nat, buffer: ByteStreamBuffer)
    requires buffer.Valid() && buffer.base.At? && buffer.write.At? && !buffer.overflow
    requires |h| == 32 && valuesSize == ValuesSize(recs)
    modifies buffer`write, buffer`overflow, buffer`read, buffer.ancestors`overflow, buffer.mem
    ensures buffer.Valid() && (!buffer.overflow <==> old(buffer.View()).Fits(32 + 16 * |recs| + valuesSize))
    ensures !buffer.overflow ==>
      var w := old(buffer.write).off;
      && w + 32 + 16 * |recs| + valuesSize <= buffer.mem.Length
      && buffer.View() == old(buffer.View()).Advance(32 + 16 * |recs| + valuesSize)
      && Written(kind, buffer.mem[..], Splice(old(buffer.mem[..]), w, h), recs, |recs|, w + 32, w + 32 + 16 * |recs|)
      && forall a <- buffer.ancestors :: a.overflow == old(a.overflow)
    ensures buffer.overflow ==>
      && Flagged(buffer)
      && SameOutside(buffer.mem[..], old(buffer.mem[..]), old(buffer.write).off, buffer.View().End())
  {
    hide ValuesSize, Written, Splice, SameOutside, Region.Fits;
    buffer.NotOwnAncestor();
    ghost var was, w := buffer.mem[..], buffer.write.off;
    var entries, values := Prepare(h, 16 * |recs|, valuesSize, buffer);
    ghost var mid, fits, kept := buffer.mem[..], values.write.At?, entries.write.At?;
    WriteBody(kind, recs, entries, values, buffer, w + 32);
    if !fits && kept {
      SameOutsideTrans(buffer.mem[..], mid, was, w, buffer.View().End(), w + 32, w + 32 + 16 * |recs|);
    }
  }

  /** Common part of both serialize() overloads, once the handle is known. */
  method WritePacket(kind: Kind, handle: uint32, recs: seq<Record>, buffer: ByteStreamBuffer) returns (ret: int)
    requires buffer.Valid() && buffer.base.At? && buffer.write.At? && !buffer.overflow
    modifies buffer`write, buffer`overflow, buffer`read, buffer.ancestors`overflow, buffer.mem
    ensures buffer.Valid()
    ensures ret == if old(buffer.View()).Fits(PacketSize(recs)) then 0 else -ENOSPC
    ensures ret == 0 ==>
      && buffer.View() == old(buffer.View()).Advance(PacketSize(recs))
      && SameOutside(buffer.mem[..], old(buffer.mem[..]), old(buffer.write).off, buffer.write.off)
      && IsPacket(kind, buffer.mem[old(buffer.write).off..buffer.write.off], handle, recs)
      && forall a <- buffer.ancestors :: a.overflow == old(a.overflow)
    ensures ret != 0 ==>
      && Flagged(buffer)
      && SameOutside(buffer.mem[..], old(buffer.mem[..]), old(buffer.write).off, buffer.View().End())
  {
    hide ValuesSize, Stored, HeaderMatches, EntriesMatch, Written, IsPacket, Splice, SameOutside, Flagged;
    ghost var was, w := buffer.mem[..], buffer.write.off;
    var valuesSize := TotalSize(recs);
    var h := HeaderBytes(handle, recs);
    assert PacketSize(recs) == 32 + 16 * |recs| + valuesSize;
    hide PacketSize, Region.Fits;
    WriteParts(kind, recs, h, valuesSize, buffer);
    if buffer.overflow {
      return -ENOSPC;
    }
    PacketWritten(kind, was, h, handle, recs, buffer.mem[..], w);
    ret := 0;
  }
}
