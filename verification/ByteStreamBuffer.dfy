/** A bounds-checked cursor over memory, from which sub-buffers can be carved. */
module ByteStream {
  import opened Bytes

  const EACCES: int := 13
  const ENOSPC: int := 28

  /** A pointer into the memory a buffer was created on; null counts as address zero. */
  datatype Ptr = Null | At(off: nat)

  function Off(p: Ptr): nat {
    if p.Null? then 0 else p.off
  }

  /** The cursor part of a buffer: at most one of read and write is set. */
  datatype Region = Region(base: Ptr, size: nat, overflow: bool, read: Ptr, write: Ptr)
  {
    predicate Ok(limit: nat) {
      if base.Null? then size == 0 && read == Null && write == Null
      else
        && base.off + size <= limit
        && (read.At? <==> write.Null?)
        && base.off <= Off(Curr()) <= base.off + size
    }

    function Curr(): Ptr {
      if read.At? then read else write
    }

    predicate Fits(n: nat) {
      Off(Curr()) + n <= Off(base) + size
    }

    function End(): nat {
      Off(base) + size
    }

    function Advance(n: nat): Region {
      if read.At? then this.(read := At(read.off + n))
      else if write.At? then this.(write := At(write.off + n))
      else this
    }

    /** Bytes consumed so far. */
    function Offset(): int {
      Off(Curr()) - Off(base)
    }
  }

  const NULL_REGION := Region(Null, 0, false, Null, Null)

  // --- What each access does to a cursor, with the value it returns.

  function Access(r: Region, n: nat): (Region, int) {
    if r.overflow then (r, -ENOSPC)
    else if !r.Fits(n) then (r.(overflow := true), -ENOSPC)
    else (r.Advance(n), 0)
  }

  function WriteAccess(r: Region, n: nat): (Region, int) {
    if r.write.Null? then (r, -EACCES) else Access(r, n)
  }

  function ReadAccess(r: Region, n: nat): (Region, int) {
    if r.read.Null? then (r, -EACCES) else Access(r, n)
  }

  function Carve(r: Region, n: nat): (Region, Region) {
    if r.size == 0 || r.overflow then (r, NULL_REGION)
    else if !r.Fits(n) then (r.(overflow := true), NULL_REGION)
    else (r.Advance(n), Region(r.Curr(), n, false, r.read, r.write))
  }

  /** An access succeeds iff the buffer is for that direction, has not overflown, and has n bytes left. Then the
    * cursor has moved by n and nothing else changed; otherwise at most the mark of an overflow is new. */
  lemma AccessIff(r: Region, n: nat, reading: bool)
    ensures
      var (after, ret) := if reading then ReadAccess(r, n) else WriteAccess(r, n);
      var p := if reading then r.read else r.write;
      && (ret == 0 <==> p.At? && !r.overflow && Off(r.Curr()) + n <= r.End())
      && (ret != 0 ==> ret == if p.Null? then -EACCES else -ENOSPC)
      && after.base == r.base && after.size == r.size
      && (ret != 0 ==> after.read == r.read && after.write == r.write)
      && (after.overflow <==> r.overflow || (p.At? && ret != 0))
      && (ret == 0 && r.read.At? ==> after.read == At(r.read.off + n) && after.write == r.write)
      && (ret == 0 && r.read.Null? ==> after.write == At(r.write.off + n) && after.read == r.read)
  {
  }

  /** Once a buffer has overflown nothing moves its cursor any more, and nothing can be carved out of it. */
  lemma OverflowIsFinal(r: Region, n: nat)
    requires r.overflow
    ensures Access(r, n) == (r, -ENOSPC)
    ensures ReadAccess(r, n).0 == r && ReadAccess(r, n).1 != 0 && WriteAccess(r, n).0 == r && WriteAccess(r, n).1 != 0
    ensures Carve(r, n) == (r, NULL_REGION)
  {
  }

  /** m with d written over it from offset at. */
  function Splice<T>(m: seq<T>, at: nat, d: seq<T>): (s: seq<T>)
    requires at + |d| <= |m|
    ensures |s| == |m|
  {
    m[..at] + d + m[at + |d|..]
  }

  lemma SpliceTwice<T>(m: seq<T>, at: nat, d: seq<T>, e: seq<T>)
    requires at + |d| + |e| <= |m|
    ensures Splice(Splice(m, at, d), at + |d|, e) == Splice(m, at, d + e)
  {
  }

  class ByteStreamBuffer {
    var parent: ByteStreamBuffer?
    const mem: array<byte>
    var base: Ptr
    var size: nat
    var overflow: bool
    var read: Ptr
    var write: Ptr

    /** parent, its parent, and so on. */
    ghost var ancestors: seq<ByteStreamBuffer>

    function View(): Region
      reads this
    {
      Region(base, size, overflow, read, write)
    }

    ghost predicate Chain()
      reads this`parent, this`ancestors, ancestors`parent, ancestors`ancestors
      decreases |ancestors|
    {
      if parent == null then ancestors == []
      else ancestors != [] && ancestors[0] == parent && ancestors[1..] == parent.ancestors && parent.Chain()
    }

    ghost predicate Valid()
      reads this, ancestors`parent, ancestors`ancestors
    {
      Chain() && View().Ok(mem.Length)
    }

    lemma NotOwnAncestor()
      requires Chain()
      ensures this !in ancestors
    {
      ShorterChains();
    }

    lemma {:induction false} ShorterChains()
      requires Chain()
      ensures forall b <- ancestors :: |b.ancestors| < |ancestors|
      decreases |ancestors|
    {
      if parent != null {
        parent.ShorterChains();
      }
    }

    constructor Reader(mem: array<byte>, base: nat, size: nat)
      requires base + size <= mem.Length
      ensures Valid() && this.mem == mem && ancestors == []
      ensures View() == Region(At(base), size, false, At(base), Null)
    {
      parent := null;
      this.mem := mem;
      this.base, this.size, overflow, read, write := At(base), size, false, At(base), Null;
      ancestors := [];
    }

    constructor Writer(mem: array<byte>, base: nat, size: nat)
      requires base + size <= mem.Length
      ensures Valid() && this.mem == mem && ancestors == []
      ensures View() == Region(At(base), size, false, Null, At(base))
    {
      parent := null;
      this.mem := mem;
      this.base, this.size, overflow, read, write := At(base), size, false, Null, At(base);
      ancestors := [];
    }

    constructor Nothing(mem: array<byte>)
      ensures Valid() && this.mem == mem && ancestors == []
      ensures View() == NULL_REGION
    {
      parent := null;
      this.mem := mem;
      base, size, overflow, read, write := Null, 0, false, Null, Null;
      ancestors := [];
    }

    /** A buffer on part of its parent's memory. */
    constructor Child(parent: ByteStreamBuffer, r: Region)
      requires parent.Valid() && r.Ok(parent.mem.Length)
      ensures Valid() && mem == parent.mem && ancestors == [parent] + parent.ancestors
      ensures View() == r
    {
      this.parent := parent;
      mem := parent.mem;
      base, size, overflow, read, write := r.base, r.size, r.overflow, r.read, r.write;
      ancestors := [parent] + parent.ancestors;
    }

    /** Takes over the contents of other and leaves it null. */
    constructor Move(other: ByteStreamBuffer)
      requires other.Valid()
      modifies other
      ensures Valid() && other.Valid() && mem == other.mem
      ensures View() == old(other.View()) && ancestors == old(other.ancestors)
      ensures other.View() == NULL_REGION && other.ancestors == []
    {
      parent := other.parent;
      mem := other.mem;
      base, size, overflow, read, write := other.base, other.size, other.overflow, other.read, other.write;
      ancestors := other.ancestors;
      new;
      other.NotOwnAncestor();
      other.parent := null;
      other.base, other.size, other.overflow, other.read, other.write := Null, 0, false, Null, Null;
      other.ancestors := [];
    }

    method SetOverflow()
      requires Chain()
      modifies this`overflow, ancestors`overflow
      ensures overflow && forall b <- ancestors :: b.overflow
      decreases |ancestors|
    {
      NotOwnAncestor();
      if parent != null {
        parent.SetOverflow();
      }
      overflow := true;
    }

    method CarveOut(n: nat) returns (b: ByteStreamBuffer)
      requires Valid()
      modifies this`read, this`write, this`overflow, ancestors`overflow
      ensures Valid() && b.Valid() && fresh(b) && b.mem == mem
      ensures (View(), b.View()) == Carve(old(View()), n)
      ensures b.base.At? <==> old(size) != 0 && !old(overflow) && old(View()).Fits(n)
      ensures old(overflow) ==> View() == old(View())
      ensures b.base.At? ==> b.ancestors == [this] + ancestors
      ensures b.base.Null? ==> b.ancestors == []
      ensures overflow && !old(overflow) ==> forall a <- ancestors :: a.overflow
      ensures overflow == old(overflow) ==> forall a <- ancestors :: a.overflow == old(a.overflow)
    {
      NotOwnAncestor();
      if size == 0 || overflow {
        b := new ByteStreamBuffer.Nothing(mem);
        return;
      }
      var curr := if read.At? then read else write;
      if Off(curr) + n > Off(base) + size {
        SetOverflow();
        b := new ByteStreamBuffer.Nothing(mem);
        return;
      }
      if read.At? {
        b := new ByteStreamBuffer.Child(this, Region(read, n, false, read, Null));
        read := At(read.off + n);
      } else {
        b := new ByteStreamBuffer.Child(this, Region(write, n, false, Null, write));
        write := At(write.off + n);
      }
    }

    method Read(n: nat) returns (ret: int, data: seq<byte>)
      requires Valid()
      modifies this`read, this`overflow, ancestors`overflow
      ensures Valid() && (View(), ret) == ReadAccess(old(View()), n)
      ensures ret == 0 <==> old(read).At? && !old(overflow) && old(read).off + n <= Off(base) + size
      ensures old(overflow) ==> View() == old(View())
      ensures ret == 0 ==> old(read).At? && old(read).off + n <= mem.Length && data == mem[old(read).off..old(read).off + n]
      ensures overflow && !old(overflow) ==> forall a <- ancestors :: a.overflow
      ensures overflow == old(overflow) ==> forall a <- ancestors :: a.overflow == old(a.overflow)
    {
      NotOwnAncestor();
      data := [];
      if read.Null? { return -EACCES, data; }
      if overflow { return -ENOSPC, data; }
      if read.off + n > Off(base) + size {
        SetOverflow();
        return -ENOSPC, data;
      }
      data := mem[read.off..read.off + n];
      read := At(read.off + n);
      ret := 0;
    }

    method Write(data: seq<byte>) returns (ret: int)
      requires Valid()
      modifies this`write, this`overflow, ancestors`overflow, mem
      ensures Valid() && (View(), ret) == WriteAccess(old(View()), |data|)
      ensures ret == 0 <==> old(write).At? && !old(overflow) && old(write).off + |data| <= Off(base) + size
      ensures old(overflow) ==> View() == old(View()) && mem[..] == old(mem[..])
      ensures mem[..] == (if ret != 0 then old(mem[..])
                          else Splice(old(mem[..]), old(write).off, data))
      ensures overflow && !old(overflow) ==> forall a <- ancestors :: a.overflow
      ensures overflow == old(overflow) ==> forall a <- ancestors :: a.overflow == old(a.overflow)
    {
      NotOwnAncestor();
      if write.Null? { return -EACCES; }
      if overflow { return -ENOSPC; }
      if write.off + |data| > Off(base) + size {
        SetOverflow();
        return -ENOSPC;
      }
      CopyIn(mem, write.off, data);
      write := At(write.off + |data|);
      ret := 0;
    }

    method Skip(n: nat) returns (ret: int)
      requires Valid()
      modifies this`read, this`write, this`overflow, ancestors`overflow, mem
      ensures Valid() && (View(), ret) == Access(old(View()), n)
      ensures ret == 0 <==> !old(overflow) && old(View()).Fits(n)
      ensures old(overflow) ==> View() == old(View()) && mem[..] == old(mem[..])
      ensures mem[..] == (if ret != 0 || old(write).Null? then old(mem[..])
                          else Splice(old(mem[..]), old(write).off, seq(n, _ => 0)))
      ensures overflow && !old(overflow) ==> forall a <- ancestors :: a.overflow
      ensures overflow == old(overflow) ==> forall a <- ancestors :: a.overflow == old(a.overflow)
    {
      NotOwnAncestor();
      if overflow { return -ENOSPC; }
      var curr := if read.At? then read else write;
      if Off(curr) + n > Off(base) + size {
        SetOverflow();
        return -ENOSPC;
      }
      if read.At? {
        read := At(read.off + n);
      } else if write.At? {
        CopyIn(mem, write.off, seq(n, _ => 0));
        write := At(write.off + n);
      }
      ret := 0;
    }
  }

  /** memcpy into mem at offset at. */
  method CopyIn(mem: array<byte>, at: nat, data: seq<byte>)
    requires at + |data| <= mem.Length
    modifies mem
    ensures mem[..] == Splice(old(mem[..]), at, data)
  {
    forall k | 0 <= k < |data| {
      mem[at + k] := data[k];
    }
  }
}
