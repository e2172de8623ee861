/** Any run of accesses, carve-outs and moves on the buffers that stem from one root.
    The cursor rules are those the ByteStreamBuffer methods are proved against. */
module CarveTree {
  import opened Bytes
  import opened ByteStream

  /** An object with the number of the contents it holds; a buffer that was moved from holds none. */
  datatype Node = Node(region: Region, parent: Option<nat>, contents: Option<nat>)
  {
    function Lo(): nat {
      Off(region.Curr())
    }

    /** x may still be reached through this buffer. */
    predicate Live(x: nat) {
      Lo() <= x < region.End()
    }
  }

  /** Bytes lo..hi were read, written or zeroed through a buffer on base..end that held these contents. */
  datatype Touch = Touch(lo: nat, hi: nat, base: nat, end: nat, contents: Option<nat>)

  /** Contents keep their number when they are moved to another object. They know their holder and what
    * they were carved out of. */
  datatype Contents = Contents(holder: nat, origin: Option<nat>)

  datatype Tree = Tree(nodes: seq<Node>, touched: seq<Touch>, contents: seq<Contents>)

  datatype Op =
    | Write(i: nat, n: nat)
    | Read(i: nat, n: nat)
    | Skip(i: nat, n: nat)
    | CarveOut(i: nat, n: nat)
    | MoveFrom(i: nat)

  predicate ParentsFirst(nodes: seq<Node>) {
    forall k | 0 <= k < |nodes| :: nodes[k].parent.Some? ==> nodes[k].parent.value < k
  }

  /** setOverflow(): marks node i and then every buffer up its parent chain. */
  function MarkUp(nodes: seq<Node>, i: nat): (m: seq<Node>)
    requires i < |nodes| && ParentsFirst(nodes)
    ensures |m| == |nodes|
    ensures forall k | 0 <= k < |m| :: m[k] == nodes[k] || m[k] == nodes[k].(region := nodes[k].region.(overflow := true))
    ensures m[i].region.overflow
    decreases i
  {
    var m := nodes[i := nodes[i].(region := nodes[i].region.(overflow := true))];
    if nodes[i].parent.None? then m else MarkUp(m, nodes[i].parent.value)
  }

  function Put(nodes: seq<Node>, i: nat, r: Region): (m: seq<Node>)
    requires i < |nodes| && ParentsFirst(nodes)
    ensures |m| == |nodes| && ParentsFirst(m)
  {
    var m := nodes[i := nodes[i].(region := r)];
    if r.overflow && !nodes[i].region.overflow then MarkUp(m, i) else m
  }

  function Consume(t: Tree, i: nat, n: nat, outcome: (Region, int)): Tree
    requires i < |t.nodes| && ParentsFirst(t.nodes)
  {
    var r := t.nodes[i].region;
    t.(nodes := Put(t.nodes, i, outcome.0),
       touched := if outcome.1 != 0 then t.touched
                  else t.touched + [Touch(Off(r.Curr()), Off(r.Curr()) + n, Off(r.base), r.End(), t.nodes[i].contents)])
  }

  function Apply(t: Tree, op: Op): (t': Tree)
    requires ParentsFirst(t.nodes)
    ensures ParentsFirst(t'.nodes)
  {
    if op.i >= |t.nodes| then t
    else
      var node := t.nodes[op.i];
      match op
      case Write(i, n) => Consume(t, i, n, WriteAccess(node.region, n))
      case Read(i, n) => Consume(t, i, n, ReadAccess(node.region, n))
      case Skip(i, n) => Consume(t, i, n, Access(node.region, n))
      case CarveOut(i, n) =>
        var (r, child) := Carve(node.region, n);
        var carved := child.base.At?;
        t.(nodes := Put(t.nodes, i, r) + [Node(child, if carved then Some(i) else None, Some(|t.contents|))],
           contents := t.contents + [Contents(|t.nodes|, if carved then node.contents else None)])
      case MoveFrom(i) =>
        t.(nodes := t.nodes[i := EMPTIED] + [node], contents := Rehoused(t.contents, node.contents, |t.nodes|))
  }

  const EMPTIED := Node(NULL_REGION, None, None)

  /** The contents that are moved, if any, have another holder. */
  function Rehoused(contents: seq<Contents>, moved: Option<nat>, holder: nat): seq<Contents> {
    if moved.Some? && moved.value < |contents|
    then contents[moved.value := contents[moved.value].(holder := holder)] else contents
  }

  function Run(t: Tree, ops: seq<Op>): (t': Tree)
    requires ParentsFirst(t.nodes)
    ensures ParentsFirst(t'.nodes)
    decreases |ops|
  {
    if ops == [] then t else Run(Apply(t, ops[0]), ops[1..])
  }

  /** One root buffer on bytes lo..lo+size, for reading or for writing. */
  function Root(lo: nat, size: nat, writing: bool): (t: Tree)
    ensures ParentsFirst(t.nodes)
  {
    var r := Region(At(lo), size, false, if writing then Null else At(lo), if writing then At(lo) else Null);
    Tree([Node(r, None, Some(0))], [], [Contents(0, None)])
  }

  // --- Conservation: who holds byte x.

  function One(b: bool): nat {
    if b then 1 else 0
  }

  function LiveCount(nodes: seq<Node>, x: nat): nat {
    if nodes == [] then 0 else LiveCount(nodes[..|nodes| - 1], x) + One(nodes[|nodes| - 1].Live(x))
  }

  function TouchCount(touched: seq<Touch>, x: nat): nat {
    if touched == [] then 0
    else
      var last := touched[|touched| - 1];
      TouchCount(touched[..|touched| - 1], x) + One(last.lo <= x < last.hi)
  }

  lemma {:induction false} LiveCountUpdate(nodes: seq<Node>, i: nat, node: Node, x: nat)
    requires i < |nodes|
    ensures LiveCount(nodes[i := node], x) == LiveCount(nodes, x) - One(nodes[i].Live(x)) + One(node.Live(x))
  {
    var k := |nodes| - 1;
    if i < k {
      assert nodes[i := node][..k] == nodes[..k][i := node];
      LiveCountUpdate(nodes[..k], i, node, x);
    } else {
      assert nodes[i := node][..k] == nodes[..k];
    }
  }

  lemma {:induction false} LiveCountSame(a: seq<Node>, b: seq<Node>, x: nat)
    requires |a| == |b| && forall k | 0 <= k < |a| :: a[k].Live(x) == b[k].Live(x)
    ensures LiveCount(a, x) == LiveCount(b, x)
  {
    if a != [] {
      LiveCountSame(a[..|a| - 1], b[..|b| - 1], x);
    }
  }

  lemma LiveCountPut(nodes: seq<Node>, i: nat, r: Region, x: nat)
    requires i < |nodes| && ParentsFirst(nodes)
    ensures LiveCount(Put(nodes, i, r), x)
         == LiveCount(nodes, x) - One(nodes[i].Live(x)) + One(nodes[i].(region := r).Live(x))
  {
    var m := nodes[i := nodes[i].(region := r)];
    LiveCountUpdate(nodes, i, m[i], x);
    LiveCountSame(Put(nodes, i, r), m, x);
  }

  /** Every buffer is null or holds a cursor inside its own bounds, and has touched nothing outside them. */
  predicate InBounds(t: Tree, limit: nat) {
    && RegionsOk(t.nodes, limit)
    && forall c <- t.touched :: c.base <= c.lo <= c.hi <= c.end <= limit
  }

  predicate RegionsOk(nodes: seq<Node>, limit: nat) {
    forall k | 0 <= k < |nodes| :: nodes[k].region.Ok(limit)
  }

  lemma PutOk(nodes: seq<Node>, i: nat, r: Region, limit: nat)
    requires i < |nodes| && ParentsFirst(nodes) && RegionsOk(nodes, limit) && r.Ok(limit)
    ensures RegionsOk(Put(nodes, i, r), limit)
  {
    hide MarkUp;
    var m := nodes[i := nodes[i].(region := r)];
    assert RegionsOk(m, limit);
  }

  function Held(t: Tree, x: nat): nat {
    LiveCount(t.nodes, x) + TouchCount(t.touched, x)
  }

  lemma TouchCountAppend(touched: seq<Touch>, c: Touch, x: nat)
    ensures TouchCount(touched + [c], x) == TouchCount(touched, x) + One(c.lo <= x < c.hi)
  {
    assert (touched + [c])[..|touched|] == touched;
  }

  lemma AccessOk(r: Region, n: nat, outcome: (Region, int), limit: nat)
    requires r.Ok(limit)
    requires outcome == Access(r, n) || (outcome.0 == r && outcome.1 != 0)
    ensures outcome.0.Ok(limit) && outcome.0.End() == r.End() <= limit
    ensures Off(outcome.0.Curr()) == Off(r.Curr()) + (if outcome.1 == 0 then n else 0) <= r.End()
    ensures Off(r.base) <= Off(r.Curr())
  {
  }

  /** A read, write or skip hands bytes from the buffer's live region over to the touched ones. */
  lemma ConsumeConserves(t: Tree, i: nat, n: nat, outcome: (Region, int), limit: nat, x: nat)
    requires ParentsFirst(t.nodes) && InBounds(t, limit) && i < |t.nodes|
    requires var r := t.nodes[i].region; outcome == Access(r, n) || (outcome.0 == r && outcome.1 != 0)
    ensures InBounds(Consume(t, i, n, outcome), limit)
    ensures Held(Consume(t, i, n, outcome), x) == Held(t, x)
  {
    var r, r' := t.nodes[i].region, outcome.0;
    AccessOk(r, n, outcome, limit);
    hide Put, LiveCount, TouchCount, Access, Region.Ok, Region.Curr, Region.End;
    PutOk(t.nodes, i, r', limit);
    LiveCountPut(t.nodes, i, r', x);
    TouchCountAppend(t.touched, Touch(Off(r.Curr()), Off(r.Curr()) + n, Off(r.base), r.End(), t.nodes[i].contents), x);
  }

  /** A carve-out splits the live region between parent and child. */
  lemma CarveConserves(t: Tree, i: nat, n: nat, limit: nat, x: nat)
    requires ParentsFirst(t.nodes) && InBounds(t, limit) && i < |t.nodes|
    ensures InBounds(Apply(t, CarveOut(i, n)), limit)
    ensures Held(Apply(t, CarveOut(i, n)), x) == Held(t, x)
  {
    hide Put;
    var r, t' := t.nodes[i].region, Apply(t, CarveOut(i, n));
    var (r', child) := Carve(r, n);
    assert r.Ok(limit) && r'.Ok(limit) && child.Ok(limit);
    PutOk(t.nodes, i, r', limit);
    LiveCountPut(t.nodes, i, r', x);
    assert t'.nodes[..|t.nodes|] == Put(t.nodes, i, r');
  }

  lemma MoveConserves(t: Tree, i: nat, limit: nat, x: nat)
    requires ParentsFirst(t.nodes) && InBounds(t, limit) && i < |t.nodes|
    ensures InBounds(Apply(t, MoveFrom(i)), limit)
    ensures Held(Apply(t, MoveFrom(i)), x) == Held(t, x)
  {
    var t' := Apply(t, MoveFrom(i));
    assert t'.nodes[..|t.nodes|] == t.nodes[i := EMPTIED];
    LiveCountUpdate(t.nodes, i, EMPTIED, x);
  }

  lemma ApplyConserves(t: Tree, op: Op, limit: nat, x: nat)
    requires ParentsFirst(t.nodes) && InBounds(t, limit)
    ensures InBounds(Apply(t, op), limit)
    ensures Held(Apply(t, op), x) == Held(t, x)
  {
    if op.i < |t.nodes| {
      hide Consume, Held;
      var r := t.nodes[op.i].region;
      match op
      case MoveFrom(i) => MoveConserves(t, i, limit, x);
      case CarveOut(i, n) => CarveConserves(t, i, n, limit, x);
      case Write(i, n) => ConsumeConserves(t, i, n, WriteAccess(r, n), limit, x);
      case Read(i, n) => ConsumeConserves(t, i, n, ReadAccess(r, n), limit, x);
      case Skip(i, n) => ConsumeConserves(t, i, n, Access(r, n), limit, x);
    }
  }

  lemma {:induction false} RunConserves(t: Tree, ops: seq<Op>, limit: nat, x: nat)
    requires ParentsFirst(t.nodes) && InBounds(t, limit)
    ensures InBounds(Run(t, ops), limit)
    ensures Held(Run(t, ops), x) == Held(t, x)
    decreases |ops|
  {
    if ops != [] {
      ApplyConserves(t, ops[0], limit, x);
      RunConserves(Apply(t, ops[0]), ops[1..], limit, x);
    }
  }

  /** After any run, each byte of the root area has been touched exactly once or is still reachable through
      exactly one buffer, bytes outside it are out of reach, and all cursors are in bounds. */
  lemma WriteOnce(lo: nat, size: nat, writing: bool, ops: seq<Op>, x: nat)
    ensures var t := Run(Root(lo, size, writing), ops);
            && InBounds(t, lo + size)
            && Held(t, x) == One(lo <= x < lo + size)
  {
    var root := Root(lo, size, writing);
    assert root.nodes[..0] == [] && LiveCount(root.nodes, x) == One(root.nodes[0].Live(x));
    RunConserves(root, ops, lo + size, x);
  }

  lemma {:induction false} LiveCountAtLeast(nodes: seq<Node>, i: nat, x: nat)
    requires i < |nodes| && nodes[i].Live(x)
    ensures LiveCount(nodes, x) >= 1
  {
    if i < |nodes| - 1 {
      LiveCountAtLeast(nodes[..|nodes| - 1], i, x);
    }
  }

  lemma {:induction false} LiveCountTwo(nodes: seq<Node>, i: nat, j: nat, x: nat)
    requires i < j < |nodes| && nodes[i].Live(x) && nodes[j].Live(x)
    ensures LiveCount(nodes, x) >= 2
  {
    var k := |nodes| - 1;
    if j < k {
      LiveCountTwo(nodes[..k], i, j, x);
    } else {
      LiveCountAtLeast(nodes[..k], i, x);
    }
  }

  /** In terms of the buffers themselves: no two of them can ever reach the same byte. */
  lemma LiveRegionsDisjoint(lo: nat, size: nat, writing: bool, ops: seq<Op>, i: nat, j: nat, x: nat)
    requires i < j < |Run(Root(lo, size, writing), ops).nodes|
    ensures var nodes := Run(Root(lo, size, writing), ops).nodes; !(nodes[i].Live(x) && nodes[j].Live(x))
  {
    var nodes := Run(Root(lo, size, writing), ops).nodes;
    WriteOnce(lo, size, writing, ops, x);
    if nodes[i].Live(x) && nodes[j].Live(x) {
      LiveCountTwo(nodes, i, j, x);
    }
  }
}
