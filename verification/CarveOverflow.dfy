/** Which buffers learn of an overflow, over any run. setOverflow() follows pointers to objects, while what
  * a caller asks about is the buffer that now holds the contents another one was carved out of. */
module CarveOverflow {
  import opened Bytes
  import opened ByteStream
  import opened CarveTree

  predicate Origin(t: Tree, e: nat, d: nat) {
    e < |t.contents| && t.contents[e].origin == Some(d)
  }

  predicate Overflown(t: Tree, c: nat) {
    c < |t.contents| && t.contents[c].holder < |t.nodes| && t.nodes[t.contents[c].holder].region.overflow
  }

  /** Every object agrees with the contents it holds, and a stale parent pointer leads to an emptied object. */
  predicate Tracked(t: Tree) {
    && ParentsFirst(t.nodes) && t.contents != []
    && (forall c | 0 <= c < |t.contents| :: Housed(t, c) && Pointed(t, c))
    && (forall k | 0 <= k < |t.nodes| :: Holds(t, k))
  }

  predicate Housed(t: Tree, c: nat)
    requires c < |t.contents|
  {
    t.contents[c].holder < |t.nodes| && t.nodes[t.contents[c].holder].contents == Some(c)
  }

  predicate Holds(t: Tree, k: nat)
    requires k < |t.nodes|
  {
    match t.nodes[k].contents
    case None => t.nodes[k].parent.None? && t.nodes[k].region.size == 0
    case Some(c) => c < |t.contents| && t.contents[c].holder == k
  }

  predicate Pointed(t: Tree, c: nat)
    requires c < |t.contents| && Housed(t, c)
  {
    var parent := t.nodes[t.contents[c].holder].parent;
    match t.contents[c].origin
    case None => parent.None?
    case Some(d) =>
      && d < c && parent.Some? && parent.value < |t.nodes|
      && (parent.value == t.contents[d].holder || t.nodes[parent.value].contents.None?)
  }

  /** The parent pointer of the holder of c leads to the holder of what c was carved out of. */
  predicate Linked(t: Tree, c: nat) {
    && c < |t.contents| && t.contents[c].holder < |t.nodes|
    && t.contents[c].origin.Some? && t.contents[c].origin.value < |t.contents|
    && t.nodes[t.contents[c].holder].parent == Some(t.contents[t.contents[c].origin.value].holder)
  }

  /** x is c, or what c was carved out of, and so on, over links that all still lead to their holders. */
  predicate Reaches(t: Tree, c: nat, x: nat)
    decreases c
  {
    c == x || (Linked(t, c) && t.contents[c].origin.value < c && Reaches(t, t.contents[c].origin.value, x))
  }

  // --- One call of setOverflow().

  lemma {:induction false} MarkUpReaches(t: Tree, c: nat, x: nat)
    requires Tracked(t) && c < |t.contents| && x < |t.contents|
    ensures Housed(t, c) && Housed(t, x)
    ensures
      var m := MarkUp(t.nodes, t.contents[c].holder);
      m[t.contents[x].holder].region.overflow <==> Overflown(t, x) || Reaches(t, c, x)
    decreases c
  {
    var i := t.contents[c].holder;
    assert Housed(t, c) && Pointed(t, c) && Housed(t, x);
    var m := t.nodes[i := t.nodes[i].(region := t.nodes[i].region.(overflow := true))];
    var t' := t.(nodes := m);
    MarkedTracked(t, i);
    if t.nodes[i].parent.Some? {
      var d := t.contents[c].origin.value;
      if Linked(t, c) {
        MarkUpReaches(t', d, x);
        SameReach(t, t', d, x);
      } else {
        assert Holds(t, t.nodes[i].parent.value);
      }
    }
  }

  lemma MarkedTracked(t: Tree, i: nat)
    requires Tracked(t) && i < |t.nodes|
    ensures Tracked(t.(nodes := t.nodes[i := t.nodes[i].(region := t.nodes[i].region.(overflow := true))]))
  {
    var t' := t.(nodes := t.nodes[i := t.nodes[i].(region := t.nodes[i].region.(overflow := true))]);
    SameShapeTracked(t, t');
  }

  /** Two trees that differ in the state of their buffers only. */
  predicate SameShape(t: Tree, t': Tree) {
    && t'.contents == t.contents && |t'.nodes| == |t.nodes|
    && forall k | 0 <= k < |t.nodes| ::
         && t'.nodes[k].parent == t.nodes[k].parent && t'.nodes[k].contents == t.nodes[k].contents
         && t'.nodes[k].region.size == t.nodes[k].region.size
  }

  lemma SameShapeTracked(t: Tree, t': Tree)
    requires Tracked(t) && SameShape(t, t')
    ensures Tracked(t')
    ensures forall c :: Linked(t', c) <==> Linked(t, c)
  {
    forall k | 0 <= k < |t.nodes|
      ensures Holds(t', k)
    {
      assert Holds(t, k);
    }
    forall c | 0 <= c < |t.contents|
      ensures Housed(t', c) && Pointed(t', c)
    {
      assert Housed(t, c) && Pointed(t, c);
    }
  }

  lemma {:induction false} SameReach(t: Tree, t': Tree, c: nat, x: nat)
    requires SameShape(t, t')
    ensures Reaches(t', c, x) <==> Reaches(t, c, x)
    decreases c
  {
    if Linked(t, c) && t.contents[c].origin.value < c {
      SameReach(t, t', t.contents[c].origin.value, x);
    }
  }

  // --- One operation.

  /** The operation runs out of bounds on the buffer that holds c. */
  predicate Fails(t: Tree, op: Op, c: nat)
    requires ParentsFirst(t.nodes)
  {
    && op.i < |t.nodes| && t.nodes[op.i].contents == Some(c) && !t.nodes[op.i].region.overflow
    && !op.MoveFrom? && Outcome(t.nodes[op.i].region, op).overflow
  }

  /** The state the operation leaves its buffer in. */
  function Outcome(r: Region, op: Op): Region {
    match op
    case Write(_, n) => WriteAccess(r, n).0
    case Read(_, n) => ReadAccess(r, n).0
    case Skip(_, n) => Access(r, n).0
    case CarveOut(_, n) => Carve(r, n).0
    case MoveFrom(_) => NULL_REGION
  }

  /** It moves the buffer that holds what e was carved out of. */
  predicate MovesOriginOf(t: Tree, op: Op, e: nat) {
    && op.MoveFrom? && e < |t.contents|
    && t.contents[e].origin.Some? && t.contents[e].origin.value < |t.contents|
    && op.i == t.contents[t.contents[e].origin.value].holder
  }

  /** Only the marks and cursors change, and those of holders only by an overflow that reaches them. */
  lemma PutMarks(t: Tree, i: nat, r: Region, x: nat)
    requires Tracked(t) && i < |t.nodes| && x < |t.contents|
    requires r.size == t.nodes[i].region.size && (t.nodes[i].region.overflow ==> r.overflow)
    ensures
      var t' := t.(nodes := Put(t.nodes, i, r));
      && SameShape(t, t') && Tracked(t')
      && (Overflown(t', x) <==>
            || Overflown(t, x)
            || (r.overflow && !t.nodes[i].region.overflow && t.nodes[i].contents.Some?
                && Reaches(t, t.nodes[i].contents.value, x)))
  {
    var m := t.nodes[i := t.nodes[i].(region := r)];
    var t1, t' := t.(nodes := m), t.(nodes := Put(t.nodes, i, r));
    assert SameShape(t, t1) && SameShape(t, t');
    SameShapeTracked(t, t1);
    SameShapeTracked(t, t');
    assert Housed(t, x) && Holds(t, i);
    if r.overflow && !t.nodes[i].region.overflow {
      if t.nodes[i].contents.Some? {
        var c := t.nodes[i].contents.value;
        MarkUpReaches(t1, c, x);
        SameReach(t, t1, c, x);
      }
    }
  }

  lemma OutcomeKeeps(r: Region, op: Op)
    requires !op.MoveFrom?
    ensures Outcome(r, op).size == r.size && (r.overflow ==> Outcome(r, op).overflow)
  {
  }

  lemma AccessStep(t: Tree, op: Op, x: nat)
    requires Tracked(t) && op.i < |t.nodes| && !op.MoveFrom? && !op.CarveOut? && x < |t.contents|
    ensures SameShape(t, Apply(t, op)) && Tracked(Apply(t, op))
    ensures
      Overflown(Apply(t, op), x) <==>
      Overflown(t, x) || exists c :: Fails(t, op, c) && Reaches(t, c, x)
  {
    var r := Outcome(t.nodes[op.i].region, op);
    OutcomeKeeps(t.nodes[op.i].region, op);
    PutMarks(t, op.i, r, x);
    var t', put := Apply(t, op), t.(nodes := Put(t.nodes, op.i, r));
    assert t'.nodes == put.nodes && t'.contents == put.contents;
    SameShapeTracked(put, t');
    if t.nodes[op.i].contents.Some? {
      var c := t.nodes[op.i].contents.value;
      assert Fails(t, op, c) <==> r.overflow && !t.nodes[op.i].region.overflow;
    }
  }

  /** New contents are linked to what they were carved out of, and have not overflown. */
  lemma CarveNew(t: Tree, i: nat, n: nat)
    requires Tracked(t) && i < |t.nodes|
    ensures
      var t' := Apply(t, CarveOut(i, n));
      && Tracked(t') && |t'.contents| == |t.contents| + 1
      && (t'.contents[|t.contents|].origin.Some? ==> Linked(t', |t.contents|))
      && !Overflown(t', |t.contents|)
  {
    var (r, child) := Carve(t.nodes[i].region, n);
    var put, t' := t.(nodes := Put(t.nodes, i, r)), Apply(t, CarveOut(i, n));
    OutcomeKeeps(t.nodes[i].region, CarveOut(i, n));
    PutShape(t, i, r);
    assert Holds(t, i);
    hide Put;
    CarvedTracked(put, t', i, child);
  }

  lemma PutShape(t: Tree, i: nat, r: Region)
    requires Tracked(t) && i < |t.nodes| && r.size == t.nodes[i].region.size
    ensures
      var t' := t.(nodes := Put(t.nodes, i, r));
      SameShape(t, t') && Tracked(t')
  {
    var t' := t.(nodes := Put(t.nodes, i, r));
    assert SameShape(t, t');
    SameShapeTracked(t, t');
  }

  lemma CarveStep(t: Tree, i: nat, n: nat, x: nat)
    requires Tracked(t) && i < |t.nodes| && x < |t.contents|
    ensures
      var op := CarveOut(i, n);
      var t' := Apply(t, op);
      && |t.contents| <= |t'.contents| && t'.contents[x].origin == t.contents[x].origin
      && (Linked(t', x) <==> Linked(t, x))
      && (Overflown(t', x) <==> Overflown(t, x) || exists c :: Fails(t, op, c) && Reaches(t, c, x))
  {
    var op := CarveOut(i, n);
    var r := Carve(t.nodes[i].region, n).0;
    OutcomeKeeps(t.nodes[i].region, op);
    PutMarks(t, i, r, x);
    var put, t' := t.(nodes := Put(t.nodes, i, r)), Apply(t, op);
    assert t'.nodes[..|t.nodes|] == put.nodes && t'.contents[..|t.contents|] == t.contents;
    hide Put;
    assert Housed(t, x) && Housed(put, x) && Pointed(t, x);
    if t.contents[x].origin.Some? {
      assert Housed(t, t.contents[x].origin.value);
    }
    if t.nodes[i].contents.Some? {
      var c := t.nodes[i].contents.value;
      assert Fails(t, op, c) <==> r.overflow && !t.nodes[i].region.overflow;
    }
  }

  /** A new buffer is appended, with contents of its own. */
  lemma CarvedTracked(t: Tree, t': Tree, i: nat, child: Region)
    requires Tracked(t) && i < |t.nodes|
    requires child.base.At? ==> t.nodes[i].contents.Some?
    requires t'.nodes == t.nodes + [Node(child, if child.base.At? then Some(i) else None, Some(|t.contents|))]
    requires t'.contents == t.contents + [Contents(|t.nodes|, if child.base.At? then t.nodes[i].contents else None)]
    ensures Tracked(t')
    ensures t'.contents[|t.contents|].origin.Some? ==> Linked(t', |t.contents|)
  {
    var n, c' := |t.nodes|, |t.contents|;
    assert Holds(t, i);
    forall k | 0 <= k < n + 1
      ensures Holds(t', k)
    {
      assert k < n ==> Holds(t, k);
    }
    forall c | 0 <= c < c' + 1
      ensures Housed(t', c) && Pointed(t', c)
    {
      assert c < c' ==> Housed(t, c) && Pointed(t, c);
    }
  }

  lemma MoveStep(t: Tree, i: nat, x: nat)
    requires Tracked(t) && i < |t.nodes| && x < |t.contents|
    ensures
      var op := MoveFrom(i);
      var t' := Apply(t, op);
      && Tracked(t') && |t'.contents| == |t.contents|
      && t'.contents[x].origin == t.contents[x].origin
      && (Linked(t', x) <==> Linked(t, x) && !MovesOriginOf(t, op, x))
      && (Overflown(t', x) <==> Overflown(t, x))
  {
    var t' := Apply(t, MoveFrom(i));
    var n := |t.nodes|;
    assert Holds(t, i);
    forall k | 0 <= k < n + 1
      ensures Holds(t', k)
    {
      assert k < n ==> Holds(t, k);
    }
    forall c | 0 <= c < |t.contents|
      ensures Housed(t', c)
    {
      assert Housed(t, c);
    }
    forall c | 0 <= c < |t.contents|
      ensures Pointed(t', c)
      ensures Linked(t', c) <==> Linked(t, c) && !MovesOriginOf(t, MoveFrom(i), c)
    {
      MovePointed(t, i, c);
    }
    assert Housed(t, x);
  }

  lemma MovePointed(t: Tree, i: nat, c: nat)
    requires Tracked(t) && i < |t.nodes| && c < |t.contents|
    requires Housed(Apply(t, MoveFrom(i)), c)
    ensures
      var t' := Apply(t, MoveFrom(i));
      Pointed(t', c) && (Linked(t', c) <==> Linked(t, c) && !MovesOriginOf(t, MoveFrom(i), c))
  {
    assert Housed(t, c) && Pointed(t, c) && Holds(t, i);
    if t.contents[c].origin.Some? {
      assert Housed(t, t.contents[c].origin.value);
    }
  }

  // --- Runs.

  /** In the course of a run the holder of what e was carved out of is moved, after e was carved. */
  predicate Moved(t: Tree, ops: seq<Op>, e: nat)
    requires ParentsFirst(t.nodes)
    decreases |ops|
  {
    ops != [] && (MovesOriginOf(t, ops[0], e) || Moved(Apply(t, ops[0]), ops[1..], e))
  }

  /** The same, and it happens before e has overflown. */
  predicate MovedBeforeOverflow(t: Tree, ops: seq<Op>, e: nat)
    requires ParentsFirst(t.nodes)
    decreases |ops|
  {
    ops != [] &&
    ((MovesOriginOf(t, ops[0], e) && !Overflown(t, e)) || MovedBeforeOverflow(Apply(t, ops[0]), ops[1..], e))
  }

  lemma RootTracked(lo: nat, size: nat, writing: bool)
    ensures Tracked(Root(lo, size, writing)) && |Root(lo, size, writing).contents| == 1
  {
    var t := Root(lo, size, writing);
    assert Housed(t, 0) && Pointed(t, 0) && Holds(t, 0);
  }

  /** What one operation does to contents x that are there already. */
  lemma Step(t: Tree, op: Op, x: nat)
    requires Tracked(t) && x < |t.contents|
    ensures
      var t' := Apply(t, op);
      && Tracked(t') && |t.contents| <= |t'.contents| && t'.contents[x].origin == t.contents[x].origin
      && (Linked(t', x) <==> Linked(t, x) && !MovesOriginOf(t, op, x))
      && (Overflown(t', x) <==> Overflown(t, x) || exists c :: Fails(t, op, c) && Reaches(t, c, x))
  {
    assert Housed(t, x);
    if op.i < |t.nodes| {
      match op
      case MoveFrom(i) => MoveStep(t, i, x);
      case CarveOut(i, n) =>
        CarveNew(t, i, n);
        CarveStep(t, i, n, x);
      case _ =>
        AccessStep(t, op, x);
        SameShapeTracked(t, Apply(t, op));
    } else if t.contents[x].origin.Some? {
      assert Pointed(t, x) && Housed(t, t.contents[x].origin.value);
    }
  }

  lemma StepNew(t: Tree, op: Op, e: nat)
    requires Tracked(t) && |t.contents| <= e < |Apply(t, op).contents|
    ensures
      var t' := Apply(t, op);
      && Tracked(t') && !Overflown(t', e) && !MovesOriginOf(t, op, e)
      && (t'.contents[e].origin.Some? ==> Linked(t', e))
  {
    CarveNew(t, op.i, op.n);
  }

  /** After any run the link of e is intact iff the holder of what it was carved out of has not been moved
    * since; a move of e itself, or of anything else, does not matter. */
  lemma {:induction false} LinkedIff(t: Tree, ops: seq<Op>, e: nat)
    requires Tracked(t) && e < |Run(t, ops).contents| && Run(t, ops).contents[e].origin.Some?
    ensures Tracked(Run(t, ops)) && |t.contents| <= |Run(t, ops).contents|
    ensures Linked(Run(t, ops), e) <==> (e < |t.contents| ==> Linked(t, e)) && !Moved(t, ops, e)
    ensures e < |t.contents| ==> Run(t, ops).contents[e].origin == t.contents[e].origin
    decreases |ops|
  {
    if ops != [] {
      var t' := Apply(t, ops[0]);
      if e < |t.contents| {
        Step(t, ops[0], e);
      } else {
        Step(t, ops[0], 0);
        NotMovedYet(t, ops[0], e);
      }
      if |t.contents| <= e < |t'.contents| {
        StepNew(t, ops[0], e);
      }
      hide Tracked, Linked, Apply, MovesOriginOf;
      LinkedIff(t', ops[1..], e);
    }
  }

  lemma NotMovedYet(t: Tree, op: Op, e: nat)
    requires |t.contents| <= e
    ensures !MovesOriginOf(t, op, e)
  {
  }

  /** x is c or something c goes back to, and from c up to x no holder was moved after the next contents
    * down were carved out of it. */
  predicate Kept(t: Tree, ops: seq<Op>, c: nat, x: nat)
    requires ParentsFirst(t.nodes)
    decreases c
  {
    || c == x
    || (&& c < |Run(t, ops).contents| && Run(t, ops).contents[c].origin.Some?
        && Run(t, ops).contents[c].origin.value < c
        && !Moved(t, ops, c) && Kept(t, ops, Run(t, ops).contents[c].origin.value, x))
  }

  lemma {:induction false} ReachesIsKept(lo: nat, size: nat, writing: bool, ops: seq<Op>, c: nat, x: nat)
    requires c < |Run(Root(lo, size, writing), ops).contents|
    ensures Reaches(Run(Root(lo, size, writing), ops), c, x) <==> Kept(Root(lo, size, writing), ops, c, x)
    decreases c
  {
    var root := Root(lo, size, writing);
    var t := Run(root, ops);
    RootTracked(lo, size, writing);
    RunTracked(root, ops);
    assert Housed(t, c) && Pointed(t, c);
    if t.contents[c].origin.Some? {
      LinkedIff(root, ops, c);
      assert !Linked(root, 0);
      ReachesIsKept(lo, size, writing, ops, t.contents[c].origin.value, x);
    }
    hide Run, Moved;
  }

  lemma {:induction false} RunTracked(t: Tree, ops: seq<Op>)
    requires Tracked(t)
    ensures Tracked(Run(t, ops)) && |t.contents| <= |Run(t, ops).contents|
    decreases |ops|
  {
    if ops != [] {
      Step(t, ops[0], 0);
      hide Tracked, Apply;
      assert |t.contents| <= |Apply(t, ops[0]).contents|;
      RunTracked(Apply(t, ops[0]), ops[1..]);
    }
  }

  /** When an operation of any run overflows a buffer, the mark shows in the buffer that now holds x iff x was
    * marked before, or the overflowing contents go back to x and on the way no holder was moved between
    * carving and overflow. */
  lemma OverflowShowsIff(lo: nat, size: nat, writing: bool, ops: seq<Op>, op: Op, c: nat, x: nat)
    requires x < |Run(Root(lo, size, writing), ops).contents|
    requires Fails(Run(Root(lo, size, writing), ops), op, c)
    ensures
      var t := Run(Root(lo, size, writing), ops);
      Overflown(Apply(t, op), x) <==> Overflown(t, x) || Kept(Root(lo, size, writing), ops, c, x)
  {
    var root := Root(lo, size, writing);
    var t := Run(root, ops);
    RootTracked(lo, size, writing);
    RunTracked(root, ops);
    Step(t, op, x);
    assert Holds(t, op.i);
    ReachesIsKept(lo, size, writing, ops, c, x);
    hide Run, Apply, Kept, Reaches, Overflown;
    assert forall c' | Fails(t, op, c') :: c' == c;
  }

  /** Some failing operation of the run marks x. */
  ghost predicate Marks(t: Tree, ops: seq<Op>, k: nat, x: nat)
    requires ParentsFirst(t.nodes) && k < |ops|
  {
    exists c: nat :: Fails(Run(t, ops[..k]), ops[k], c) && Kept(t, ops[..k], c, x)
  }

  lemma {:induction false} RunSnoc(t: Tree, ops: seq<Op>, op: Op)
    requires ParentsFirst(t.nodes)
    ensures Run(t, ops + [op]) == Apply(Run(t, ops), op)
    decreases |ops|
  {
    if ops == [] {
      assert [op][1..] == [];
    } else {
      assert (ops + [op])[1..] == ops[1..] + [op];
      hide Apply;
      RunSnoc(Apply(t, ops[0]), ops[1..], op);
    }
  }

  lemma {:induction false} KeptBelow(t: Tree, ops: seq<Op>, c: nat, x: nat)
    requires ParentsFirst(t.nodes) && Kept(t, ops, c, x)
    ensures x <= c
    decreases c
  {
    if c != x {
      KeptBelow(t, ops, Run(t, ops).contents[c].origin.value, x);
    }
  }

  /** The last operation of a run. */
  lemma LastStep(lo: nat, size: nat, writing: bool, ops: seq<Op>, x: nat)
    requires ops != []
    ensures
      var root, n := Root(lo, size, writing), |ops| - 1;
      Overflown(Run(root, ops), x) <==> Overflown(Run(root, ops[..n]), x) || Marks(root, ops, n, x)
  {
    var root, n := Root(lo, size, writing), |ops| - 1;
    var t := Run(root, ops[..n]);
    assert ops == ops[..n] + [ops[n]];
    RunSnoc(root, ops[..n], ops[n]);
    RootTracked(lo, size, writing);
    RunTracked(root, ops[..n]);
    forall c: nat | Fails(t, ops[n], c)
      ensures Reaches(t, c, x) <==> Kept(root, ops[..n], c, x)
      ensures c < |t.contents| && (Kept(root, ops[..n], c, x) ==> x <= c)
    {
      assert Holds(t, ops[n].i);
      ReachesIsKept(lo, size, writing, ops[..n], c, x);
      if Kept(root, ops[..n], c, x) {
        KeptBelow(root, ops[..n], c, x);
      }
    }
    if x < |t.contents| {
      Step(t, ops[n], x);
    } else if x < |Apply(t, ops[n]).contents| {
      StepNew(t, ops[n], x);
    }
    hide Run, Apply, Kept, Reaches, Fails;
  }

  /** After any run a buffer is marked iff some operation of the run overflowed contents that go back to those it
    * holds, with no holder on the way moved in between. */
  lemma {:induction false} OverflownIff(lo: nat, size: nat, writing: bool, ops: seq<Op>, x: nat)
    ensures
      Overflown(Run(Root(lo, size, writing), ops), x) <==>
      exists k: nat :: k < |ops| && Marks(Root(lo, size, writing), ops, k, x)
    decreases |ops|
  {
    var root := Root(lo, size, writing);
    if ops != [] {
      var n := |ops| - 1;
      LastStep(lo, size, writing, ops, x);
      OverflownIff(lo, size, writing, ops[..n], x);
      forall k: nat | k < n
        ensures Marks(root, ops, k, x) <==> Marks(root, ops[..n], k, x)
      {
        assert ops[..n][..k] == ops[..k];
      }
      hide Run, Overflown, Marks;
    }
  }

  lemma {:induction false} ReachesFurther(t: Tree, c: nat, e: nat)
    requires Reaches(t, c, e) && Linked(t, e) && t.contents[e].origin.value < e
    ensures Reaches(t, c, t.contents[e].origin.value)
    decreases c
  {
    if c != e {
      ReachesFurther(t, t.contents[c].origin.value, e);
    }
  }

  /** The mark of e is also on what it was carved out of, or its link is good in case it overflows later. */
  predicate Shown(t: Tree, e: nat) {
    e < |t.contents| && t.contents[e].origin.Some? ==>
      if Overflown(t, e) then Overflown(t, t.contents[e].origin.value) else Linked(t, e)
  }

  lemma StepShown(t: Tree, op: Op, e: nat)
    requires Tracked(t) && Shown(t, e)
    requires !(MovesOriginOf(t, op, e) && !Overflown(t, e))
    ensures Shown(Apply(t, op), e)
  {
    if e < |t.contents| {
      Step(t, op, e);
      assert Housed(t, e) && Pointed(t, e);
      if t.contents[e].origin.Some? {
        var d := t.contents[e].origin.value;
        Step(t, op, d);
        if c :| Fails(t, op, c) && Reaches(t, c, e) && Linked(t, e) {
          ReachesFurther(t, c, e);
        }
        hide Apply, Tracked, MovesOriginOf;
      }
    } else if e < |Apply(t, op).contents| {
      StepNew(t, op, e);
      hide Apply, Tracked, MovesOriginOf;
    }
  }

  lemma {:induction false} RunShown(t: Tree, ops: seq<Op>, e: nat)
    requires Tracked(t) && Shown(t, e) && !MovedBeforeOverflow(t, ops, e)
    ensures Shown(Run(t, ops), e)
    decreases |ops|
  {
    if ops != [] {
      StepShown(t, ops[0], e);
      Step(t, ops[0], 0);
      hide Shown, Tracked, Apply, MovesOriginOf;
      RunShown(Apply(t, ops[0]), ops[1..], e);
    }
  }

  /** At the end of any run: if e has overflown, so has what it was carved out of, unless the holder of that was
    * moved after the carving and before e overflowed. Moving it later does no harm. */
  lemma OverflowReachesOrigin(lo: nat, size: nat, writing: bool, ops: seq<Op>, e: nat, d: nat)
    requires
      var t := Run(Root(lo, size, writing), ops);
      Origin(t, e, d) && Overflown(t, e)
    requires !MovedBeforeOverflow(Root(lo, size, writing), ops, e)
    ensures Overflown(Run(Root(lo, size, writing), ops), d)
  {
    RootTracked(lo, size, writing);
    RunShown(Root(lo, size, writing), ops, e);
  }

  // --- An overflow is final.

  /** An operation through contents that have overflown touches nothing and carves nothing out. */
  lemma StepAfterOverflow(t: Tree, op: Op, c: nat)
    requires Tracked(t) && Overflown(t, c)
    ensures
      var t' := Apply(t, op);
      && Tracked(t') && Overflown(t', c) && |t.contents| <= |t'.contents|
      && t.touched <= t'.touched
      && (forall k | |t.touched| <= k < |t'.touched| :: t'.touched[k].contents != Some(c))
      && (forall e | |t.contents| <= e < |t'.contents| :: t'.contents[e].origin != Some(c))
      && (forall e | 0 <= e < |t.contents| :: t'.contents[e].origin == t.contents[e].origin)
  {
    Step(t, op, c);
    assert Housed(t, c);
    if op.i < |t.nodes| {
      assert Holds(t, op.i);
      if t.nodes[op.i].contents == Some(c) && !op.MoveFrom? {
        OverflowIsFinal(t.nodes[op.i].region, op.n);
      }
    }
    forall e | 0 <= e < |t.contents|
      ensures Apply(t, op).contents[e].origin == t.contents[e].origin
    {
      Step(t, op, e);
    }
    hide Put, MarkUp, Tracked;
  }

  lemma {:induction false} OverflowStays(t: Tree, ops: seq<Op>, c: nat)
    requires Tracked(t) && Overflown(t, c)
    ensures
      var t' := Run(t, ops);
      && Overflown(t', c) && |t.contents| <= |t'.contents| && t.touched <= t'.touched
      && (forall k | |t.touched| <= k < |t'.touched| :: t'.touched[k].contents != Some(c))
      && (forall e | |t.contents| <= e < |t'.contents| :: t'.contents[e].origin != Some(c))
      && (forall e | 0 <= e < |t.contents| :: t'.contents[e].origin == t.contents[e].origin)
    decreases |ops|
  {
    if ops != [] {
      StepAfterOverflow(t, ops[0], c);
      hide Tracked, Apply, Overflown;
      OverflowStays(Apply(t, ops[0]), ops[1..], c);
    }
  }

  /** In every run: once contents have overflown, nothing is read, written, zeroed or carved out through whichever
    * buffer holds them. */
  lemma OverflowIsForGood(lo: nat, size: nat, writing: bool, before: seq<Op>, rest: seq<Op>, c: nat)
    requires Overflown(Run(Root(lo, size, writing), before), c)
    ensures
      var t := Run(Root(lo, size, writing), before);
      var t' := Run(t, rest);
      && Overflown(t', c) && |t.contents| <= |t'.contents| && t.touched <= t'.touched
      && (forall k | |t.touched| <= k < |t'.touched| :: t'.touched[k].contents != Some(c))
      && (forall e | |t.contents| <= e < |t'.contents| :: t'.contents[e].origin != Some(c))
  {
    RootTracked(lo, size, writing);
    RunTracked(Root(lo, size, writing), before);
    hide Run, Tracked, Overflown;
    OverflowStays(Run(Root(lo, size, writing), before), rest, c);
  }

  /** The smallest case: the parent is moved after the carving, then the child overflows. The emptied object is
    * marked, and the buffer that took over its contents is not. */
  lemma MovedParentMissesOverflow()
    ensures
      var ops := [CarveOut(0, 1), MoveFrom(0), Write(1, 2)];
      var t := Run(Root(0, 4, true), ops);
      && Origin(t, 1, 0) && Overflown(t, 1) && !Overflown(t, 0) && t.nodes[0].region.overflow
      && MovedBeforeOverflow(Root(0, 4, true), ops, 1)
  {
    var t0, ops := Root(0, 4, true), [CarveOut(0, 1), MoveFrom(0), Write(1, 2)];
    var t1 := Apply(t0, ops[0]);
    assert t1.nodes == [Node(Region(At(0), 4, false, Null, At(1)), None, Some(0)),
                        Node(Region(At(0), 1, false, Null, At(0)), Some(0), Some(1))];
    assert t1.contents == [Contents(0, None), Contents(1, Some(0))];
    var t2 := Apply(t1, ops[1]);
    assert t2.nodes == [EMPTIED, t1.nodes[1], t1.nodes[0]];
    var t3 := Apply(t2, ops[2]);
    assert ops[1..][0] == ops[1] && ops[1..][1..] == [ops[2]];
    assert Run(t0, ops) == Run(t1, ops[1..]) == Run(t2, [ops[2]]) == Run(t3, []) == t3;
    assert MovesOriginOf(t1, ops[1], 1) && !Overflown(t1, 1);
    assert MovedBeforeOverflow(t1, ops[1..], 1);
  }

  /** The other order: the child overflows first, and the moved parent takes the mark with it. */
  lemma MovedAfterwardsKeepsOverflow()
    ensures
      var t := Run(Root(0, 4, true), [CarveOut(0, 1), Write(1, 2), MoveFrom(0)]);
      Origin(t, 1, 0) && Overflown(t, 1) && Overflown(t, 0) && !t.nodes[0].region.overflow
  {
    var t0, ops := Root(0, 4, true), [CarveOut(0, 1), Write(1, 2), MoveFrom(0)];
    var t1 := Apply(t0, ops[0]);
    assert t1.nodes == [Node(Region(At(0), 4, false, Null, At(1)), None, Some(0)),
                        Node(Region(At(0), 1, false, Null, At(0)), Some(0), Some(1))];
    var t2 := Apply(t1, ops[1]);
    assert t2.nodes == [Node(Region(At(0), 4, true, Null, At(1)), None, Some(0)),
                        Node(Region(At(0), 1, true, Null, At(0)), Some(0), Some(1))];
    var t3 := Apply(t2, ops[2]);
    assert ops[1..][0] == ops[1] && ops[1..][1..] == [ops[2]];
    assert Run(t0, ops) == Run(t1, ops[1..]) == Run(t2, [ops[2]]) == Run(t3, []) == t3;
  }
}
