/** When each call on a camera succeeds and what it then does, and which calls undo each other. */
module CameraCalls {
  import opened Bytes
  import opened CameraStates

  /** Streams, allocator and what the pipeline holds are the same. */
  predicate SameBuffers(c: Camera, after: Camera) {
    after.active == c.active && after.allocator == c.allocator && after.held == c.held && after.twice == c.twice
  }

  lemma AcquireOutcome(c: Camera, lock: bool)
    ensures
      var (after, ret) := Do(c, Acquire(lock));
      && (ret == 0 <==> !c.disconnected && c.state == Available && lock)
      && (ret != 0 ==> after == c && ret == if c.disconnected then -ENODEV else -EBUSY)
      && (ret == 0 ==> after == c.(state := Acquired))
  {
  }

  lemma ReleaseOutcome(c: Camera)
    ensures
      var (after, ret) := Do(c, Release);
      && (ret == 0 <==> c.state != Running && c.allocator.None?)
      && (ret != 0 ==> after == c && ret == -EBUSY)
      && (ret == 0 ==> after == c.(state := Available))
  {
  }

  lemma ConfigureOutcome(c: Camera, valid: bool, pipeline: int, streams: set<Stream>)
    ensures
      var (after, ret) := Do(c, Configure(valid, pipeline, streams));
      && (ret == 0 <==>
            && !c.disconnected && (c.state == Acquired || c.state == Configured)
            && (c.allocator.Some? ==> c.allocator.value == map[]) && valid && pipeline == 0)
      && (ret != 0 ==> after == c)
      && (ret == 0 ==> after == c.(state := Configured, active := streams))
  {
  }

  lemma StartOutcome(c: Camera, pipeline: int)
    ensures
      var (after, ret) := Do(c, Start(pipeline));
      && (ret == 0 <==> !c.disconnected && c.state == Configured && pipeline == 0)
      && after.active == c.active && after.allocator == c.allocator && after.disconnected == c.disconnected
      && after.state == (if ret == 0 then Running else c.state)
      && (c.disconnected || c.state != Configured ==>
            after == c && ret == if c.disconnected then -ENODEV else -EACCES)
      && (!c.disconnected && c.state == Configured ==>
            && ret == pipeline
            && forall s ::
                 if s in c.active && !c.Backed(s) then s in after.held && after.held[s] == Imported
                 else (s in after.held <==> s in c.held) && (s in c.held ==> after.held[s] == c.held[s]))
  {
  }

  lemma StopOutcome(c: Camera)
    ensures
      var (after, ret) := Do(c, Stop);
      && (ret == 0 <==> !c.disconnected && c.state == Running)
      && (ret != 0 ==> after == c && ret == if c.disconnected then -ENODEV else -EACCES)
      && (ret == 0 ==>
            && after.state == Configured && after.active == c.active && after.allocator == c.allocator
            && forall s ::
                 if s in c.active && !c.Backed(s) then s !in after.held
                 else (s in after.held <==> s in c.held) && (s in c.held ==> after.held[s] == c.held[s]))
  {
  }

  lemma AllocateOutcome(c: Camera, s: Stream, pipeline: int)
    requires c.allocator.Some?
    ensures
      var (after, ret) := Do(c, Allocate(s, pipeline));
      var served := c.allocator.value;
      && (ret > 0 <==>
            s !in served && !c.disconnected && c.state == Configured && s in c.active && pipeline > 0)
      && after.state == c.state && after.active == c.active && after.disconnected == c.disconnected
      && after.allocator == (if s in served then c.allocator else Some(served[s := if ret > 0 then ret else 0]))
      && (ret > 0 ==> ret == pipeline && after.held == c.held[s := Exported])
      && (ret <= 0 ==> after.held == c.held)
      && (s in served ==> ret == -EBUSY)
  {
  }

  lemma FreeOutcome(c: Camera, s: Stream)
    requires c.allocator.Some?
    ensures
      var (after, ret) := Do(c, Free(s));
      && (ret == 0 <==> s in c.allocator.value && c.state == Configured)
      && (ret != 0 ==> after == c && ret == if s !in c.allocator.value then -EINVAL else -EACCES)
      && (ret == 0 ==>
            after == c.(allocator := Some(c.allocator.value - {s}), held := c.held - {s}))
  {
  }

  lemma DisconnectOutcome(c: Camera)
    ensures
      var after := Do(c, Disconnect).0;
      && after.disconnected && after.state == (if c.state == Running then Configured else c.state) && SameBuffers(c, after)
  {
  }

  /** Deleting the allocator frees what it serves, except while the camera is not configured. */
  lemma DeleteOutcome(c: Camera)
    ensures
      var after := Do(c, DeleteAllocator).0;
      && after.allocator.None? && after.state == c.state && after.active == c.active
      && after.held == if c.allocator.Some? && c.state == Configured then c.held - c.allocator.value.Keys else c.held
  {
  }

  // --- What undoes what.

  /** A session of streaming leaves a camera whose buffers are balanced as it was. */
  lemma StartThenStop(c: Camera)
    requires Safe(c) && Balanced(c) && !c.disconnected && c.state == Configured
    ensures Do(c, Start(0)).1 == 0 && Do(Do(c, Start(0)).0, Stop) == (c, 0)
  {
    var running := Do(c, Start(0)).0;
    assert forall s <- Unbacked(c) :: s !in c.held;
    assert !running.twice;
    assert forall s :: running.Backed(s) <==> c.Backed(s);
    assert Unbacked(running) == Unbacked(c);
    assert running.held - Unbacked(c) == c.held;
  }

  lemma AcquireThenRelease(c: Camera)
    requires !c.disconnected && c.state == Available && c.allocator.None?
    ensures Do(Do(c, Acquire(true)).0, Release) == (c, 0)
  {
  }

  /** Allocating buffers for a stream that has none and freeing them changes nothing. */
  lemma AllocateThenFree(c: Camera, s: Stream, n: int)
    requires Balanced(c) && !c.disconnected && c.state == Configured && s in c.active && n > 0
    requires c.allocator.Some? && s !in c.allocator.value
    ensures Do(c, Allocate(s, n)).1 == n && Do(Do(c, Allocate(s, n)).0, Free(s)) == (c, 0)
  {
    assert !c.Backed(s) && s !in c.held;
    var served := Do(c, Allocate(s, n)).0;
    assert served.held == c.held[s := Exported];
    assert c.allocator.value[s := n] - {s} == c.allocator.value && c.held[s := Exported] - {s} == c.held;
  }
}
