/** The Camera and FrameBufferAllocator objects, which hold each other, against CameraStates. */
module CameraObject {
  import opened Bytes
  import CS = CameraStates
  import opened CameraStates

  class CameraDevice {
    var state: State
    var disconnected: bool
    var activeStreams: set<Stream>
    var allocator: FrameBufferAllocator?
    /** The pipeline handler's record of imports and exports. */
    ghost var held: map<Stream, Holding>
    ghost var twice: bool

    ghost predicate Valid()
      reads this, allocator
    {
      allocator != null ==> allocator.camera == this
    }

    ghost function View(): Camera
      reads this, allocator
    {
      Camera(state, disconnected, activeStreams, if allocator == null then None else Some(allocator.buffers), held, twice)
    }

    constructor ()
      ensures Valid() && View() == NEW
    {
      state, disconnected, activeStreams, allocator := Available, false, {}, null;
      held, twice := map[], false;
    }

    function IsAccessAllowed(low: State, high: State, allowDisconnected: bool): (r: int)
      reads this
      ensures r <= 0
    {
      if !allowDisconnected && disconnected then -ENODEV
      else if Rank(low) <= Rank(state) <= Rank(high) then 0
      else -EACCES
    }

    // --- Calls into the pipeline handler.

    ghost method PipelineHold(s: Stream, h: Holding)
      modifies this`held, this`twice
      ensures held == old(held)[s := h] && twice == (old(twice) || s in old(held))
    {
      twice := twice || s in held;
      held := held[s := h];
    }

    ghost method PipelineFree(s: Stream)
      modifies this`held
      ensures held == old(held) - {s}
    {
      held := held - {s};
    }

    // --- The application's calls.

    method Acquire(lock: bool) returns (ret: int)
      requires Valid()
      modifies this`state
      ensures Valid() && (View(), ret) == DoAcquire(old(View()), lock)
    {
      ret := IsAccessAllowed(Available, Available, false);
      if ret < 0 { return if ret == -EACCES then -EBUSY else ret; }
      if !lock { return -EBUSY; }
      state := Acquired;
    }

    method Release() returns (ret: int)
      requires Valid()
      modifies this`state
      ensures Valid() && (View(), ret) == DoRelease(old(View()))
    {
      ret := IsAccessAllowed(Available, Configured, true);
      if ret < 0 { return if ret == -EACCES then -EBUSY else ret; }
      if allocator != null { return -EBUSY; }
      state := Available;
    }

    method Configure(valid: bool, pipeline: int, streams: set<Stream>) returns (ret: int)
      requires Valid()
      modifies this`state, this`activeStreams
      ensures Valid() && (View(), ret) == DoConfigure(old(View()), valid, pipeline, streams)
    {
      ret := IsAccessAllowed(Acquired, Configured, false);
      if ret < 0 { return; }
      if allocator != null && allocator.buffers != map[] { return -EBUSY; }
      if !valid { return -EINVAL; }
      if pipeline != 0 { return pipeline; }
      activeStreams := streams;
      state := Configured;
      ret := 0;
    }

    /** What buffers(stream).empty() answers, without an allocator as with an empty one. */
    predicate Served(s: Stream)
      reads this, allocator
    {
      allocator != null && s in allocator.buffers && allocator.buffers[s] > 0
    }

    method Start(pipeline: int) returns (ret: int)
      requires Valid()
      modifies this`state, this`held, this`twice
      ensures Valid() && (View(), ret) == DoStart(old(View()), pipeline)
    {
      ret := IsAccessAllowed(Configured, Configured, false);
      if ret < 0 { return; }
      ghost var c := View();
      var left := activeStreams;
      ghost var done: set<Stream> := {};
      hide Hold;
      forall ss: set<Stream>, s | s !in ss { HoldOneMore(c, ss, s, Imported); }
      while left != {}
        invariant left <= activeStreams && done == Unbacked(c) - left
        invariant View() == Hold(c, done, Imported)
        decreases left
      {
        assert exists s :: s in left by { assert (forall s :: s !in left) ==> left == {}; }
        var s :| s in left;
        left := left - {s};
        if Served(s) {
          assert s !in Unbacked(c);
          continue;
        }
        PipelineHold(s, Imported);
        done := done + {s};
      }
      assert done == Unbacked(c);
      if pipeline != 0 { return pipeline; }
      state := Running;
      ret := 0;
    }

    method Stop() returns (ret: int)
      requires Valid()
      modifies this`state, this`held
      ensures Valid() && (View(), ret) == DoStop(old(View()))
    {
      ret := IsAccessAllowed(Running, Running, false);
      if ret < 0 { return; }
      state := Configured;
      ghost var c := View();
      var left := activeStreams;
      ghost var done: set<Stream> := {};
      while left != {}
        invariant left <= activeStreams && done == Unbacked(c) - left
        invariant View() == Drop(c, done)
        decreases left
      {
        assert exists s :: s in left by { assert (forall s :: s !in left) ==> left == {}; }
        var s :| s in left;
        left := left - {s};
        if Served(s) {
          assert s !in Unbacked(c);
          continue;
        }
        PipelineFree(s);
        done := done + {s};
      }
      assert done == Unbacked(c) == Unbacked(old(View()));
      ret := 0;
    }

    method Disconnect()
      requires Valid()
      modifies this`state, this`disconnected
      ensures Valid() && View() == DoDisconnect(old(View()))
    {
      if state == Running {
        state := Configured;
      }
      disconnected := true;
    }

    method ExportFrameBuffers(s: Stream, pipeline: int) returns (ret: int)
      requires Valid()
      modifies this`held, this`twice
      ensures Valid()
      ensures var access := CS.Access(old(View()), Configured, Configured, false);
        && ret == (if access < 0 then access else if s !in activeStreams then -EINVAL else pipeline)
        && View() == (if access == 0 && s in activeStreams && pipeline > 0 then Hold(old(View()), {s}, Exported)
                      else old(View()))
    {
      ret := IsAccessAllowed(Configured, Configured, false);
      if ret < 0 { return; }
      if s !in activeStreams { return -EINVAL; }
      if pipeline > 0 {
        ghost var c := View();
        PipelineHold(s, Exported);
        assert Hold(c, {s}, Exported).held == held;
      }
      ret := pipeline;
    }

    method FreeFrameBuffers(s: Stream) returns (ret: int)
      requires Valid()
      modifies this`held
      ensures Valid() && (View(), ret) == CS.FreeFrameBuffers(old(View()), {s})
    {
      ret := IsAccessAllowed(Configured, Configured, true);
      if ret < 0 { return; }
      PipelineFree(s);
    }
  }

  class FrameBufferAllocator {
    const camera: CameraDevice
    /** Number of buffers in the vector of each stream that has one. */
    var buffers: map<Stream, nat>

    constructor (camera: CameraDevice)
      ensures this.camera == camera && buffers == map[]
    {
      this.camera := camera;
      buffers := map[];
    }

    static method Create(camera: CameraDevice) returns (a: FrameBufferAllocator?)
      requires camera.Valid()
      modifies camera`allocator
      ensures camera.Valid() && camera.View() == Do(old(camera.View()), CreateAllocator).0
      ensures a == null <==> old(camera.allocator) != null
      ensures a != null ==> camera.allocator == a
    {
      if camera.allocator != null { return null; }
      a := new FrameBufferAllocator(camera);
      camera.allocator := a;
    }

    /** The destructor. */
    method Delete()
      requires camera.Valid() && camera.allocator == this
      modifies camera, this
      ensures camera.Valid() && camera.allocator == null && camera.View() == DoDeleteAllocator(old(camera.View()))
    {
      ghost var c := camera.View();
      var left := buffers.Keys;
      ghost var done: set<Stream> := {};
      while left != {}
        invariant left <= buffers.Keys && done == buffers.Keys - left && buffers == old(buffers)
        invariant camera.Valid() && camera.allocator == this
        invariant camera.View() == CS.FreeFrameBuffers(c, done).0
        decreases left
      {
        assert exists s :: s in left by { assert (forall s :: s !in left) ==> left == {}; }
        var s :| s in left;
        left := left - {s};
        var ret := camera.FreeFrameBuffers(s);
        done := done + {s};
      }
      camera.allocator := null;
    }

    method Allocate(s: Stream, pipeline: int) returns (ret: int)
      requires camera.Valid() && camera.allocator == this
      modifies this, camera`held, camera`twice
      ensures camera.Valid() && camera.allocator == this
      ensures (camera.View(), ret) == DoAllocate(old(camera.View()), s, pipeline)
    {
      if s in buffers { return -EBUSY; }
      buffers := buffers[s := 0];
      ret := camera.ExportFrameBuffers(s, pipeline);
      if ret > 0 {
        buffers := buffers[s := ret];
        assert buffers == old(buffers)[s := ret];
      }
    }

    method Free(s: Stream) returns (ret: int)
      requires camera.Valid() && camera.allocator == this
      modifies this, camera`held
      ensures camera.Valid() && camera.allocator == this
      ensures (camera.View(), ret) == DoFree(old(camera.View()), s)
    {
      if s !in buffers { return -EINVAL; }
      ret := camera.FreeFrameBuffers(s);
      if ret < 0 { return; }
      buffers := buffers - {s};
    }
  }
}
