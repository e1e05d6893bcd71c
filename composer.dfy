/** The demo's composer state and its per-frame procedures: the work list
    handed to the HWC driver (`gHwcList`), the sprite table, and the frame
    loop that animates, prepares and commits until the driver reports an
    error. */
module Composer {
  import opened Geometry
  import opened Sprites
  import opened Hwc

  /** The globals of the demo. The driver (`gHwc`) is present or not for
      the whole run, and the screen width (`gWidth`) is fixed before the
      loop starts. The work list is `hwLayers`, null while no list has been
      allocated; its length is the number of layers the allocation holds.
      `numHwLayers` and `flags` are the list's header fields. */
  class HwcContext {
    const hasDevice: bool
    const screenWidth: int
    const sprites: array<Sprite>
    var hwLayers: array?<Layer>
    var numHwLayers: nat
    var flags: bv32

    /** The list header never claims more layers than were allocated. */
    predicate Valid()
      reads this
    {
      hwLayers != null ==> numHwLayers <= hwLayers.Length
    }

    /** Layer k shows `shown[k]`, for every sprite of `shown`. */
    predicate ShowsSprites(shown: seq<Sprite>)
      reads this, hwLayers
    {
      hwLayers != null && |shown| <= hwLayers.Length &&
      forall k :: 0 <= k < |shown| ==> ShowsSprite(hwLayers[k], shown[k])
    }

    /** Every listed layer flagged as skip is a framebuffer layer. */
    predicate SkipsAreFramebuffer()
      reads this, hwLayers
    {
      hwLayers != null &&
      forall k :: 0 <= k < numHwLayers && k < hwLayers.Length && IsSkip(hwLayers[k]) ==>
        hwLayers[k].compositionType == Framebuffer
    }

    /** The state after start-up: no work list yet, and the sprite table
        `test_sprites` with the buffers `create_sprites` attached to it. */
    constructor (hasDevice: bool, screenWidth: int, buffers: seq<BufferHandle>)
      requires |buffers| == |TestSprites()|
      ensures Valid()
      ensures this.hasDevice == hasDevice && this.screenWidth == screenWidth
      ensures hwLayers == null
      ensures fresh(sprites) && sprites.Length == |TestSprites()|
      ensures forall i :: 0 <= i < sprites.Length ==> sprites[i] == TestSprites()[i].(buffer := buffers[i])
    {
      this.hasDevice := hasDevice;
      this.screenWidth := screenWidth;
      var table := TestSprites();
      sprites := new Sprite[|table|](i requires 0 <= i < |table| => table[i].(buffer := buffers[i]));
      hwLayers := null;
      numHwLayers := 0;
      flags := 0;
    }

    /** `hwc_create_work_list`: without a driver, nothing happens. With
        one, the list is replaced by a fresh allocation of `n` layers when
        there is no list or its header counts fewer than `n` layers, and
        kept (contents included) otherwise; either way the header then
        says `n` layers and geometry changed. */
    method CreateWorkList(n: nat) returns (status: Status)
      requires Valid()
      modifies this`hwLayers, this`numHwLayers, this`flags
      ensures Valid()
      ensures status == NoError
      ensures !hasDevice ==>
        hwLayers == old(hwLayers) && numHwLayers == old(numHwLayers) && flags == old(flags)
      ensures hasDevice ==> hwLayers != null && numHwLayers == n && flags == GeometryChanged
      ensures hasDevice && (old(hwLayers) == null || old(numHwLayers) < n) ==>
        fresh(hwLayers) && hwLayers.Length == n
      ensures hasDevice && old(hwLayers) != null && n <= old(numHwLayers) ==> hwLayers == old(hwLayers)
    {
      if !hasDevice {
        return NoError;
      }
      if hwLayers == null || numHwLayers < n {
        hwLayers := new Layer[n];
      }
      flags := GeometryChanged;
      numHwLayers := n;
      return NoError;
    }

    /** The driver's `prepare`: it answers with `reply.status` and may
        rewrite the `compositionType` and `flags` of the listed layers. */
    method DevicePrepare(reply: PrepareReply) returns (status: Status)
      requires hasDevice && Valid()
      modifies hwLayers
      ensures status == reply.status
      ensures hwLayers != null ==>
        hwLayers[..] == DevicePrepared(old(hwLayers[..]), numHwLayers, reply.verdicts)
    {
      if hwLayers != null {
        forall i | 0 <= i < hwLayers.Length && i < numHwLayers && i < |reply.verdicts| {
          hwLayers[i] := hwLayers[i].(compositionType := reply.verdicts[i].compositionType,
                                      flags := reply.verdicts[i].flags);
        }
      }
      status := reply.status;
    }

    /** `hwc_prepare_list`: a failing `prepare` status is handed back as it
        is, and so is the list the driver left. Otherwise, when a tally is
        asked for, every listed skip layer is set to the framebuffer and the
        listed layers are counted by composition type. */
    method PrepareList(wantTally: bool, reply: PrepareReply) returns (status: Status, tally: Option<LayerCount>)
      requires hasDevice && Valid()
      requires wantTally && reply.status == NoError ==> hwLayers != null
      modifies hwLayers
      ensures status == reply.status
      ensures hwLayers != null ==>
        var prepared := DevicePrepared(old(hwLayers[..]), numHwLayers, reply.verdicts);
        hwLayers[..] == if status == NoError && wantTally then ClassifyPrefix(prepared, numHwLayers) else prepared
      ensures tally == if status == NoError && wantTally then Some(Tally(hwLayers[..numHwLayers])) else None
    {
      status := DevicePrepare(reply);
      if status != NoError {
        return status, None;
      }
      if !wantTally {
        return NoError, None;
      }
      var list: array<Layer> := hwLayers;
      ghost var prepared := list[..];
      var numFB, numOV := 0, 0;
      var i := 0;
      while i < numHwLayers
        invariant 0 <= i <= numHwLayers
        invariant forall j :: 0 <= j < list.Length ==>
          list[j] == if j < i then Classify(prepared[j]) else prepared[j]
        invariant LayerCount(numFB, numOV) == Tally(list[..i])
      {
        ghost var done := list[..i];
        if list[i].flags & SkipLayer != 0 {
          list[i] := list[i].(compositionType := Framebuffer);
        }
        if list[i].compositionType != Framebuffer {
          numOV := numOV + 1;
        } else {
          numFB := numFB + 1;
        }
        assert list[..i] == done;
        TallySnoc(done, list[i]);
        assert list[..i + 1] == done + [list[i]];
        i := i + 1;
      }
      assert list[..] == ClassifyPrefix(prepared, numHwLayers);
      return NoError, Some(LayerCount(numFB, numOV));
    }

    /** `hwc_commit`: the driver's `set` status is returned as it is, and
        the list's geometry-changed bit is cleared whether or not `set`
        succeeded. */
    method Commit(setStatus: Status) returns (status: Status)
      requires hasDevice
      modifies this`flags
      ensures status == setStatus
      ensures hwLayers != null ==> flags == ClearGeometryChanged(old(flags))
      ensures hwLayers == null ==> flags == old(flags)
    {
      status := setStatus;
      if hwLayers != null {
        flags := flags & !GeometryChanged;
      }
    }

    /** `update_sprites`: layer n is rebuilt from sprite n as it stands
        before this frame, then the sprite makes one step; the layers past
        the sprites are left alone and the list is marked geometry-changed. */
    method UpdateSprites()
      requires Valid() && hwLayers != null && sprites.Length <= hwLayers.Length
      modifies this`flags, hwLayers, sprites
      ensures flags == GeometryChanged
      ensures forall n :: 0 <= n < sprites.Length ==>
        hwLayers[n] == SpriteLayer(old(hwLayers[n]), old(sprites[n])) &&
        sprites[n] == Step(old(sprites[n]), screenWidth)
      ensures forall n :: sprites.Length <= n < hwLayers.Length ==> hwLayers[n] == old(hwLayers[n])
    {
      var n := 0;
      while n < sprites.Length
        invariant 0 <= n <= sprites.Length
        invariant forall k :: 0 <= k < n ==>
          hwLayers[k] == SpriteLayer(old(hwLayers[k]), old(sprites[k])) &&
          sprites[k] == Step(old(sprites[k]), screenWidth)
        invariant forall k :: n <= k < hwLayers.Length ==> hwLayers[k] == old(hwLayers[k])
        invariant forall k :: n <= k < sprites.Length ==> sprites[k] == old(sprites[k])
      {
        var s := sprites[n];
        var l := hwLayers[n].(compositionType := Framebuffer, handle := s.buffer, blending := BlendingNone);
        l := SetGeometry(l, s.rect);
        hwLayers[n] := l.(visibleRegion := [l.displayFrame]);

        var moved := s.rect.OffsetBy(s.dirX, 0);
        var dirX := if ShouldReverse(moved, s.dirX, screenWidth) then -s.dirX else s.dirX;
        sprites[n] := s.(rect := moved, dirX := dirX);
        n := n + 1;
      }
      flags := GeometryChanged;
    }

    /** One pass of the body of the frame loop: animate the sprites,
        prepare with a tally, and, only if that succeeded, commit. The
        calls it makes and their statuses are `frameCalls`. */
    method Frame(reply: FrameReply) returns (frameCalls: seq<DeviceCall>)
      requires hasDevice && Valid() && hwLayers != null && sprites.Length <= hwLayers.Length
      modifies this`flags, hwLayers, sprites
      ensures frameCalls == FrameCalls(reply)
      ensures forall k :: 0 <= k < sprites.Length ==> sprites[k] == Step(old(sprites[k]), screenWidth)
      ensures flags == if reply.prepare.status == NoError then 0 else GeometryChanged
      ensures ShowsSprites(old(sprites[..]))
      ensures reply.prepare.status == NoError ==> SkipsAreFramebuffer()
    {
      UpdateSprites();
      var status, tally := PrepareList(true, reply.prepare);
      if status != NoError {
        return [PrepareCall(status)];
      }
      status := Commit(reply.setStatus);
      return [PrepareCall(NoError), SetCall(status)];
    }

    /** `main` from sizing the work list on: the list is sized to the
        sprite table, then the frame loop runs. */
    method RunFrames(script: seq<FrameReply>) returns (flipCount: nat, calls: seq<DeviceCall>)
      requires hasDevice && Valid()
      modifies this`hwLayers, this`numHwLayers, this`flags, hwLayers, sprites
      ensures Valid() && hwLayers != null && numHwLayers == sprites.Length
      ensures calls == Protocol(script)
      ensures flipCount == Flips(calls) % 0x1_0000_0000
      ensures forall k :: 0 <= k < sprites.Length ==>
        sprites[k] == Steps(old(sprites[k]), Prepares(calls), screenWidth)
      ensures flags == if calls != [] && calls[|calls| - 1].SetCall? then 0 else GeometryChanged
      ensures Prepares(calls) > 0 ==> ShowsSprites(StepsAll(old(sprites[..]), Prepares(calls) - 1, screenWidth))
      ensures calls != [] && calls[|calls| - 1].SetCall? ==> SkipsAreFramebuffer()
    {
      var status := CreateWorkList(sprites.Length);
      if status != NoError {
        assert false;
      }
      flipCount, calls := FrameLoop(script);
    }

    /** The frame loop before frame `i` of `script`, for sprites that
        started as `start`: the calls so far and the loop's counters are as
        `LoopState` says, every sprite has made `i` steps, the list is
        marked geometry-changed only before the first frame, and after a
        first frame the layers show the sprites as they stood before their
        last step, with every skip layer on the framebuffer. */
    ghost predicate Running(script: seq<FrameReply>, start: seq<Sprite>, i: nat,
                            calls: seq<DeviceCall>, flipCount: nat)
      reads this, hwLayers, sprites
    {
      hwLayers != null && Valid() && numHwLayers == sprites.Length && |start| == sprites.Length &&
      LoopState(script, i, calls, flipCount) &&
      sprites[..] == StepsAll(start, i, screenWidth) &&
      flags == (if calls == [] then GeometryChanged else 0) &&
      (calls == []) == (i == 0) &&
      (i > 0 ==> ShowsSprites(StepsAll(start, i - 1, screenWidth)) && SkipsAreFramebuffer())
    }

    /** The state the frame loop leaves once it has stopped, for sprites
        that started as `start`: the calls are the whole protocol of
        `script`, `flipCount` counts its flips in 32 bits, every sprite has
        made one step per `prepare`, the flags are clear exactly after a
        final commit, and the layers show the sprites as they stood before
        the last frame's step. */
    ghost predicate Finished(script: seq<FrameReply>, start: seq<Sprite>,
                             calls: seq<DeviceCall>, flipCount: nat)
      reads this, hwLayers, sprites
    {
      hwLayers != null && |start| == sprites.Length &&
      calls == Protocol(script) && flipCount == Flips(calls) % 0x1_0000_0000 &&
      sprites[..] == StepsAll(start, Prepares(calls), screenWidth) &&
      flags == (if calls != [] && calls[|calls| - 1].SetCall? then 0 else GeometryChanged) &&
      (Prepares(calls) > 0 ==> ShowsSprites(StepsAll(start, Prepares(calls) - 1, screenWidth))) &&
      (calls != [] && calls[|calls| - 1].SetCall? ==> SkipsAreFramebuffer())
    }

    /** The frame loop of `main`: frame after frame runs until a status is
        nonzero, counting the successful commits in the demo's 32-bit
        `flipCount`. The driver's answers are `script`, one entry per
        frame; the loop, endless in the demo, stops here when the script is
        used up. */
    method FrameLoop(script: seq<FrameReply>) returns (flipCount: nat, calls: seq<DeviceCall>)
      requires hasDevice && Valid() && hwLayers != null && numHwLayers == sprites.Length
      requires flags == GeometryChanged
      modifies this`flags, hwLayers, sprites
      ensures Finished(script, old(sprites[..]), calls, flipCount)
    {
      ghost var start := sprites[..];
      flipCount, calls := 0, [];
      LoopStarts(script);
      var i := 0;
      while i < |script|
        invariant Running(script, start, i, calls, flipCount)
      {
        var done;
        done, calls, flipCount := FrameStep(script, start, i, calls, flipCount);
        if done {
          return;
        }
        i := i + 1;
      }
      LoopEnds(script, calls, flipCount);
    }

    /** One pass of the frame loop's body, frame `i` of `script`: the frame
        runs, and either the loop goes on to frame `i + 1` with one more
        flip, or a nonzero status has ended it. */
    method FrameStep(script: seq<FrameReply>, ghost start: seq<Sprite>, i: nat,
                     callsBefore: seq<DeviceCall>, flipsBefore: nat)
      returns (done: bool, calls: seq<DeviceCall>, flipCount: nat)
      requires hasDevice && i < |script| && Running(script, start, i, callsBefore, flipsBefore)
      modifies this`flags, hwLayers, sprites
      ensures done <==> !Completed(script[i])
      ensures done ==> Finished(script, start, calls, flipCount)
      ensures !done ==> Running(script, start, i + 1, calls, flipCount)
    {
      var frameCalls := Frame(script[i]);
      assert sprites[..] == StepsAll(start, i + 1, screenWidth);
      calls := callsBefore + frameCalls;
      if frameCalls[|frameCalls| - 1].status != NoError {
        LoopStops(script, i, callsBefore, flipsBefore);
        return true, calls, flipsBefore;
      }
      LoopAdvances(script, i, callsBefore, flipsBefore);
      return false, calls, (flipsBefore + 1) % 0x1_0000_0000;
    }
  }
}
