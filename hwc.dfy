/** The hardware-composer (HWC) side of the demo: the layer records of the
    work list, the values of the HAL constants it uses, what the driver's
    `prepare` may do to the list, the classification and tally pass that
    follows it, and the sequence of device calls the frame loop makes. */
module Hwc {
  import opened Geometry
  import opened Sprites

  datatype Option<T> = None | Some(value: T)

  /** `status_t`: 0 is `NO_ERROR`, anything else an error code. */
  type Status = int
  const NoError: Status := 0

  /** `HWC_GEOMETRY_CHANGED`, a bit of the list's `flags`. */
  const GeometryChanged: bv32 := 0x1
  /** `HWC_SKIP_LAYER`, a bit of a layer's `flags`. */
  const SkipLayer: bv32 := 0x1
  /** `HWC_FRAMEBUFFER`: the layer is composed by GLES into the framebuffer;
      any other `compositionType` is an overlay. */
  const Framebuffer: int := 0
  /** `HWC_BLENDING_NONE`. */
  const BlendingNone: int := 0x100

  /** `hwc_layer_t`, with its visible region as the list of its rectangles. */
  datatype Layer = Layer(
    compositionType: int,
    flags: bv32,
    handle: BufferHandle,
    blending: int,
    sourceCrop: Rect,
    displayFrame: Rect,
    visibleRegion: seq<Rect>)

  predicate IsSkip(l: Layer) { l.flags & SkipLayer != 0 }

  /** What the driver's `prepare` decided for one layer. */
  datatype Verdict = Verdict(compositionType: int, flags: bv32)

  /** One reply of the driver's `prepare`: its status and the verdicts it
      writes into the listed layers, first layer first. */
  datatype PrepareReply = PrepareReply(status: Status, verdicts: seq<Verdict>)

  /** The list after the driver's `prepare` has run on its first `n` layers:
      it may rewrite their `compositionType` and `flags`, and nothing else. */
  function DevicePrepared(layers: seq<Layer>, n: nat, verdicts: seq<Verdict>): (r: seq<Layer>)
    ensures |r| == |layers|
    ensures forall i :: 0 <= i < |r| ==>
      r[i] == layers[i].(compositionType := r[i].compositionType, flags := r[i].flags)
    ensures forall i :: n <= i < |r| ==> r[i] == layers[i]
  {
    seq(|layers|, i requires 0 <= i < |layers| =>
      if i < n && i < |verdicts|
      then layers[i].(compositionType := verdicts[i].compositionType, flags := verdicts[i].flags)
      else layers[i])
  }

  /** The classification step of `hwc_prepare_list` for one layer: a layer
      the driver flags as skip is forced back to the framebuffer. */
  function Classify(l: Layer): (r: Layer)
    ensures IsSkip(l) ==> r.compositionType == Framebuffer
    ensures !IsSkip(l) ==> r == l
    ensures r == l.(compositionType := r.compositionType)
  {
    if IsSkip(l) then l.(compositionType := Framebuffer) else l
  }

  /** The list once the classification pass has reached layer `i`. */
  function ClassifyPrefix(layers: seq<Layer>, i: nat): (r: seq<Layer>)
    ensures |r| == |layers|
    ensures forall j :: 0 <= j < |r| ==> r[j] == if j < i then Classify(layers[j]) else layers[j]
  {
    seq(|layers|, j requires 0 <= j < |layers| => if j < i then Classify(layers[j]) else layers[j])
  }

  /** `HwcLayerCount`. */
  datatype LayerCount = LayerCount(numFB: int, numOV: int)

  /** The counts the tally pass accumulates over a list of layers. */
  function Tally(s: seq<Layer>): (c: LayerCount)
    ensures c.numFB >= 0 && c.numOV >= 0 && c.numFB + c.numOV == |s|
  {
    if s == [] then LayerCount(0, 0)
    else
      var c := Tally(s[..|s| - 1]);
      if s[|s| - 1].compositionType != Framebuffer then c.(numOV := c.numOV + 1)
      else c.(numFB := c.numFB + 1)
  }

  /** The tally has no overlay exactly when every layer goes to the
      framebuffer, and no framebuffer layer exactly when every layer is an
      overlay. */
  lemma {:induction false} TallyCountsByType(s: seq<Layer>)
    ensures Tally(s).numOV == 0 <==> forall j :: 0 <= j < |s| ==> s[j].compositionType == Framebuffer
    ensures Tally(s).numFB == 0 <==> forall j :: 0 <= j < |s| ==> s[j].compositionType != Framebuffer
  {
    if s != [] {
      var init := s[..|s| - 1];
      TallyCountsByType(init);
      assert forall j :: 0 <= j < |init| ==> init[j] == s[j];
    }
  }

  lemma TallySnoc(s: seq<Layer>, l: Layer)
    ensures Tally(s + [l]) ==
      var c := Tally(s);
      if l.compositionType != Framebuffer then c.(numOV := c.numOV + 1) else c.(numFB := c.numFB + 1)
  {
    assert (s + [l])[..|s|] == s;
  }

  /** The number of skip layers in a list. */
  function CountSkip(s: seq<Layer>): (n: nat)
    ensures n <= |s|
  {
    if s == [] then 0 else CountSkip(s[..|s| - 1]) + (if IsSkip(s[|s| - 1]) then 1 else 0)
  }

  /** After classification every skip layer is counted as a framebuffer
      layer, whatever the driver decided for it: there are at least as many
      framebuffer layers as skip layers, and a list of skip layers only has
      no overlay at all. */
  lemma {:induction false} SkipLayersCountAsFramebuffer(s: seq<Layer>)
    ensures Tally(ClassifyPrefix(s, |s|)).numFB >= CountSkip(s)
    ensures CountSkip(s) == |s| ==> Tally(ClassifyPrefix(s, |s|)) == LayerCount(|s|, 0)
  {
    if s != [] {
      var init, c := s[..|s| - 1], ClassifyPrefix(s, |s|);
      SkipLayersCountAsFramebuffer(init);
      assert c[..|c| - 1] == ClassifyPrefix(init, |init|);
      assert c[|c| - 1] == Classify(s[|s| - 1]);
      assert CountSkip(s) == CountSkip(init) + (if IsSkip(s[|s| - 1]) then 1 else 0);
    }
  }

  /** `flags &= ~HWC_GEOMETRY_CHANGED`: the geometry bit is cleared and
      every other bit kept. */
  function ClearGeometryChanged(f: bv32): (r: bv32)
    ensures r & GeometryChanged == 0
    ensures r | GeometryChanged == f | GeometryChanged
  {
    f & !GeometryChanged
  }

  /** `hwc_layer_set_geometry`: the whole buffer is the source, shown at `rect`. */
  function SetGeometry(l: Layer, rect: Rect): (r: Layer)
    ensures r.sourceCrop.left == 0 && r.sourceCrop.top == 0
    ensures r.sourceCrop.Width() == rect.Width() && r.sourceCrop.Height() == rect.Height()
    ensures r.displayFrame == rect
    ensures r == l.(sourceCrop := r.sourceCrop, displayFrame := r.displayFrame)
  {
    l.(sourceCrop := Rect(0, 0, rect.Width(), rect.Height()),
       displayFrame := Rect(rect.left, rect.top, rect.right, rect.bottom))
  }

  /** The layer `update_sprites` builds for a sprite from the sprite's
      rectangle before this frame's move: a framebuffer layer without
      blending, showing the sprite's buffer unscaled at the sprite's
      rectangle, visible exactly there; only its `flags` survive from before. */
  function SpriteLayer(l: Layer, s: Sprite): (r: Layer)
    ensures r.compositionType == Framebuffer && r.blending == BlendingNone
    ensures r.handle == s.buffer && r.flags == l.flags
    ensures r.sourceCrop == Rect(0, 0, s.rect.Width(), s.rect.Height())
    ensures r.displayFrame == s.rect
    ensures r.sourceCrop.Width() == r.displayFrame.Width() && r.sourceCrop.Height() == r.displayFrame.Height()
    ensures r.visibleRegion == [r.displayFrame]
  {
    var l1 := l.(compositionType := Framebuffer, handle := s.buffer, blending := BlendingNone);
    var l2 := SetGeometry(l1, s.rect);
    l2.(visibleRegion := [l2.displayFrame])
  }

  /** The layer shows sprite `s` as `update_sprites` set it up: its buffer,
      unblended and unscaled, at the sprite's rectangle and visible exactly
      there. Its `compositionType` and `flags` are left open, since the
      driver's `prepare` may rewrite them. */
  predicate ShowsSprite(l: Layer, s: Sprite) {
    l.handle == s.buffer && l.blending == BlendingNone &&
    l.sourceCrop == Rect(0, 0, s.rect.Width(), s.rect.Height()) &&
    l.displayFrame == s.rect && l.visibleRegion == [s.rect]
  }

  /** What the driver answers in one frame: the reply of `prepare` and the
      status of `set`. */
  datatype FrameReply = FrameReply(prepare: PrepareReply, setStatus: Status)

  /** A call the frame loop makes into the driver, with the status it got. */
  datatype DeviceCall = PrepareCall(status: Status) | SetCall(status: Status)

  /** The calls one frame makes: `prepare`, then `set` only when `prepare`
      succeeded. */
  function FrameCalls(f: FrameReply): (calls: seq<DeviceCall>)
    ensures 1 <= |calls| <= 2 && calls[0].PrepareCall?
    ensures |calls| == 1 <==> f.prepare.status != NoError
    ensures calls[|calls| - 1].status == NoError <==> Completed(f)
    ensures calls[|calls| - 1].SetCall? <==> f.prepare.status == NoError
  {
    if f.prepare.status != NoError then [PrepareCall(f.prepare.status)]
    else [PrepareCall(NoError), SetCall(f.setStatus)]
  }

  /** A frame in which neither `prepare` nor `set` failed. */
  predicate Completed(f: FrameReply) {
    f.prepare.status == NoError && f.setStatus == NoError
  }

  /** The calls the frame loop makes, frame after frame, when the driver
      answers with `script`: the first frame that is not completed is the
      last. */
  function Protocol(script: seq<FrameReply>): (calls: seq<DeviceCall>)
  {
    if script == [] then []
    else if !Completed(script[0]) then FrameCalls(script[0])
    else FrameCalls(script[0]) + Protocol(script[1..])
  }

  /** The number of successful `set` calls: the flips. */
  function Flips(calls: seq<DeviceCall>): (n: nat)
  {
    if calls == [] then 0
    else Flips(calls[..|calls| - 1]) + (if calls[|calls| - 1] == SetCall(NoError) then 1 else 0)
  }

  /** The number of `prepare` calls, one per animated frame. */
  function Prepares(calls: seq<DeviceCall>): (n: nat)
  {
    if calls == [] then 0
    else Prepares(calls[..|calls| - 1]) + (if calls[|calls| - 1].PrepareCall? then 1 else 0)
  }

  /** One frame makes exactly one `prepare`, and flips exactly when it
      completed. */
  lemma FrameCounts(f: FrameReply)
    ensures Prepares(FrameCalls(f)) == 1
    ensures Flips(FrameCalls(f)) == if Completed(f) then 1 else 0
  {
    var c := FrameCalls(f);
    if f.prepare.status != NoError {
      assert c[..0] == [];
    } else {
      var first := [PrepareCall(NoError)];
      assert c[..1] == first && first[..0] == [];
      assert Flips(first) == 0 && Prepares(first) == 1;
    }
  }

  lemma {:induction false} CountsAppend(a: seq<DeviceCall>, b: seq<DeviceCall>)
    ensures Flips(a + b) == Flips(a) + Flips(b)
    ensures Prepares(a + b) == Prepares(a) + Prepares(b)
    decreases |b|
  {
    if b != [] {
      CountsAppend(a, b[..|b| - 1]);
      assert (a + b)[..|a + b| - 1] == a + b[..|b| - 1];
    } else {
      assert a + b == a;
    }
  }

  /** `set` is only ever called right after a `prepare` that succeeded. */
  lemma {:induction false} SetOnlyAfterSuccessfulPrepare(script: seq<FrameReply>)
    ensures var calls := Protocol(script);
      forall i :: 0 <= i < |calls| && calls[i].SetCall? ==> i > 0 && calls[i - 1] == PrepareCall(NoError)
  {
    if script != [] {
      var calls, head := Protocol(script), FrameCalls(script[0]);
      if Completed(script[0]) {
        SetOnlyAfterSuccessfulPrepare(script[1..]);
        assert head == [PrepareCall(NoError), SetCall(NoError)];
        assert calls[2..] == Protocol(script[1..]);
        forall i | 2 < i < |calls| && calls[i].SetCall? ensures calls[i - 1] == PrepareCall(NoError) {
          assert calls[i] == calls[2..][i - 2] && calls[i - 1] == calls[2..][i - 3];
        }
      } else if script[0].prepare.status == NoError {
        assert calls == [PrepareCall(NoError), SetCall(script[0].setStatus)];
      } else {
        assert calls == [PrepareCall(script[0].prepare.status)];
      }
    }
  }

  /** Calls of `prepare` and `set` alternate, starting with `prepare`. */
  lemma {:induction false} CallsAlternate(script: seq<FrameReply>)
    ensures var calls := Protocol(script);
      forall i :: 0 <= i < |calls| ==> (calls[i].PrepareCall? <==> i % 2 == 0)
  {
    if script != [] {
      var calls, head := Protocol(script), FrameCalls(script[0]);
      if Completed(script[0]) {
        CallsAlternate(script[1..]);
        assert head == [PrepareCall(NoError), SetCall(NoError)];
        assert calls[2..] == Protocol(script[1..]);
        forall i | 2 <= i < |calls| ensures calls[i].PrepareCall? <==> i % 2 == 0 {
          assert calls[i] == calls[2..][i - 2];
        }
      } else {
        assert calls == head;
      }
    }
  }

  /** A nonzero status ends the loop: it can only be the status of the last call. */
  lemma {:induction false} ErrorEndsTheLoop(script: seq<FrameReply>)
    ensures var calls := Protocol(script);
      forall i :: 0 <= i < |calls| && calls[i].status != NoError ==> i == |calls| - 1
  {
    if script != [] {
      var calls, head := Protocol(script), FrameCalls(script[0]);
      if Completed(script[0]) {
        ErrorEndsTheLoop(script[1..]);
        assert head == [PrepareCall(NoError), SetCall(NoError)];
        assert calls[2..] == Protocol(script[1..]);
        forall i | 0 <= i < |calls| && calls[i].status != NoError ensures i == |calls| - 1 {
          assert calls[i] == calls[2..][i - 2];
        }
      } else {
        assert calls == head;
      }
    }
  }

  /** Every frame that is prepared is flipped, except a last one whose
      `prepare` or `set` failed. */
  lemma {:induction false} FlipsFollowPrepares(script: seq<FrameReply>)
    ensures var calls := Protocol(script);
      Prepares(calls) == Flips(calls) + (if calls != [] && calls[|calls| - 1].status != NoError then 1 else 0)
  {
    if script != [] {
      var head := FrameCalls(script[0]);
      if Completed(script[0]) {
        var rest := Protocol(script[1..]);
        FlipsFollowPrepares(script[1..]);
        CountsAppend(head, rest);
        FrameCounts(script[0]);
        if rest != [] {
          assert (head + rest)[|head + rest| - 1] == rest[|rest| - 1];
        }
      } else {
        assert Protocol(script) == head;
        FrameCounts(script[0]);
      }
    }
  }

  /** The loop flips at most once per script entry, and exactly once per
      entry when no status in the script is an error. */
  lemma {:induction false} FlipsCountCompletedFrames(script: seq<FrameReply>)
    ensures Flips(Protocol(script)) <= |script|
    ensures Flips(Protocol(script)) == |script| <==>
      forall j :: 0 <= j < |script| ==> Completed(script[j])
  {
    if script != [] {
      var f := script[0];
      FrameCounts(f);
      if Completed(f) {
        var rest := Protocol(script[1..]);
        FlipsCountCompletedFrames(script[1..]);
        CountsAppend(FrameCalls(f), rest);
        AllSucceedStep(script);
      }
    }
  }

  lemma AllSucceedStep(script: seq<FrameReply>)
    requires script != []
    ensures (forall j :: 0 <= j < |script| ==> Completed(script[j])) <==>
      Completed(script[0]) &&
      forall j :: 0 <= j < |script[1..]| ==> Completed(script[1..][j])
  {
    if Completed(script[0]) &&
      forall j :: 0 <= j < |script[1..]| ==> Completed(script[1..][j])
    {
      forall j | 0 <= j < |script| ensures Completed(script[j]) {
        if j > 0 { assert script[j] == script[1..][j - 1]; }
      }
    }
  }

  /** The state of the frame loop before frame `i`: the calls made so far
      followed by those still to come are the whole protocol, every frame
      so far completed, and `flipCount` is the number of flips in 32 bits. */
  predicate LoopState(script: seq<FrameReply>, i: nat, calls: seq<DeviceCall>, flipCount: nat) {
    i <= |script| &&
    calls + Protocol(script[i..]) == Protocol(script) &&
    (calls == [] || calls[|calls| - 1] == SetCall(NoError)) &&
    flipCount == Flips(calls) % 0x1_0000_0000 &&
    Prepares(calls) == i
  }

  lemma LoopStarts(script: seq<FrameReply>)
    ensures LoopState(script, 0, [], 0)
  {
    assert script[0..] == script;
  }

  /** A completed frame moves the loop on to the next frame, with one more flip. */
  lemma {:induction false} LoopAdvances(script: seq<FrameReply>, i: nat, calls: seq<DeviceCall>, flipCount: nat)
    requires LoopState(script, i, calls, flipCount) && i < |script| && Completed(script[i])
    ensures LoopState(script, i + 1, calls + FrameCalls(script[i]), (flipCount + 1) % 0x1_0000_0000)
  {
    var frame := FrameCalls(script[i]);
    FrameCounts(script[i]);
    assert script[i..][1..] == script[i + 1..];
    assert (calls + frame) + Protocol(script[i + 1..]) == calls + Protocol(script[i..]);
    CountsAppend(calls, frame);
    WrapSucc(Flips(calls));
  }

  /** Counting on in 32 bits: the wrapped successor of a wrapped count is
      the wrapped count of the successor. */
  lemma WrapSucc(n: nat)
    ensures (n % 0x1_0000_0000 + 1) % 0x1_0000_0000 == (n + 1) % 0x1_0000_0000
  {
  }

  /** A frame that is not completed is the last: the calls made are then
      the whole protocol, and it adds a `prepare` but no flip. */
  lemma {:induction false} LoopStops(script: seq<FrameReply>, i: nat, calls: seq<DeviceCall>, flipCount: nat)
    requires LoopState(script, i, calls, flipCount) && i < |script| && !Completed(script[i])
    ensures calls + FrameCalls(script[i]) == Protocol(script)
    ensures flipCount == Flips(calls + FrameCalls(script[i])) % 0x1_0000_0000
    ensures Prepares(calls + FrameCalls(script[i])) == i + 1
  {
    var frame := FrameCalls(script[i]);
    CountsAppend(calls, frame);
    FrameCounts(script[i]);
  }

  /** When the script is used up, the calls made are the whole protocol. */
  lemma LoopEnds(script: seq<FrameReply>, calls: seq<DeviceCall>, flipCount: nat)
    requires LoopState(script, |script|, calls, flipCount)
    ensures calls == Protocol(script)
  {
    assert script[|script|..] == [];
  }
}
