/** The bouncing sprites of the demo: each one sweeps horizontally, one
    pixel per frame, and turns round only once it has completely left the
    screen on the side it was heading to. */
module Sprites {
  import opened Geometry

  /** The native handle of a sprite's graphic buffer; the model never looks inside. */
  type BufferHandle = int

  /** `sprite_t`: screen rectangle, horizontal direction (+1 or -1),
      fill colour (0xAABBGGRR) and the buffer the sprite is drawn from. */
  datatype Sprite = Sprite(rect: Rect, dirX: int, color: bv32, buffer: BufferHandle)

  predicate IsUnitDirection(d: int) { d == 1 || d == -1 }

  /** The reversal test of `update_sprites`, applied to the rectangle after
      this frame's move: it holds exactly when the sprite is entirely off
      the screen on the side it is moving towards. */
  predicate ShouldReverse(r: Rect, dirX: int, screenWidth: int)
    ensures ShouldReverse(r, dirX, screenWidth) <==>
      (dirX < 0 && r.right < 0) || (dirX > 0 && r.left >= screenWidth)
  {
    (r.left < -r.Width() && dirX < 0) || (r.right >= screenWidth + r.Width() && dirX > 0)
  }

  /** One frame of `update_sprites` for one sprite: move by the current
      direction, then reverse the direction if the sprite has left the screen. */
  function Step(s: Sprite, screenWidth: int): (r: Sprite)
    ensures r.rect.left == s.rect.left + s.dirX && r.rect.right == s.rect.right + s.dirX
    ensures r.rect.top == s.rect.top && r.rect.bottom == s.rect.bottom
    ensures r.color == s.color && r.buffer == s.buffer
    ensures r.dirX == s.dirX || r.dirX == -s.dirX
    ensures IsUnitDirection(s.dirX) ==> IsUnitDirection(r.dirX)
    ensures r.dirX != s.dirX <==>
      (s.dirX < 0 && r.rect.right < 0) || (s.dirX > 0 && r.rect.left >= screenWidth)
  {
    var moved := s.rect.OffsetBy(s.dirX, 0);
    s.(rect := moved, dirX := if ShouldReverse(moved, s.dirX, screenWidth) then -s.dirX else s.dirX)
  }

  /** The sprite after k frames. */
  function Steps(s: Sprite, k: nat, screenWidth: int): (r: Sprite)
    ensures r.rect.Width() == s.rect.Width() && r.rect.Height() == s.rect.Height()
    ensures r.rect.top == s.rect.top && r.rect.bottom == s.rect.bottom
    ensures r.color == s.color && r.buffer == s.buffer
    ensures IsUnitDirection(s.dirX) ==> IsUnitDirection(r.dirX)
    decreases k
  {
    if k == 0 then s else Step(Steps(s, k - 1, screenWidth), screenWidth)
  }

  /** Every sprite of a table after k frames. */
  function StepsAll(table: seq<Sprite>, k: nat, screenWidth: int): seq<Sprite> {
    seq(|table|, i requires 0 <= i < |table| => Steps(table[i], k, screenWidth))
  }

  lemma {:induction false} StepsAdd(s: Sprite, a: nat, b: nat, screenWidth: int)
    ensures Steps(s, a + b, screenWidth) == Steps(Steps(s, a, screenWidth), b, screenWidth)
    decreases b
  {
    if b > 0 {
      StepsAdd(s, a, b - 1, screenWidth);
    }
  }

  /** Moving right, a sprite keeps its direction until its left edge
      reaches the screen width, and turns round on exactly that frame. */
  lemma {:induction false} RunRight(s: Sprite, k: nat, screenWidth: int)
    requires s.dirX == 1 && s.rect.left + k <= screenWidth && s.rect.left < screenWidth
    ensures Steps(s, k, screenWidth) ==
      s.(rect := s.rect.OffsetBy(k, 0), dirX := if s.rect.left + k == screenWidth then -1 else 1)
    decreases k
  {
    if k > 0 {
      RunRight(s, k - 1, screenWidth);
    }
  }

  /** Moving left, a sprite keeps its direction until its right edge
      passes below 0, and turns round on exactly that frame. */
  lemma {:induction false} RunLeft(s: Sprite, k: nat, screenWidth: int)
    requires s.dirX == -1 && s.rect.right - k >= -1 && s.rect.right >= 0
    ensures Steps(s, k, screenWidth) ==
      s.(rect := s.rect.OffsetBy(-(k as int), 0), dirX := if s.rect.right - k == -1 then 1 else -1)
    decreases k
  {
    if k > 0 {
      RunLeft(s, k - 1, screenWidth);
    }
  }

  /** The positions a sprite passes through in its sweep: moving right its
      left edge lies in [-width-1, screenWidth), moving left in [-width, screenWidth]. */
  predicate InSweep(s: Sprite, screenWidth: int) {
    var w := s.rect.Width();
    w >= 0 && screenWidth >= 0 &&
    ((s.dirX == 1 && -w - 1 <= s.rect.left < screenWidth) ||
     (s.dirX == -1 && -w <= s.rect.left <= screenWidth))
  }

  lemma StepStaysInSweep(s: Sprite, screenWidth: int)
    requires InSweep(s, screenWidth)
    ensures InSweep(Step(s, screenWidth), screenWidth)
  {
  }

  /** The three legs of a sweep that starts moving right: to the right
      turning point, across to the left one, and back to the start. */
  lemma {:induction false} SweepFromRightward(s: Sprite, screenWidth: int)
    requires InSweep(s, screenWidth) && s.dirX == 1
    ensures Steps(s, 2 * (screenWidth + s.rect.Width() + 1), screenWidth) == s
  {
    var w, a := s.rect.Width(), s.rect.left;
    var k1, across, k3 := screenWidth - a, screenWidth + w + 1, a + w + 1;
    RunRight(s, k1, screenWidth);
    var s1 := Steps(s, k1, screenWidth);
    assert s1.rect.right == screenWidth + w && s1.dirX == -1;
    RunLeft(s1, across, screenWidth);
    var s2 := Steps(s1, across, screenWidth);
    assert s2.rect.left == -w - 1 && s2.dirX == 1;
    RunRight(s2, k3, screenWidth);
    StepsAdd(s, k1, across, screenWidth);
    StepsAdd(s, k1 + across, k3, screenWidth);
  }

  /** The three legs of a sweep that starts moving left. */
  lemma {:induction false} SweepFromLeftward(s: Sprite, screenWidth: int)
    requires InSweep(s, screenWidth) && s.dirX == -1
    ensures Steps(s, 2 * (screenWidth + s.rect.Width() + 1), screenWidth) == s
  {
    var w, a := s.rect.Width(), s.rect.left;
    var k1, across, k3 := a + w + 1, screenWidth + w + 1, screenWidth - a;
    RunLeft(s, k1, screenWidth);
    var s1 := Steps(s, k1, screenWidth);
    assert s1.rect.left == -w - 1 && s1.dirX == 1;
    RunRight(s1, across, screenWidth);
    var s2 := Steps(s1, across, screenWidth);
    assert s2.rect.right == screenWidth + w && s2.dirX == -1;
    RunLeft(s2, k3, screenWidth);
    StepsAdd(s, k1, across, screenWidth);
    StepsAdd(s, k1 + across, k3, screenWidth);
  }

  /** A full sweep (off the right edge, back off the left edge, and back to
      the start) takes 2 * (screenWidth + width + 1) frames and restores the sprite. */
  lemma SweepIsPeriodic(s: Sprite, screenWidth: int)
    requires InSweep(s, screenWidth)
    ensures Steps(s, 2 * (screenWidth + s.rect.Width() + 1), screenWidth) == s
  {
    if s.dirX == 1 {
      SweepFromRightward(s, screenWidth);
    } else {
      SweepFromLeftward(s, screenWidth);
    }
  }

  /** A 128-pixel sprite starting at the left edge of an 800-pixel screen,
      moving right, whatever its colour and buffer: for 800 frames it keeps
      its direction, and it turns round on the frame its left edge reaches
      800 (its right edge 800 + 128), exactly once in that run. */
  lemma OvershootScenario(s: Sprite, screenWidth: int)
    requires s.rect.left == 0 && s.rect.right == 128 && s.dirX == 1 && screenWidth == 800
    ensures forall k :: 0 <= k <= screenWidth ==>
      Steps(s, k, screenWidth).rect.left == k &&
      Steps(s, k, screenWidth).dirX == (if k < 800 then 1 else -1)
  {
    forall k | 0 <= k <= screenWidth
      ensures Steps(s, k, screenWidth).rect.left == k
      ensures Steps(s, k, screenWidth).dirX == (if k < 800 then 1 else -1)
    {
      RunRight(s, k, screenWidth);
    }
  }

  /** `test_sprites`: seven 128 x 128 sprites on a diagonal; buffers are
      attached later, so the handle here is 0 (no buffer). */
  function TestSprites(): (t: seq<Sprite>)
    ensures |t| == 7
    ensures forall s | s in t :: s.rect.Width() == 128 && s.rect.Height() == 128 && IsUnitDirection(s.dirX)
  {
    [ Sprite(Rect(  0,   0,       128,       128),  1, 0xFF0000FF, 0),
      Sprite(Rect( 64,  64,  64 + 128,  64 + 128),  1, 0xFF00FF00, 0),
      Sprite(Rect(128, 128, 128 + 128, 128 + 128),  1, 0xFFFF0000, 0),
      Sprite(Rect(192, 192, 192 + 128, 192 + 128),  1, 0xFF00FFFF, 0),
      Sprite(Rect(256, 256, 256 + 128, 256 + 128),  1, 0xFFFF00FF, 0),
      Sprite(Rect(320, 320, 320 + 128, 320 + 128), -1, 0xFFFFFF00, 0),
      Sprite(Rect(256, 384, 256 + 128, 384 + 128), -1, 0xFFFFFFFF, 0) ]
  }

  /** On a screen at least 320 pixels wide every demo sprite, whatever
      buffer it carries, is back where it started after 2 * (screenWidth + 129) frames. */
  lemma DemoSpritesArePeriodic(i: nat, buffer: BufferHandle, screenWidth: int)
    requires i < 7 && screenWidth >= 320
    ensures var s := TestSprites()[i].(buffer := buffer);
      Steps(s, 2 * (screenWidth + 129), screenWidth) == s
  {
    var s := TestSprites()[i].(buffer := buffer);
    assert InSweep(s, screenWidth);
    SweepIsPeriodic(s, screenWidth);
  }
}
