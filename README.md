# Noodleland: the hardware-composer frame loop, modelled in Dafny

Noodleland is a small Android demo. It drives the hardware composer (HWC) device directly. It keeps a work list of layers (`gHwcList`), one per sprite. Seven 128 x 128 sprites, each drawn from a buffer holding a 16 x 16-tile checkerboard, sweep horizontally across the screen. Every frame the demo does three things:

- it writes each sprite's rectangle into its layer and moves the sprite one pixel;
- it asks the driver to `prepare` the list, forces skip layers back to the framebuffer and counts framebuffer and overlay layers;
- it commits the list with `set` and clears the list's geometry-changed bit.

The first nonzero status from the driver ends the loop.

The project models this per-frame work. It has five modules:

- `Geometry` (`geometry.dfy`): the Android `Rect`, with `width = right - left`.
- `Sprites` (`sprites.dfy`):
  - the sprite record and the `test_sprites` table;
  - one animation step and its overshoot reversal rule;
  - what repeated steps do, including the sweep period of every demo sprite.
- `Checkerboard` (`checkerboard.dfy`): the pixel formula, and `checkerboard_fill` as nested loops writing into an array.
- `Hwc` (`hwc.dfy`):
  - the layer record and the HAL constants;
  - what the driver's `prepare` may change;
  - the skip-layer classification and the tally;
  - the geometry-bit mask, and the layer contents `update_sprites` writes;
  - the sequence of driver calls the frame loop makes.
- `Composer` (`composer.dfy`): the class `HwcContext`, holding the demo's globals. Its methods are the C procedures: `hwc_create_work_list`, `hwc_prepare_list`, `hwc_commit`, `update_sprites`, one frame of `main`'s loop (`Frame`, and `FrameStep` with the loop's bookkeeping), and the loop itself (`FrameLoop`, after `RunFrames` has sized the list).

The driver is a parameter:
- A `PrepareReply` carries the status of `prepare` and the `compositionType`/`flags` it writes into the listed layers.
- A `FrameReply` adds the status of `set`.
- The endless `for(;;)` loop runs over a finite script of such replies and stops when the script is used up.

The HAL constants come from `hardware/hwcomposer.h`, which is not part of this model. The values used are those of the HWC 0.x header the demo builds against:
- `HWC_GEOMETRY_CHANGED` = 1 (a list flag)
- `HWC_SKIP_LAYER` = 1 (a layer flag)
- `HWC_FRAMEBUFFER` = 0
- `HWC_BLENDING_NONE` = 0x100

The reversal rule follows the code (Noodleland.cpp:238-239):
- Moving left, the sprite turns when `left < -width`, that is when its right edge is below 0.
- Moving right, it turns when `right >= gWidth + width`, that is when its left edge has reached the screen width.

This rule is symmetric: a sprite turns on the first frame it is entirely off the screen on the side it is heading to (`Sprites.Step`, `Sprites.OvershootScenario`).

## Model

| member | source | states |
|---|---|---|
| Geometry.Rect.OffsetBy | Noodleland.cpp:237 | moving a rectangle keeps its width and height and shifts its left and top edges by the offset |
| Sprites.ShouldReverse | Noodleland.cpp:238-239 | the reversal test holds exactly when the moved sprite is entirely off the screen on the side it is heading to: right edge below 0 when moving left, left edge at or past the screen width when moving right |
| Sprites.Step | Noodleland.cpp:237-242 | one frame: left and right move by the old `dirX`; top, bottom, colour and buffer are unchanged; `dirX` is kept or negated and stays +1/-1; it is negated exactly when the sprite has left the screen on its side |
| Sprites.Steps | Noodleland.cpp:226-243 | after any number of frames a sprite keeps its width, height, vertical position, colour, buffer and a unit direction |
| Sprites.RunRight | Noodleland.cpp:237-242 | a sprite moving right keeps its direction for exactly the frames it takes its left edge to reach the screen width, and turns round on that frame |
| Sprites.RunLeft | Noodleland.cpp:237-242 | a sprite moving left keeps its direction until its right edge reaches -1, and turns round on that frame |
| Sprites.StepStaysInSweep | Noodleland.cpp:237-242 | a frame keeps a sprite within the range of positions its sweep passes through |
| Sprites.SweepIsPeriodic | Noodleland.cpp:237-242 | from any position of its sweep, a sprite is back in the same state after 2 * (screen width + width + 1) frames |
| Sprites.OvershootScenario | Noodleland.cpp:190 | the first demo sprite on an 800-pixel screen moves right for 800 frames and turns on the frame its left edge reaches 800 (its right edge 928), not at the screen edge |
| Sprites.TestSprites | Noodleland.cpp:189-197 | the table holds seven sprites, each 128 x 128 with direction +1 or -1 |
| Sprites.DemoSpritesArePeriodic | Noodleland.cpp:189-197 | on a screen at least 320 pixels wide, every demo sprite (with any buffer) returns to its starting state after 2 * (screen width + 129) frames |
| Checkerboard.Bit4IsMask | Noodleland.cpp:148 | the tile test used by the model agrees with the source's `x & 0x10` on every 32-bit coordinate |
| Checkerboard.PixelValue | Noodleland.cpp:148 | on 32-bit coordinates, a pixel is the colour when exactly one of `row & 0x10` and `col & 0x10` is zero, and 0 otherwise: the source's mask formula |
| Checkerboard.CheckerboardTiles | Noodleland.cpp:148 | the pattern is a checkerboard of 16 x 16 tiles: constant on a tile, blank on the tile at the origin, swapped between colour and blank one tile further along either axis |
| Checkerboard.Pattern | Noodleland.cpp:146-151 | the nested loops produce `rows * height` words for `rows` rows |
| Checkerboard.PatternAt | Noodleland.cpp:146-151 | index `row * height + col` lies within the written words and holds pixel (row, col) |
| Checkerboard.CheckerboardFill | Noodleland.cpp:137-154 | if locking fails nothing is written; otherwise exactly the first width * height words become `Pattern` (row after row of `RowWords`, so word row * height + col is pixel (row, col) by `PatternAt`) and the rest of the buffer is unchanged |
| Hwc.DevicePrepared | Noodleland.cpp:71 | the driver's `prepare` changes only `compositionType` and `flags`, and only of the listed layers |
| Hwc.Classify | Noodleland.cpp:85-88 | a skip layer becomes a framebuffer layer; a non-skip layer is unchanged; nothing but `compositionType` changes |
| Hwc.Tally | Noodleland.cpp:80-95 | both counts are non-negative and add up to the number of listed layers |
| Hwc.TallyCountsByType | Noodleland.cpp:90-94 | no overlay is counted exactly when every layer has `compositionType` 0, and no framebuffer layer exactly when none has |
| Hwc.SkipLayersCountAsFramebuffer | Noodleland.cpp:84-95 | after classification every skip layer is counted as framebuffer whatever the driver decided, and a list of skip layers only has no overlay |
| Hwc.ClearGeometryChanged | Noodleland.cpp:105 | the geometry-changed bit is clear afterwards and every other flag bit keeps its value |
| Hwc.SetGeometry | Noodleland.cpp:200-210 | the source crop starts at (0,0) and has the rectangle's size, the display frame is the rectangle, and no other field changes |
| Hwc.SpriteLayer | Noodleland.cpp:229-235 | the layer shows the sprite's buffer at the sprite's rectangle as a framebuffer layer without blending, unscaled (crop size equals frame size), with a visible region of exactly one rectangle, the display frame, and keeps its flags |
| Hwc.FrameCalls | Noodleland.cpp:386-388 | a frame always calls `prepare` first and calls `set` exactly when `prepare` succeeded; its last status is 0 exactly when the frame completed |
| Hwc.FrameCounts | Noodleland.cpp:383-436 | a frame makes one `prepare` and flips exactly when it completed |
| Hwc.SetOnlyAfterSuccessfulPrepare | Noodleland.cpp:386-388 | in the whole run, every `set` call comes directly after a `prepare` that returned 0 |
| Hwc.CallsAlternate | Noodleland.cpp:379-437 | `prepare` and `set` calls alternate, starting with `prepare` |
| Hwc.ErrorEndsTheLoop | Noodleland.cpp:386-388 | a nonzero status from either call can only be the status of the last call of the run |
| Hwc.FlipsFollowPrepares | Noodleland.cpp:430-436 | every prepared frame is flipped, except a last one whose `prepare` or `set` failed |
| Hwc.FlipsCountCompletedFrames | Noodleland.cpp:430-436 | the run flips at most once per frame, and once per frame exactly when no status is an error |
| Hwc.LoopAdvances | Noodleland.cpp:430-436 | a completed frame moves the loop to the next frame with the flip count one higher, wrapping at 2^32 |
| Hwc.LoopStops | Noodleland.cpp:386-388 | a frame that fails ends the run, adding a `prepare` but no flip |
| Composer.HwcContext.constructor | Noodleland.cpp:189-197 | the sprite table is `test_sprites` with the buffers attached, and there is no work list yet |
| Composer.HwcContext.CreateWorkList | Noodleland.cpp:52-66 | returns `NO_ERROR`; without a device nothing changes; with one the header is `n` layers and geometry changed, the list is a fresh allocation of `n` layers when it was absent or counted fewer than `n`, and is the same list otherwise |
| Composer.HwcContext.DevicePrepare | Noodleland.cpp:71 | the driver answers with its status and rewrites only what `prepare` may rewrite |
| Composer.HwcContext.PrepareList | Noodleland.cpp:70-98 | returns the `prepare` status unchanged; when it failed, or no tally is asked for, the list is as the driver left it and no tally is written; otherwise the listed layers are exactly `ClassifyPrefix` of the driver's list (each one `Classify`d) and the tally is `Tally` of them |
| Composer.HwcContext.Commit | Noodleland.cpp:102-109 | returns the `set` status unchanged and clears only the geometry-changed bit, whether or not `set` failed |
| Composer.HwcContext.UpdateSprites | Noodleland.cpp:225-246 | layer n is built from sprite n before its move, sprite n makes one step, later layers are unchanged, and the list flags are `HWC_GEOMETRY_CHANGED` |
| Composer.HwcContext.Frame | Noodleland.cpp:381-436 | one frame animates every sprite by one step and makes the calls of one frame; the flags end clear when `prepare` succeeded and geometry-changed otherwise; every sprite's layer shows the sprite as it stood before the step (buffer, unblended, crop at the origin with the sprite's size, frame and single visible rectangle equal to its rectangle); after a successful `prepare` every listed skip layer is a framebuffer layer |
| Composer.HwcContext.RunFrames | Noodleland.cpp:371-437 | the list is sized to the sprite table; the driver calls are exactly the protocol for the script; `flipCount` is the number of successful commits modulo 2^32; each sprite has made one step per `prepare` call; the flags are clear after a final commit and geometry-changed otherwise; after at least one frame each layer shows its sprite as it stood before the last frame's step, and after a final commit every listed skip layer is a framebuffer layer |
| Composer.HwcContext.FrameLoop | Noodleland.cpp:377-437 | from a list sized to the sprites and marked geometry-changed, the loop ends in the state `Finished` describes: the same calls, flip count, sprite steps, flags and layer contents as stated for `RunFrames` |
| Composer.HwcContext.FrameStep | Noodleland.cpp:381-436 | one pass of the loop body ends the loop exactly when the frame did not complete, leaving the `Finished` state; otherwise the loop state `Running` holds for the next frame, with one more flip |

## Left out

- EGL and GLES setup, `glClear`/`glClearColor`, the framebuffer window queries, `compositionComplete`, and `selectConfigForPixelFormat` (Noodleland.cpp:158-178, 253-324, 417-428). These are calls into the platform API. The screen width `gWidth` is a constructor parameter.
- The AMD performance-counter listing, every `LOGE`, and the compiled-out `NOODLE_DUMP_HWC_LIST` and `NOODLE_DEBUG_CLEAR` blocks. These only produce output.
- HAL loading, `hwc_open`, `registerProcs` and the `hwc_invalidate_cb` callback (Noodleland.cpp:45-48, 350-365). They are device I/O, and the callback does nothing. The device's presence is the constant `hasDevice`. `RunFrames` requires it, as `main` returns before the loop without one.
- `create_composible_buffer`, and the allocation, locking and unlocking of `GraphicBuffer`s in `create_sprites`. These are allocator calls. The constructor takes the buffer handles as a parameter. `checkerboard_fill` works on the locked buffer as an array, or null when locking failed.
- Composer.HwcContext.CreateWorkList: the byte size passed to `malloc` and a failing `malloc` are not modelled. A fresh allocation is a new array whose contents the model does not fix, as `malloc` leaves them undefined.
- Checkerboard.CheckerboardFill: the buffer's stride is ignored, as in the source, which writes `width * height` consecutive words.
- Checkerboard.PixelValue: the source multiplies the colour by a 0/1 factor. The model writes this as a choice between the colour and 0, which is the same 32-bit value.
- The fields `hints` and `transform` of a layer, which the demo never writes. The layer's `visibleRegionScreen.rects` pointer into its own `displayFrame` is modelled as a one-element list holding a copy of the frame.
- Geometry.Rect.OffsetBy: `Rect` coordinates are unbounded integers here. The 32-bit overflow of the C `int` edges is not modelled; it would need about 2^31 frames of motion on a screen that wide.
- Composer.HwcContext.RunFrames: the endless `for(;;)` loop is modelled over a finite script of driver replies. Its properties are stated for every prefix of a run. The `hwc_layer_t& ll` reference at line 381 is unused and left out.
- The driver's `prepare` and `set` are modelled only through their statuses and the `compositionType`/`flags` verdicts `prepare` writes. Their internals are not part of this model.
