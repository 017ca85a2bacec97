# rgb-matrix-scenery: panels, scenes, the render tick and two behaviours

This project models, in Dafny, the scheduling core of an RGB-matrix show:

- **Panels and scenes** (`scene.dfy`, module `Scenes`). A `Panel` is a window of
  frames. It starts at its delay and ends at `delay + frames`, inclusive at
  both ends. `DisplayAt` gives the two flags of `Panel._display`: whether the
  panel renders at a frame, and whether it has ended. A `Scene` is an ordered
  list of panels. `Load` walks the panels in order. It appends the objects of
  each panel that renders, and it reports whether some panel has not ended.
- **The render loop** (`matrix.dfy`, module `Matrix`). `Tick` is one iteration
  of `MatrixThreader.run`. It clears the surface, renders the loaded objects,
  flushes, and then advances the two frame counters. The relative counter
  resets to 0 once every panel has ended. Rendering a plain `MatrixObject`
  raises `MatrixObjectError`, which nothing catches: the tick then stops
  before the flush, and the loop ends. `Run` iterates ticks from the initial
  counters until one raises. `StringWidth` is `string_width`, with the widths table
  given as a map.
- **Behaviours** (`runner.dfy`, module `Runner`). `Counter` writes a running
  count into its owner's text. `Sliding` moves its owner one column left per
  update. It jumps back to the right edge when the position is exactly
  `-last_length`.

The shared modules are `Wrappers` (`Option`, `Result`) and `Modular` (counting
modulo a period).

All state is immutable, so `Load` and `DisplayAt` cannot change a panel.
Python mutates objects in place; here an operation takes a value and returns
the changed value. In particular:

- `Scene.load` appends to the list it is given; `Load` returns the extended
  list.
- `create_panel` returns a reference that show code later configures.
  `CreatePanel` returns the new panel's position instead, and `SetPanel`
  replaces the panel at that position.

The main results:

- A panel renders on exactly `frames + 1` frames.
- The draw list of a tick is exactly the objects of the visible panels. It
  keeps panel order, then object order, and keeps duplicates.
- While the loop runs, its relative frame count equals `n mod (MaxEnd + 1)`
  after `n` ticks, where `MaxEnd` is the latest end frame of any panel. It
  never exceeds the latest end frame.
- The loop runs forever, restarting the show, exactly when every object of
  every panel is a `Text`. A plain object ends it, at the latest on the first
  frame its panel is drawn.
- Started by `before`, a sliding position runs from `cols` down to `-L` and
  wraps with period `cols + L + 1`.

## Model

| member | source | states |
|---|---|---|
| Scenes.NewMatrixObject | scene.py:21-23 | a plain object has the given position and no text, colour or `last_length` |
| Scenes.NewText | scene.py:34-38 | a text object has the given position, text and colour, and no `last_length` yet |
| Scenes.NewPanel | scene.py:46-52 | a new panel has no objects, zero frames and zero delay |
| Scenes.SetDuration | scene.py:54-55 | `duration` sets the frame count to refresh rate times seconds and leaves the delay and objects alone |
| Scenes.SetFrames | scene.py:57-58 | `frames` sets the frame count directly and leaves the delay and objects alone |
| Scenes.SetDelay | scene.py:60-61 | `delay` sets the start frame to refresh rate times seconds and leaves the frame count and objects alone |
| Scenes.Add | scene.py:63-67 | a drawable object is appended after the earlier objects, which keep their order; any other value gives `MatrixObjectError` and no new panel |
| Scenes.DisplayAt | scene.py:69-74 | renders iff `delay <= f <= delay + frames`; ended iff `f >= delay + frames` |
| Scenes.RenderAndEndedOnlyAtEnd | scene.py:74 | both flags hold together exactly on the end frame |
| Scenes.NewPanelVisibleOnlyAtZero | scene.py:51-74 | a default panel renders only at frame 0 and has ended at every frame |
| Scenes.PanelRendersFramesPlusOne | scene.py:69-74 | counted over all frames, a panel renders on exactly `frames + 1` of them (the window is inclusive at both ends) |
| Scenes.RenderedBelow | scene.py:69-74 | below frame `n`, a panel has rendered 0 times before its delay and `n - delay` times inside its window |
| Scenes.OneSecondPanel | scene.py:54-74 | one second at 20 fps: renders on frames 0..20, ended from frame 20 |
| Scenes.DelayedPanel | scene.py:54-74 | delay 2 s and duration 3 s at 20 fps: renders on frames 40..100, ended from frame 100 |
| Scenes.NewScene | scene.py:77-79 | a new scene has no panels |
| Scenes.CreatePanel | scene.py:81-85 | appends one default panel at the end, returns its position, and leaves the earlier panels untouched |
| Scenes.SetPanel | scene.py:81-85 | configuring the returned panel changes that panel only; every other panel is unchanged |
| Scenes.Load | scene.py:87-100 | the incoming draw list is kept as a prefix of the result: `load` only appends |
| Scenes.LoadFromObjects | scene.py:90-95 | after visiting panels `i..`, the draw list is the list so far followed by each later panel's objects if it renders |
| Scenes.LoadFromContinues | scene.py:88-100 | after visiting panels `i..`, the flag holds iff it already held or some later panel ends after the frame |
| Scenes.LoadSpec | scene.py:87-100 | the draw list is the incoming list followed by the rendering panels' objects, in panel order then object order; the flag holds iff some panel has not ended; the absolute frame count plays no part |
| Scenes.LoadMembership | scene.py:90-95 | an object is in the draw list iff it was in the incoming list or belongs to a panel that renders at the frame |
| Scenes.LoadKeepsDuplicates | scene.py:90-95 | an object held by two rendering panels appears at least twice; duplicates are not removed |
| Scenes.LoadContinuesBeforeMaxEnd | scene.py:88-100 | the flag holds iff the frame is before the latest end frame; with no panels it is false |
| Matrix.StringWidth | matrix.py:22-23 | the width is defined iff the table covers every character; otherwise the error names a missing character of `s`; the empty string has width 0 |
| Matrix.StringWidthAppend | matrix.py:22-23 | the width of `s + t` is defined iff both widths are, and it is their sum |
| Matrix.StringWidthIsSum | matrix.py:22-23 | when the table covers `s`, the width equals the character-by-character sum |
| Matrix.RenderCalls | matrix.py:83-84 | one render call per object, in draw-list order |
| Matrix.RenderedBeforeError | matrix.py:83-84 | the render loop gets through exactly the leading text objects: every object before the returned position is a text, the object at it is plain, and it reaches the end iff all are texts |
| Matrix.InitialLoopState | matrix.py:72-73 | both counters start at 0 |
| Matrix.Tick | matrix.py:75-91 | a tick returns iff every loaded object is a text; then the absolute count grows by one and the relative count either resets to 0 or grows by one; when it raises, the surface was cleared and never flushed |
| Matrix.TickRendersVisibleObjects | matrix.py:76-86 | a tick calls clear, then renders exactly the objects of the panels visible at the relative frame in order, then flushes; if one of them is plain, it renders those before it and stops without a flush |
| Matrix.TickCounters | matrix.py:81-91 | when the tick returns, the relative count grows by one iff some panel has not ended at it; otherwise it resets to 0 |
| Matrix.TickAdvance | matrix.py:81-91 | the counters a tick leaves, stated against the latest end frame of the scene |
| Matrix.Run | matrix.py:72-91 | while the loop runs, after `n` ticks the absolute count is `n` and the relative count is at most `n` |
| Matrix.RunStep | matrix.py:75-91 | a tick returns only after the previous one returned, and advances its counters by that rule |
| Matrix.RunRelativeAtMostMaxEnd | matrix.py:73-91 | while the loop runs, the relative count never exceeds the latest end frame, and stays 0 when there are no panels |
| Matrix.RunRelativeCycles | matrix.py:73-91 | while the loop runs, after `n` ticks the relative count is `n mod (latest end + 1)`, so the show restarts |
| Matrix.LoadAllText | scene.py:87-100 | a scene whose objects are all texts loads only texts |
| Matrix.RunSucceedsOnTextScenes | matrix.py:75-91 | a scene whose objects are all texts never raises, so the loop runs on for any number of ticks |
| Matrix.PlainObjectStopsRun | scene.py:28-31 | a plain object in a panel ends the loop no later than the tick at that panel's start frame |
| Matrix.RunsForeverIffAllText | matrix.py:75-91 | the loop runs forever iff every object of every panel is a text |
| Runner.DecimalString | runner.py:17 | `str` of a count is a non-empty string of decimal digits with no leading zero |
| Runner.DecimalRoundTrip | runner.py:17 | reading back the digits gives the count again |
| Runner.DecimalStringInjective | runner.py:17 | different counts give different texts |
| Runner.CounterBefore | runner.py:13-14 | `before` sets the count to 0 |
| Runner.CounterUpdate | runner.py:16-18 | the owner's text becomes `str` of the current count, a digit string reading back as the count, the count grows by one, and no other owner attribute changes |
| Runner.CounterAfterUpdates | runner.py:13-18 | after `before` and `k >= 1` updates the count is `k` and the text is `str(k - 1)`; other owner attributes are unchanged |
| Runner.SlidingBefore | runner.py:21-22 | `before` puts the position at the matrix width |
| Runner.SlidingUpdate | runner.py:24-33 | without a positive `last_length` nothing changes; otherwise the position moves left by one or jumps to `cols`, jumping exactly at `-last_length`; x follows the position; nothing else changes |
| Runner.SlidingKeepsLength | runner.py:24-33 | updates never change the owner's `last_length`, so the wrap point stays fixed |
| Runner.SlidingIdleWithoutWidth | runner.py:25-27 | with `last_length` missing, zero or negative, any number of updates changes nothing |
| Runner.SlidingCycles | runner.py:21-33 | after `before` and `k` updates the position is `cols - k mod (cols + L + 1)`, within `[-L, cols]` |
| Runner.SlidingBelowNeverWraps | runner.py:28-31 | below `-L` the equality test never fires, so each update moves one column further left |
| Runner.Before | runner.py:8-22 | the base state's `before` does nothing; a counter resets its count; a sliding behaviour moves to the matrix width |
| Runner.Update | runner.py:8-33 | the base state has no `update` and fails; a counter writes `str` of its count into the owner's text and counts on by one, changing nothing else; a sliding behaviour stays sliding, takes the position and x from the sliding rule, and leaves the text alone |

## Left out

- Hardware and drawing. This covers `RGBMatrix`, `RGBMatrixOptions`, `CreateFrameCanvas`, `SwapOnVSync`, `Clear`, `graphics.DrawText`, font loading, `CharacterWidth`, `widths`, `Text._render` and `Color.native`. They are foreign calls with no visible semantics. A tick records its surface calls as `Clear`, `Render(obj)` and `Flush`, and the widths table is an input map.
- The thread, `time.sleep` pacing, the infinite `while True` and the unreachable `stop()`. The model has a pure tick and its finite iterates.
- Recurring-task scheduling (`every`, `do`, `times`, fire counts, `MatrixRunner`). `runner.py` calls them, but `MatrixObject` and `Text` define no `every`, `do` or `times`, and `matrix.py` defines no `MatrixRunner`, so they have no behaviour to model.
- `Modifier`, `CenterHorizontally` and `MatrixObject.apply`. `Modifier.modify` raises through the undefined name `Error`. `CenterHorizontally.modify` uses the undefined names `text` and `string_width` and the unset `self.base`, and assigns only a local. So neither has coherent behaviour. `apply` only forwards to a modifier's `modify`, so it is left out with them.
- `RandomColor`. It is nondeterministic.
- `runner()` and the `__main__` block. They are show-definition glue.
- Fractional seconds and negative counts. `duration` and `delay` take whole seconds and a whole refresh rate, so frame counts are `nat`. `SetFrames` covers any whole non-negative frame count. Python's `frames(n)` also accepts a negative or fractional `n`; a negative `n` gives a window that never renders, and such counts are left out.
- Runner.SlidingUpdate: treats a `last_length` attribute that was never set the same as `None`, where Python would raise `AttributeError`. The position also exists from the start: with a positive `last_length`, Python raises `AttributeError` if `update` runs before `before`.
- Runner.CounterUpdate: the count exists from the start. Python raises `AttributeError` if `update` runs before `before`.
- Matrix.Tick: its own contract only says the relative count resets or grows by one. `Matrix.TickCounters` and `Matrix.TickAdvance` give the exact rule. A halted tick records the calls made and the error, not what the raised exception does outside the loop's thread.
