# webrender-embed core, modelled in Dafny

This project models the three small pieces of logic at the centre of the
webrender-embed experiments. Everything else in the repository is window, GL
and renderer glue.

- **Store** (`State`, state.dfy). This is the reducer-based state container of
  src/state.rs. A `Store<T, Msg>` class owns a mutable `state` field and a
  fixed `reducer`, a total function `(T, Msg) -> T` like Rust's
  `fn(&T, Msg) -> T`.
  - `Update` replaces the state with the reducer's result.
  - `Set` overwrites the state.
  - `Selector` returns a `View`. A view holds the store itself, not a copy of
    its state, so `View.Call` re-reads the state on every call.
  - Two ghost fields record the last value given to the constructor or to
    `Set` (`base`) and the messages sent since then (`history`).
  - The class invariant `Valid()` says the state is always the left fold
    `Fold(reducer, base, history)`.
- **Text layout** (`Text`, text.dfy). This is `LayoutedText::new` from
  src/text.rs.
  - The renderer's two font-service queries are foreign code. They are
    modelled by their results: a `GlyphService` value holding two total
    functions.
  - The metrics query receives the indices that are already filtered, as in
    the source.
  - Missing indices and missing metrics are dropped (`Somes`). The surviving
    metrics are folded left to right into a bounding size. The width is the
    sum of the advances. The height is the maximum of 0 and every glyph's
    `height + (height - top)`.
- **Demo helpers** (`Demo`, demo.dfy). These come from src/main.rs:
  - `HandyDandyRectBuilder::to` and `::by`, which build a layout rectangle from
    an i32 origin;
  - the `Message::Incr` counter reducer that the demo plugs into a store;
  - the click handling that sends one `Incr` per click through the store and
    reads the state back through a selector.

`Geometry` (geometry.dfy) holds the layout point, size and rectangle values
that both of the other modules use.

Notes on the source as shown:

- src/state.rs as shown defines only `Store`, with `set`. `ImmutableStore`,
  imported at src/main.rs:20, is not in it and is not part of this model.
  The demo's counter reducer is therefore plugged into `Store`.
- The vertical extent of a glyph is `height + (height - top)`, as written at
  src/text.rs:27.

## Model

| member | source | states |
|---|---|---|
| `State.Store.constructor` | src/state.rs:7-12 | the new store's state is `initial` and its reducer is the one given; the invariant holds with an empty message history |
| `State.Store.Update` | src/state.rs:14-16 | the state becomes `reducer(old state, msg)`; the reducer is a constant; the invariant "state is the fold of the messages since the last reset" is preserved with `msg` appended |
| `State.Store.Set` | src/state.rs:18-20 | the state becomes exactly `value` whatever it was; the history restarts from `value` |
| `State.Store.Selector` | src/state.rs:22-24 | the selector holds this store and the projection, not a snapshot of the state |
| `State.View.Call` | src/state.rs:23 | calling a selector yields the projection of the store's state at call time; it only reads the store |
| `State.FoldSnoc` | src/state.rs:14-16 | folding one more message is applying the reducer once more to the folded state |
| `State.FoldAppend` | src/state.rs:14-16 | folding `a + b` is folding `b` from the state that folding `a` reached |
| `State.UpdateAll` | src/state.rs:14-16 | updating with m1..mn one at a time leaves the left fold of the reducer over the old state and the messages |
| `State.SetThenUpdate` | src/state.rs:14-20 | `set(v)` then `update(m)` leaves `reducer(v, m)` |
| `State.SetTwice` | src/state.rs:18-20 | `set(v); set(v)` leaves the store as `set(v)` does: state `v` and an empty history from `v` |
| `State.ViewIsLive` | src/state.rs:14-24 | a selector taken before an update returns the projection of the old state before it and of the new state after it |
| `Text.Somes` | src/text.rs:15-24 | dropping the missing lookup results never lengthens the sequence; nothing is dropped exactly when every lookup succeeded; the kept values are exactly the present ones |
| `Text.SomesAppend` | src/text.rs:15-19 | filtering commutes with concatenation, so the kept values stay in input order |
| `Text.SomesAllPresent` | src/text.rs:15-19 | when every lookup succeeded, the i-th kept value is the i-th result |
| `Geometry.MaxReal` | src/text.rs:28 | `f32::max` on values that are not NaN: the result is at least both arguments and is one of them |
| `Text.Extent` | src/text.rs:27 | a glyph's vertical extent exceeds its height by the part below the baseline, `height - top` |
| `Text.SizeStep` | src/text.rs:27-28 | one fold step adds the glyph's advance to the width; the new height is the larger of the old height and the glyph's extent |
| `Text.FoldSize` | src/text.rs:26-29 | the left fold over the metrics returns the start unchanged for no metrics and never lowers the height |
| `Text.FoldSizeWidth` | src/text.rs:26-28 | the left fold's width is the starting width plus the sum of all advances |
| `Text.FoldSizeHeight` | src/text.rs:26-29 | the left fold's height is at least the starting height and every glyph's extent, and equals one of them |
| `Text.BoundingSize` | src/text.rs:26-31 | the size folded from (0, 0) has the total advance as its width; its height is at least 0 and at least every glyph's extent, and it is 0 or one of those extents; with no metrics it is (0, 0) |
| `Text.Layout` | src/text.rs:14-41 | text and keys are stored unchanged; the indices are the present index results; the metrics are the present results of the lookup on those indices; neither is longer than its lookup; the size is the width sum and the height maximum of the kept metrics, and (0, 0) when none are kept |
| `Text.LayoutDimensionsBound` | src/text.rs:20-24 | when the metrics service answers once per index, there are no more metrics than indices |
| `Text.UnmeasuredIndexIsKept` | src/text.rs:15-24 | an index whose metrics are missing stays among the indices, so the indices and metrics can differ in length, and the size is then (0, 0) |
| `Demo.To` | src/main.rs:105-110 | `(x, y).to(x2, y2)` has origin `(x, y)` and far corner `(x2, y2)` |
| `Demo.By` | src/main.rs:112-117 | `(x, y).by(w, h)` has origin `(x, y)`, size `(w, h)` and far corner `(x + w, y + h)` |
| `Demo.ToAgreesWithBy` | src/main.rs:102-118 | `(x, y).to(x + w, y + h)` equals `(x, y).by(w, h)` |
| `Demo.ToSelfIsEmpty` | src/main.rs:108 | `(x, y).to(x, y)` is the zero-size rectangle at `(x, y)` |
| `Demo.Counter` | src/main.rs:183-187 | the demo reducer advances the counter by exactly one on `Incr`, its only message (src/main.rs:64-66) |
| `Demo.CounterFoldCounts` | src/main.rs:183-187 | folding the `Incr => s + 1` reducer over n messages from `s` gives `s + n` |
| `Demo.ClickScenario` | src/main.rs:230-232 | with a store built from 0 and the counter reducer, as at src/main.rs:183-189, a selector taken before any click shows 0, and after n clicks, each an `Incr` update, it shows n |

## Left out

- The event loop, window and GL surface creation, the luminance pipeline, the render notifier, `draw_to_transaction` and sending transactions (src/main.rs:120-284) are I/O and foreign-library plumbing.
- Loading the font file (src/main.rs:170-175) is file I/O.
- The font service's `get_glyph_indices` and `get_glyph_dimensions` are foreign calls. Only their results are modelled, as arbitrary total functions. Which glyphs a font actually has is not modelled.
- `ImmutableStore`, `DynamicLabel` and `WebrenderUpdateContext` are used by src/main.rs but their source is not part of this model. So the label's memoised relayout and its glyph positioning are not modelled.
- `Widget` and `Rect::draw` (src/widget.rs) only forward to the display-list builder. `Component` (src/component.rs) declares methods without bodies. Neither has behaviour to model.
- Floating point is not modelled. The advances, the sizes and the `as f32` casts are exact reals, so rounding and NaN are not captured. `f32::max` is taken as the real maximum.
- The glyph extents `height + (height - top)` are unbounded integers. The i32 overflow that very large metrics could cause is not modelled.
- Demo.To: requires both i32 subtractions to stay within i32, where Rust panics in debug builds and wraps in release builds. The wrapped result of a release build is not modelled.
- Demo.CounterFoldCounts: the counter state is an unbounded integer. The i32 overflow of `s + 1` at 2^31 - 1 is not modelled.
- Borrowing and lifetimes on `selector` are not modelled. A view holds a reference to its store, and nothing stops it outliving the store's owner.
- State.ViewIsLive: lets `Update` run while a `View` is held. In src/state.rs the selector at line 22 keeps a shared borrow of the store, and `update` and `set` (lines 14 and 18) need `&mut self`, so Rust rejects this sequence for the shown `Store`. The member shows only that the closure at src/state.rs:23 reads the state at call time, not a sequence the shown `Store` accepts.
- Demo.ClickScenario: likewise calls `Update` while a `View` is held, which the borrow at src/state.rs:22 forbids for the shown `Store`. The demo does this through `ImmutableStore` (src/main.rs:183-189, 231), which is not part of this model. The member shows the call-time read of the selector closure, not the borrow rules of the store the demo actually uses.
