/** The pure pieces of the demo program in src/main.rs: the
    `HandyDandyRectBuilder` helpers that build a rectangle from an i32 origin,
    and the counter reducer the demo plugs into the store. */
module Demo {
  import opened Geometry
  import State

  /** Rust's i32. */
  newtype i32 = x: int | InI32(x)

  /** The range of Rust's i32. */
  predicate InI32(x: int)
  {
    -0x8000_0000 <= x < 0x8000_0000
  }

  /** `(x, y).to(x2, y2)`: the rectangle from corner `(x, y)` to corner
      `(x2, y2)`. The size is computed by i32 subtraction, which must not
      overflow. */
  function To(p: (i32, i32), x2: i32, y2: i32): (r: LayoutRect)
    requires InI32(x2 as int - p.0 as int) && InI32(y2 as int - p.1 as int)
    ensures r.origin == LayoutPoint(p.0 as real, p.1 as real)
    ensures r.Max() == LayoutPoint(x2 as real, y2 as real)
  {
    LayoutRect(
      LayoutPoint(p.0 as real, p.1 as real),
      LayoutSize((x2 - p.0) as real, (y2 - p.1) as real))
  }

  /** `(x, y).by(w, h)`: the rectangle at `(x, y)` with width `w` and height `h`. */
  function By(p: (i32, i32), w: i32, h: i32): (r: LayoutRect)
    ensures r.origin == LayoutPoint(p.0 as real, p.1 as real)
    ensures r.size == LayoutSize(w as real, h as real)
    ensures r.Max() == LayoutPoint(p.0 as real + w as real, p.1 as real + h as real)
  {
    LayoutRect(
      LayoutPoint(p.0 as real, p.1 as real),
      LayoutSize(w as real, h as real))
  }

  /** The two builders agree: going to `(x + w, y + h)` is going by `(w, h)`. */
  lemma ToAgreesWithBy(p: (i32, i32), w: i32, h: i32)
    requires InI32(p.0 as int + w as int) && InI32(p.1 as int + h as int)
    ensures To(p, (p.0 as int + w as int) as i32, (p.1 as int + h as int) as i32) == By(p, w, h)
  {
  }

  /** Going to the origin itself gives an empty rectangle there. */
  lemma ToSelfIsEmpty(p: (i32, i32))
    ensures To(p, p.0, p.1) == LayoutRect(LayoutPoint(p.0 as real, p.1 as real), LayoutSize(0.0, 0.0))
  {
  }

  /** The demo's only message. */
  datatype Message = Incr

  /** The demo's reducer: every message counts one up. */
  function Counter(s: int, m: Message): (r: int)
    ensures r - s == 1
  {
    match m
    case Incr => s + 1
  }

  /** Folding the counter over any messages adds their number. */
  lemma {:induction false} CounterFoldCounts(s: int, msgs: seq<Message>)
    ensures State.Fold(Counter, s, msgs) == s + |msgs|
    decreases |msgs|
  {
    if msgs != [] {
      CounterFoldCounts(Counter(s, msgs[0]), msgs[1..]);
    }
  }

  /** The demo's click handling: a store starting at 0 with the counter
      reducer, a selector taken before any click, and one `Incr` update per
      click. The selector reads the initial state before the clicks and the
      click count after them. */
  method ClickScenario<O>(clicks: nat, proj: int -> O) returns (shownFirst: O, shownLast: O)
    ensures shownFirst == proj(0)
    ensures shownLast == proj(clicks)
  {
    var store := new State.Store(0, Counter);
    var view := store.Selector(proj);
    shownFirst := view.Call();
    var n := 0;
    while n < clicks
      invariant 0 <= n <= clicks
      invariant store.Valid()
      invariant store.reducer == Counter
      invariant store.state == n
    {
      store.Update(Incr);
      n := n + 1;
    }
    shownLast := view.Call();
  }
}
