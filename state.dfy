/** The reducer-based state container of src/state.rs.

    A `Store` owns one state value and a reducer, a total function from the
    current state and a message to the next state. `Update` replaces the state
    by the reducer's result, `Set` overwrites it, and a selector is a live view
    that re-reads the current state every time it is called. */
module State {

  /** The state reached from `s` by feeding the messages to the reducer one
      after the other, first message first: a left fold. */
  function Fold<T, Msg>(reducer: (T, Msg) -> T, s: T, msgs: seq<Msg>): T
    decreases |msgs|
  {
    if msgs == [] then s else Fold(reducer, reducer(s, msgs[0]), msgs[1..])
  }

  /** Folding one more message applies the reducer once more to the folded state. */
  lemma {:induction false} FoldSnoc<T, Msg>(reducer: (T, Msg) -> T, s: T, msgs: seq<Msg>, m: Msg)
    ensures Fold(reducer, s, msgs + [m]) == reducer(Fold(reducer, s, msgs), m)
    decreases |msgs|
  {
    if msgs != [] {
      assert (msgs + [m])[1..] == msgs[1..] + [m];
      FoldSnoc(reducer, reducer(s, msgs[0]), msgs[1..], m);
    }
  }

  /** Folding a concatenation is folding the second part from where the first left off. */
  lemma {:induction false} FoldAppend<T, Msg>(reducer: (T, Msg) -> T, s: T, a: seq<Msg>, b: seq<Msg>)
    ensures Fold(reducer, s, a + b) == Fold(reducer, Fold(reducer, s, a), b)
    decreases |a|
  {
    if a != [] {
      assert (a + b)[0] == a[0] && (a + b)[1..] == a[1..] + b;
      FoldAppend(reducer, reducer(s, a[0]), a[1..], b);
    } else {
      assert a + b == b;
    }
  }

  class Store<T, Msg> {
    /** The one state value the store owns. */
    var state: T
    /** The reducer, fixed when the store is created. */
    const reducer: (T, Msg) -> T

    // Public view for proofs: the value last given to the constructor or to
    // `Set`, and the messages passed to `Update` since then.
    ghost var base: T
    ghost var history: seq<Msg>

    /** The state is always the reducer folded over the messages since the
        last reset. */
    ghost predicate Valid()
      reads this
    {
      state == Fold(reducer, base, history)
    }

    constructor (initial: T, reducer: (T, Msg) -> T)
      ensures Valid()
      ensures state == initial && this.reducer == reducer
      ensures base == initial && history == []
    {
      state := initial;
      this.reducer := reducer;
      base := initial;
      history := [];
    }

    /** Replaces the state by the reducer's result on the old state and `msg`. */
    method Update(msg: Msg)
      requires Valid()
      modifies this
      ensures Valid()
      ensures state == reducer(old(state), msg)
      ensures base == old(base) && history == old(history) + [msg]
    {
      FoldSnoc(reducer, base, history, msg);
      state := reducer(state, msg);
      history := history + [msg];
    }

    /** Overwrites the state with `value`, whatever it was before. */
    method Set(value: T)
      modifies this
      ensures Valid()
      ensures state == value
      ensures base == value && history == []
    {
      state := value;
      base := value;
      history := [];
    }

    /** A view that projects the store's current state through `sel`. */
    function Selector<O>(sel: T -> O): (v: View<T, Msg, O>)
      ensures v.store == this && v.proj == sel
    {
      View(this, sel)
    }
  }

  /** The closure a selector returns: it holds the store, not a copy of its
      state, so each call sees the state at call time. */
  datatype View<!T, Msg, O> = View(store: Store<T, Msg>, proj: T -> O) {
    function Call(): (o: O)
      reads store
      ensures o == proj(store.state)
    {
      proj(store.state)
    }
  }

  /** Sending `msgs` to the store one `Update` at a time leaves the left fold
      of the reducer over the old state and the messages. */
  method UpdateAll<T, Msg>(s: Store<T, Msg>, msgs: seq<Msg>)
    requires s.Valid()
    modifies s
    ensures s.Valid()
    ensures s.state == Fold(s.reducer, old(s.state), msgs)
    ensures s.base == old(s.base) && s.history == old(s.history) + msgs
  {
    var i := 0;
    while i < |msgs|
      invariant 0 <= i <= |msgs|
      invariant s.Valid()
      invariant s.state == Fold(s.reducer, old(s.state), msgs[..i])
      invariant s.base == old(s.base) && s.history == old(s.history) + msgs[..i]
    {
      FoldSnoc(s.reducer, old(s.state), msgs[..i], msgs[i]);
      assert msgs[..i + 1] == msgs[..i] + [msgs[i]];
      s.Update(msgs[i]);
      i := i + 1;
    }
    assert msgs[..i] == msgs;
  }

  /** `Set(v)` then `Update(m)` leaves `reducer(v, m)`: the reducer starts
      from the value that was set. */
  method SetThenUpdate<T, Msg>(s: Store<T, Msg>, v: T, m: Msg)
    modifies s
    ensures s.Valid()
    ensures s.state == s.reducer(v, m)
  {
    s.Set(v);
    s.Update(m);
  }

  /** Setting the same value twice leaves the store exactly as setting it once. */
  method SetTwice<T, Msg>(s: Store<T, Msg>, v: T)
    modifies s
    ensures s.Valid()
    ensures s.state == v && s.base == v && s.history == []
  {
    s.Set(v);
    s.Set(v);
  }

  /** A view taken before an update observes the state after it. */
  method ViewIsLive<T, Msg, O>(s: Store<T, Msg>, sel: T -> O, m: Msg) returns (before: O, after: O)
    requires s.Valid()
    modifies s
    ensures before == sel(old(s.state))
    ensures after == sel(s.reducer(old(s.state), m))
    ensures s.state == s.reducer(old(s.state), m)
  {
    var view := s.Selector(sel);
    before := view.Call();
    s.Update(m);
    after := view.Call();
  }
}
