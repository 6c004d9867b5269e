/**
 * The RxJava 1 operators the loader composes: `just`, `doOnNext`, `concat` and `first(predicate)`.
 * A cold, synchronous observable is modelled by what one subscription to it produces, in order:
 * the side effects it performs (`Effect`) interleaved with the signals it delivers (`Next`,
 * `Error`, `Completed`). A source that `concat` never subscribes to, or that `first` abandons,
 * contributes nothing, so its side effects are never performed.
 */
module Rx {
  datatype Event<E, T, X> = Effect(effect: E) | Next(value: T) | Error(error: X) | Completed

  /** No terminal signal yet. */
  predicate Open<E, T, X>(s: seq<Event<E, T, X>>) {
    forall i :: 0 <= i < |s| ==> !s[i].Completed? && !s[i].Error?
  }

  /** Side effects performed in order, with no signal. */
  function Lift<E, T, X>(effects: seq<E>): seq<Event<E, T, X>> {
    if |effects| == 0 then [] else [Effect(effects[0])] + Lift(effects[1..])
  }

  /** The side effects of a subscription, in order. */
  function Effects<E, T, X>(s: seq<Event<E, T, X>>): seq<E> {
    if |s| == 0 then []
    else (if s[0].Effect? then [s[0].effect] else []) + Effects(s[1..])
  }

  /** The values a subscription delivers through `onNext`, in order. */
  function Emitted<E, T, X>(s: seq<Event<E, T, X>>): seq<T> {
    if |s| == 0 then []
    else (if s[0].Next? then [s[0].value] else []) + Emitted(s[1..])
  }

  /** The signals a subscriber receives, in order. */
  function Signals<E, T, X>(s: seq<Event<E, T, X>>): seq<Event<E, T, X>> {
    if |s| == 0 then []
    else (if s[0].Effect? then [] else [s[0]]) + Signals(s[1..])
  }

  /** `Observable.just(v)`: emits `v`, then completes. */
  function Just<E, T, X>(v: T): seq<Event<E, T, X>> {
    [Next(v), Completed]
  }

  /** `doOnNext(action)`: performs `action` on each value before passing it on. */
  function DoOnNext<E, T, X>(s: seq<Event<E, T, X>>, action: T -> seq<E>): seq<Event<E, T, X>> {
    if |s| == 0 then []
    else (if s[0].Next? then Lift(action(s[0].value)) + [s[0]] else [s[0]]) + DoOnNext(s[1..], action)
  }

  /** `concat(a, b)`: `a`, and once `a` completes, a subscription to `b`; an error of `a` ends the stream. */
  function Concat<E, T, X>(a: seq<Event<E, T, X>>, b: seq<Event<E, T, X>>): seq<Event<E, T, X>> {
    if |a| == 0 then []
    else if a[0].Completed? then b
    else if a[0].Error? then [a[0]]
    else [a[0]] + Concat(a[1..], b)
  }

  /**
   * `first(accept)`: passes on the first value that satisfies `accept` and completes,
   * unsubscribing from the source; fails with `noSuchElement` when the source completes first.
   */
  function First<E, T, X>(s: seq<Event<E, T, X>>, accept: T -> bool, noSuchElement: X): seq<Event<E, T, X>> {
    if |s| == 0 then []
    else if s[0].Effect? then [s[0]] + First(s[1..], accept, noSuchElement)
    else if s[0].Next? then
      (if accept(s[0].value) then [s[0], Completed] else First(s[1..], accept, noSuchElement))
    else if s[0].Error? then [s[0]]
    else [Error(noSuchElement)]
  }

  // ---- Laws ----

  lemma {:induction false} EffectsAppend<E, T, X>(a: seq<Event<E, T, X>>, b: seq<Event<E, T, X>>)
    ensures Effects(a + b) == Effects(a) + Effects(b)
    ensures Emitted(a + b) == Emitted(a) + Emitted(b)
    ensures Signals(a + b) == Signals(a) + Signals(b)
  {
    if |a| != 0 {
      assert (a + b)[1..] == a[1..] + b;
      EffectsAppend(a[1..], b);
    } else {
      assert a + b == b;
    }
  }

  /** Lifted effects are open, are exactly those effects, and deliver nothing. */
  lemma {:induction false} LiftFacts<E, T, X>(effects: seq<E>)
    ensures Open<E, T, X>(Lift(effects))
    ensures Effects<E, T, X>(Lift(effects)) == effects
    ensures Emitted<E, T, X>(Lift(effects)) == [] && Signals<E, T, X>(Lift(effects)) == []
  {
    if |effects| != 0 {
      LiftFacts<E, T, X>(effects[1..]);
      assert [effects[0]] + effects[1..] == effects;
    }
  }

  /** `concat` passes on what the first source delivers before it terminates. */
  lemma {:induction false} ConcatAfterOpen<E, T, X>(prefix: seq<Event<E, T, X>>, a: seq<Event<E, T, X>>, b: seq<Event<E, T, X>>)
    requires Open(prefix)
    ensures Concat(prefix + a, b) == prefix + Concat(a, b)
  {
    if |prefix| != 0 {
      assert (prefix + a)[1..] == prefix[1..] + a;
      ConcatAfterOpen(prefix[1..], a, b);
    } else {
      assert prefix + a == a;
    }
  }

  /** What a subscription to `just(v)` does: no effect, the value, completion. */
  lemma JustFacts<E, T, X>(v: T)
    ensures Effects<E, T, X>(Just(v)) == [] && Emitted<E, T, X>(Just(v)) == [v] && Signals<E, T, X>(Just(v)) == Just(v)
  {
    var done: seq<Event<E, T, X>> := [Completed];
    assert Just<E, T, X>(v)[1..] == done && done[1..] == [];
  }

  /** Effects followed by signals alone: the effects are those, the signals those of the rest. */
  lemma LiftThen<E, T, X>(effects: seq<E>, rest: seq<Event<E, T, X>>)
    requires Effects(rest) == []
    ensures Effects(Lift(effects) + rest) == effects
    ensures Signals(Lift(effects) + rest) == Signals(rest)
    ensures Emitted(Lift(effects) + rest) == Emitted(rest)
  {
    LiftFacts<E, T, X>(effects);
    EffectsAppend(Lift(effects), rest);
  }

  /** Once the first source completes, `concat` continues with the second. */
  lemma ConcatCompleted<E, T, X>(prefix: seq<Event<E, T, X>>, b: seq<Event<E, T, X>>)
    requires Open(prefix)
    ensures Concat(prefix + [Completed], b) == prefix + b
  {
    ConcatAfterOpen(prefix, [Completed], b);
  }

  /** An error of the first source ends `concat`: the second is never subscribed to. */
  lemma ConcatError<E, T, X>(prefix: seq<Event<E, T, X>>, error: X, b: seq<Event<E, T, X>>)
    requires Open(prefix)
    ensures Concat(prefix + [Error(error)], b) == prefix + [Error(error)]
  {
    ConcatAfterOpen(prefix, [Error(error)], b);
  }

  lemma {:induction false} LiftAppend<E, T, X>(a: seq<E>, b: seq<E>)
    ensures Lift<E, T, X>(a + b) == Lift(a) + Lift(b)
  {
    if |a| != 0 {
      assert (a + b)[1..] == a[1..] + b;
      LiftAppend<E, T, X>(a[1..], b);
    } else {
      assert a + b == b;
    }
  }

  /** `first` lets side effects through unchanged. */
  lemma {:induction false} FirstAfterEffects<E, T, X>(effects: seq<E>, rest: seq<Event<E, T, X>>, accept: T -> bool, noSuchElement: X)
    ensures First(Lift(effects) + rest, accept, noSuchElement) == Lift(effects) + First(rest, accept, noSuchElement)
  {
    if |effects| != 0 {
      assert (Lift<E, T, X>(effects) + rest)[1..] == Lift(effects[1..]) + rest;
      FirstAfterEffects(effects[1..], rest, accept, noSuchElement);
    } else {
      assert Lift<E, T, X>(effects) + rest == rest;
    }
  }

  /** `first` on a value: delivers it and completes if it is accepted, else waits for the next one. */
  lemma FirstNext<E, T, X>(v: T, rest: seq<Event<E, T, X>>, accept: T -> bool, noSuchElement: X)
    ensures First([Next(v)] + rest, accept, noSuchElement) == if accept(v) then Just(v) else First(rest, accept, noSuchElement)
  {
    assert ([Next(v)] + rest)[1..] == rest;
  }

  /** `first` passes on an error. */
  lemma FirstError<E, T, X>(error: X, accept: T -> bool, noSuchElement: X)
    ensures First<E, T, X>([Error(error)], accept, noSuchElement) == [Error(error)]
  {
  }

  /** `doOnNext` lets side effects through unchanged. */
  lemma {:induction false} DoOnNextAfterEffects<E, T, X>(effects: seq<E>, rest: seq<Event<E, T, X>>, action: T -> seq<E>)
    ensures DoOnNext(Lift(effects) + rest, action) == Lift(effects) + DoOnNext(rest, action)
  {
    if |effects| != 0 {
      assert (Lift<E, T, X>(effects) + rest)[1..] == Lift(effects[1..]) + rest;
      DoOnNextAfterEffects(effects[1..], rest, action);
    } else {
      assert Lift<E, T, X>(effects) + rest == rest;
    }
  }

  /** `doOnNext` on a value that is then completed: the action's effects, then the value. */
  lemma DoOnNextJust<E, T, X>(v: T, action: T -> seq<E>)
    ensures DoOnNext<E, T, X>(Just(v), action) == Lift(action(v)) + Just(v)
  {
    var done: seq<Event<E, T, X>> := [Completed];
    assert Just<E, T, X>(v)[1..] == done && done[1..] == [];
  }

  /**
   * `first` delivers at most one value, and only one that satisfies `accept`; nothing
   * follows that value but `Completed`, so every effect happens before the value is delivered.
   */
  lemma {:induction false} FirstDeliversAtMostOne<E, T, X>(s: seq<Event<E, T, X>>, accept: T -> bool, noSuchElement: X)
    ensures var f := First(s, accept, noSuchElement);
      && |Emitted(f)| <= 1
      && (forall v :: v in Emitted(f) ==> accept(v))
      && (forall i :: 0 <= i < |f| && f[i].Next? ==> f[i + 1..] == [Completed])
  {
    if |s| != 0 {
      var f := First(s, accept, noSuchElement);
      if s[0].Effect? {
        var g := First(s[1..], accept, noSuchElement);
        FirstDeliversAtMostOne(s[1..], accept, noSuchElement);
        assert f == [s[0]] + g;
        EffectsAppend([s[0]], g);
        forall i | 0 <= i < |f| && f[i].Next?
          ensures f[i + 1..] == [Completed]
        {
          assert g[i - 1] == f[i];
          assert f[i + 1..] == g[i..];
        }
      } else if s[0].Next? && !accept(s[0].value) {
        FirstDeliversAtMostOne(s[1..], accept, noSuchElement);
      } else if s[0].Next? {
        var done: seq<Event<E, T, X>> := [Completed];
        assert f[1..] == done && done[1..] == [];
        assert Emitted(f) == [s[0].value];
      }
    }
  }
}
