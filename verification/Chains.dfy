/**
 Running a state over a sequence of symbols, the shape shared by the checksums, the
 authenticator and the hash; and what survives it when no step forgets anything.
 */
module Chains {

  function Iterate<S>(f: S -> S, s: S, n: nat): S {
    if n == 0 then s else f(Iterate(f, s, n - 1))
  }

  function Chain<S, B>(step: (S, B) -> S, s: S, data: seq<B>): S {
    if data == [] then s
    else step(Chain(step, s, data[..|data| - 1]), data[|data| - 1])
  }

  lemma {:induction false} ChainAppend<S, B>(step: (S, B) -> S, s: S, a: seq<B>, b: seq<B>)
    ensures Chain(step, s, a + b) == Chain(step, Chain(step, s, a), b)
  {
    if b == [] {
      assert a + b == a;
    } else {
      ChainAppend(step, s, a, b[..|b| - 1]);
      assert (a + b)[..|a + b| - 1] == a + b[..|b| - 1];
    }
  }

  lemma ChainOne<S, B>(step: (S, B) -> S, s: S, a: seq<B>, b: B)
    ensures Chain(step, s, a + [b]) == step(Chain(step, s, a), b)
  {
    assert (a + [b])[..|a|] == a;
  }

  // --- No step forgets ---

  ghost predicate Injective<S(!new)>(f: S -> S) {
    forall x: S, y: S :: f(x) == f(y) ==> x == y
  }

  ghost predicate KeepsState<S(!new), B(!new)>(step: (S, B) -> S) {
    forall x: S, y: S, b: B :: step(x, b) == step(y, b) ==> x == y
  }

  ghost predicate KeepsSymbol<S(!new), B(!new)>(step: (S, B) -> S) {
    forall x: S, b: B, c: B :: step(x, b) == step(x, c) ==> b == c
  }

  lemma {:induction false} IterateInjective<S(!new)>(f: S -> S, x: S, y: S, n: nat)
    requires Injective(f)
    requires Iterate(f, x, n) == Iterate(f, y, n)
    ensures x == y
  {
    if n > 0 {
      IterateInjective(f, x, y, n - 1);
    }
  }

  lemma {:induction false} ChainKeepsState<S(!new), B(!new)>(step: (S, B) -> S, x: S, y: S, data: seq<B>)
    requires KeepsState(step)
    requires Chain(step, x, data) == Chain(step, y, data)
    ensures x == y
  {
    if data != [] {
      ChainKeepsState(step, x, y, data[..|data| - 1]);
    }
  }

  /** Sequences that differ in exactly one symbol lead to different states. */
  lemma OneSymbolDetected<S(!new), B(!new)>(step: (S, B) -> S, s: S, before: seq<B>, b: B, c: B, after: seq<B>)
    requires KeepsState(step) && KeepsSymbol(step)
    requires b != c
    ensures Chain(step, s, before + [b] + after) != Chain(step, s, before + [c] + after)
  {
    ChainAppend(step, s, before + [b], after);
    ChainAppend(step, s, before + [c], after);
    ChainOne(step, s, before, b);
    ChainOne(step, s, before, c);
    if Chain(step, s, before + [b] + after) == Chain(step, s, before + [c] + after) {
      ChainKeepsState(step, Chain(step, s, before + [b]), Chain(step, s, before + [c]), after);
    }
  }

  // --- Registers that shift and add: `f` is additive, and so is every number of shifts ---

  ghost predicate Additive<S(!new)>(f: S -> S, add: (S, S) -> S) {
    forall x: S, y: S :: f(add(x, y)) == add(f(x), f(y))
  }

  ghost predicate Associative<S(!new)>(add: (S, S) -> S) {
    forall x: S, y: S, z: S :: add(add(x, y), z) == add(x, add(y, z))
  }

  ghost predicate Cancels<S(!new)>(add: (S, S) -> S) {
    forall x: S, y: S, z: S :: (add(x, z) == add(y, z) ==> x == y) && (add(z, x) == add(z, y) ==> x == y)
  }

  lemma {:induction false} IterateAdditive<S(!new)>(f: S -> S, add: (S, S) -> S, x: S, y: S, n: nat)
    requires Additive(f, add)
    ensures Iterate(f, add(x, y), n) == add(Iterate(f, x, n), Iterate(f, y, n))
  {
    if n > 0 {
      IterateAdditive(f, add, x, y, n - 1);
    }
  }

  // One symbol is added in at the top, then the register is shifted.
  function ShiftIn<S, B>(f: S -> S, add: (S, S) -> S, top: B -> S, n: nat): (S, B) -> S {
    (s, b) => Iterate(f, add(s, top(b)), n)
  }

  lemma ShiftInKeeps<S(!new), B(!new)>(f: S -> S, add: (S, S) -> S, top: B -> S, n: nat)
    requires Injective(f) && Cancels(add)
    ensures KeepsState(ShiftIn(f, add, top, n))
  {
    var step := ShiftIn(f, add, top, n);
    forall x: S, y: S, b: B | step(x, b) == step(y, b)
      ensures x == y
    {
      IterateInjective(f, add(x, top(b)), add(y, top(b)), n);
    }
  }

  /**
   When a symbol reaches the top from a place below by `n` shifts, two symbols in a row act as
   one wide symbol, so that two messages that differ only there lead to different states.
   */
  lemma TwoSymbolsDetected<S(!new), B(!new)>(
      f: S -> S, add: (S, S) -> S, top: B -> S, low: B -> S, n: nat,
      s: S, before: seq<B>, a: B, b: B, a': B, b': B, after: seq<B>)
    requires Injective(f) && Additive(f, add) && Associative(add) && Cancels(add)
    requires forall c: B :: Iterate(f, low(c), n) == top(c)
    requires add(top(a), low(b)) != add(top(a'), low(b'))
    ensures var step := ShiftIn(f, add, top, n);
      Chain(step, s, before + [a, b] + after) != Chain(step, s, before + [a', b'] + after)
  {
    var step := ShiftIn(f, add, top, n);
    var x := Chain(step, s, before);
    WideSymbol(f, add, top, low, n, s, before, a, b, after);
    WideSymbol(f, add, top, low, n, s, before, a', b', after);
    if Chain(step, s, before + [a, b] + after) == Chain(step, s, before + [a', b'] + after) {
      var y, y' := add(x, add(top(a), low(b))), add(x, add(top(a'), low(b')));
      ShiftInKeeps(f, add, top, n);
      ChainKeepsState(step, Iterate(f, Iterate(f, y, n), n), Iterate(f, Iterate(f, y', n), n), after);
      IterateInjective(f, Iterate(f, y, n), Iterate(f, y', n), n);
      IterateInjective(f, y, y', n);
    }
  }

  lemma WideSymbol<S(!new), B(!new)>(
      f: S -> S, add: (S, S) -> S, top: B -> S, low: B -> S, n: nat,
      s: S, before: seq<B>, a: B, b: B, after: seq<B>)
    requires Additive(f, add) && Associative(add)
    requires forall c: B :: Iterate(f, low(c), n) == top(c)
    ensures var step := ShiftIn(f, add, top, n);
      Chain(step, s, before + [a, b] + after)
      == Chain(step, Iterate(f, Iterate(f, add(Chain(step, s, before), add(top(a), low(b))), n), n), after)
  {
    var step := ShiftIn(f, add, top, n);
    var x := Chain(step, s, before);
    ChainAppend(step, s, before + [a, b], after);
    assert before + [a, b] == before + [a] + [b];
    ChainOne(step, s, before + [a], b);
    ChainOne(step, s, before, a);
    IterateAdditive(f, add, add(x, top(a)), low(b), n);
  }
}
