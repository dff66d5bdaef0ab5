/**
 * The seeded random source of the geometric pattern: the Mulberry32
 * generator that `createSeededRandom` returns as a closure.
 *
 * JavaScript keeps the captured seed as an unbounded number, but every
 * read of it goes through ToInt32 or an unsigned shift, so all that can be
 * observed of it is its value modulo 2^32. The model keeps exactly that, a
 * `bv32`: bit-vector `+` and `*` wrap modulo 2^32 as `+` read back through
 * ToInt32 and `Math.imul` do, and `>>` on `bv32` is the unsigned `>>>`.
 */
module Mulberry32 {

  /** 2^32, the modulus of the generator's state and the divisor of its output. */
  const Modulus: int := 0x1_0000_0000

  /** The constant added to the state on every draw. */
  const Increment: bv32 := 0x6D2B79F5

  /**
   * The 32-bit state an integer seed is read as (ToInt32 and `>>> 0` both
   * reduce modulo 2^32; Dafny's `%` is never negative). The seed of the
   * primary story, 1763280663873, is read as 0x8BB7B541.
   */
  function SeedState(seed: int): bv32
  {
    (seed % Modulus) as bv32
  }

  /** Output mixing: the unsigned 32-bit value produced from a just-advanced state. */
  function Mix(state: bv32): bv32
  {
    var t := (state ^ (state >> 15)) * (state | 1);
    var t' := t ^ (t + (t ^ (t >> 7)) * (t | 61));
    t' ^ (t' >> 14)
  }

  /** The number a draw returns for its unsigned 32-bit value, `u / 4294967296`. */
  function ToUnit(u: bv32): (r: real)
    ensures 0.0 <= r < 1.0
    ensures r * 4294967296.0 == u as int as real
  {
    u as int as real / 4294967296.0
  }

  /** The state after `k` draws from state `s`. */
  function StateAfter(s: bv32, k: nat): bv32
  {
    if k == 0 then s else StateAfter(s, k - 1) + Increment
  }

  /** The unsigned 32-bit values of the first `n` draws from state `s`, in draw order. */
  function Outputs(s: bv32, n: nat): (r: seq<bv32>)
    ensures |r| == n
    decreases n
  {
    if n == 0 then [] else [Mix(s + Increment)] + Outputs(s + Increment, n - 1)
  }

  /** The number the `k`-th draw (counting from 0) from state `s` returns. */
  function Draw(s: bv32, k: nat): (r: real)
    ensures 0.0 <= r < 1.0
  {
    ToUnit(Mix(StateAfter(s, k + 1)))
  }

  /** The whole stream of numbers drawn from state `s`. */
  function Values(s: bv32): nat -> real
  {
    (k: nat) => Draw(s, k)
  }

  /** The numbers the first `n` draws from state `s` return, in draw order. */
  function Stream(s: bv32, n: nat): (r: seq<real>)
    ensures |r| == n
    ensures forall k :: 0 <= k < n ==> 0.0 <= r[k] < 1.0
  {
    var us := Outputs(s, n);
    seq(n, k requires 0 <= k < n => ToUnit(us[k]))
  }

  /** A generator: the one mutable 32-bit state that the closure captures. */
  class SeededRandom {
    var state: bv32

    /** `createSeededRandom(seed)` for an integer seed. */
    constructor (seed: int)
      ensures state == SeedState(seed)
    {
      state := SeedState(seed);
    }

    /**
     * One call of the closure: advance the state, then mix the new state.
     * Returns the unsigned 32-bit result as well as the number the closure returns.
     */
    method Next() returns (u: bv32, value: real)
      modifies this
      ensures state == old(state) + Increment
      ensures u == Mix(state)
      ensures value == ToUnit(u)
    {
      state := state + Increment;
      u := Mix(state);
      value := ToUnit(u);
    }

    /**
     * `n` successive calls of the closure: the `k`-th returns `Draw` of the
     * starting state at `k`, so the calls return exactly `Stream`.
     */
    method DrawMany(n: nat) returns (vs: seq<real>)
      modifies this
      ensures state == StateAfter(old(state), n)
      ensures |vs| == n
      ensures forall k :: 0 <= k < n ==> vs[k] == Draw(old(state), k)
      ensures vs == Stream(old(state), n)
    {
      ghost var s0 := state;
      vs := [];
      var i := 0;
      while i < n
        invariant 0 <= i <= n && |vs| == i
        invariant state == StateAfter(s0, i)
        invariant forall k :: 0 <= k < i ==> vs[k] == Draw(s0, k)
      {
        ghost var prev := state;
        var u, value := Next();
        StepState(s0, i, prev, state);
        vs := vs + [value];
        i := i + 1;
      }
      forall k | 0 <= k < n
        ensures vs[k] == Stream(s0, n)[k]
      {
        StreamAt(s0, n, k);
      }
    }
  }

  /** One more advance from the state after `i` draws is the state after `i + 1`. */
  lemma StepState(s0: bv32, i: nat, prev: bv32, st: bv32)
    requires prev == StateAfter(s0, i) && st == prev + Increment
    ensures st == StateAfter(s0, i + 1)
  {
  }

  /** Advancing once and then `k` times is advancing `k + 1` times. */
  lemma {:induction false} StateAfterShift(s: bv32, k: nat)
    ensures StateAfter(s + Increment, k) == StateAfter(s, k + 1)
  {
    if k > 0 {
      StateAfterShift(s, k - 1);
    }
  }

  /** The `k`-th draw's value is the mix of the state after `k + 1` draws, and of nothing else. */
  lemma {:induction false} OutputsAt(s: bv32, n: nat, k: nat)
    requires k < n
    ensures Outputs(s, n)[k] == Mix(StateAfter(s, k + 1))
    decreases k
  {
    if k == 0 {
      StateAfterShift(s, 0);
    } else {
      OutputsAt(s + Increment, n - 1, k - 1);
      StateAfterShift(s, k);
    }
  }

  /** The `k`-th of the first `n` numbers is `Values(s)(k)`, `Mix(state after k + 1 draws) / 2^32`. */
  lemma StreamAt(s: bv32, n: nat, k: nat)
    requires k < n
    ensures Stream(s, n)[k] == Values(s)(k) == Draw(s, k)
  {
    OutputsAt(s, n, k);
  }

  /** Drawing more values never changes the earlier ones; the rest continue from the advanced state. */
  lemma {:induction false} OutputsSplit(s: bv32, m: nat, n: nat)
    ensures Outputs(s, m + n) == Outputs(s, m) + Outputs(StateAfter(s, m), n)
    decreases m
  {
    if m > 0 {
      OutputsSplit(s + Increment, m - 1, n);
      StateAfterShift(s, m - 1);
    }
  }

  /** A longer stream from the same state starts with the shorter one. */
  lemma StreamPrefix(s: bv32, m: nat, n: nat)
    requires m <= n
    ensures Stream(s, n)[..m] == Stream(s, m)
  {
    OutputsSplit(s, m, n - m);
    assert Outputs(s, n)[..m] == Outputs(s, m);
  }

  /** Two generators whose seeds agree modulo 2^32 start in the same state, so draw the same numbers. */
  lemma SameSeedSameStream(a: int, b: int, n: nat)
    requires a % Modulus == b % Modulus
    ensures SeedState(a) == SeedState(b)
    ensures Stream(SeedState(a), n) == Stream(SeedState(b), n)
    ensures Values(SeedState(a)) == Values(SeedState(b))
  {
  }

  /** Known answer: the first draw from seed 0 has the value 0x4434B462, the number 0.2664292... */
  lemma FirstDrawFromSeedZero()
    ensures Outputs(0, 1) == [0x4434B462]
    ensures Stream(0, 1) == [1144304738.0 / 4294967296.0]
  {
  }
}
