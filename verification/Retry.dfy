/** The retry loop and its jittered pauses. */
module Retry {
  import opened Wrappers

  /** 64-bit arithmetic: every result has to be shown in range. */
  newtype u64 = n: int | 0 <= n <= 0xffff_ffff_ffff_ffff

  function Saturated(n: nat): u64 {
    if n > U64_MAX then U64_MAX as u64 else n as u64
  }

  const GROWTH := 3
  const CEILING := 2

  /** The shortest and the longest pause for a base, in nanoseconds. */
  function Shortest(base: nat): u64 {
    Saturated(base) / 2
  }

  function Longest(base: nat): u64 {
    Saturated(Saturated(base) as nat * CEILING)
  }

  function Highest(base: nat, previous: nat): u64 {
    var grown := Saturated(Saturated(previous) as nat * GROWTH);
    if Longest(base) < grown then Longest(base) else grown
  }

  class Backoff {
    const base: nat
    var previous: nat

    /** The last pause, or the base before there was one. */
    ghost predicate Valid()
      reads this
    {
      previous == base || Shortest(base) as nat <= previous <= Longest(base) as nat
    }

    constructor (base: nat)
      ensures Valid() && this.base == base && previous == base
    {
      this.base := base;
      previous := base;
    }

    /** The next pause: a draw between half the base and the lower of three times the last pause
        and twice the base. */
    method NextDelayFrom(entropy: u64) returns (delay: u64)
      requires Valid()
      modifies `previous
      ensures Valid() && previous == delay as nat
      ensures Min(base, U64_MAX) / 2 <= delay as nat <= 2 * base && delay as nat <= 3 * old(previous)
      ensures Shortest(base) <= delay <= Longest(base)
      ensures Shortest(base) <= Highest(base, old(previous))
      ensures delay as int == Shortest(base) as int + entropy as int % (Highest(base, old(previous)) as int - Shortest(base) as int + 1)
    {
      var b := Saturated(base);
      var low := b / 2;
      var high := Saturated(Saturated(previous) as nat * GROWTH);
      if Saturated(b as nat * CEILING) < high {
        high := Saturated(b as nat * CEILING);
      }
      var span := (if high < low then 0 else high - low) + 1;
      delay := low + entropy % span;
      previous := delay as nat;
    }
  }

  datatype Attempt<T, E> = Done(value: T) | Retry(error: E) | Fatal(error: E)

  /** Attempts until one is not worth another round. `attempt(i)` is what round `i` comes to;
      `entropy(i)` what the pause before it draws. */
  method RetryLoop<T, E>(maxAttempts: nat, base: nat, attempt: nat -> Attempt<T, E>, entropy: nat -> u64, closed: E)
    returns (r: Result<T, E>, rounds: nat, pauses: seq<u64>)
    ensures rounds <= maxAttempts && forall i :: 0 <= i < rounds - 1 ==> attempt(i).Retry?
    ensures rounds < maxAttempts ==> rounds > 0 && !attempt(rounds - 1).Retry?
    ensures rounds == 0 ==> r == Err(closed)
    ensures rounds > 0 ==> r == match attempt(rounds - 1) case Done(v) => Ok(v) case Retry(e) => Err(e) case Fatal(e) => Err(e)
    ensures |pauses| == Max(rounds - 1, 0)
    ensures forall i :: 0 <= i < |pauses| ==> Shortest(base) <= pauses[i] <= Longest(base)
    ensures Total(pauses) <= Max(maxAttempts - 1, 0) * Longest(base) as nat
  {
    var last: Option<E> := None;
    var backoff := new Backoff(base);
    pauses, rounds := [], 0;
    for round := 0 to maxAttempts
      invariant fresh(backoff) && backoff.Valid() && backoff.base == base
      invariant rounds == round && |pauses| == Max(round - 1, 0)
      invariant forall i :: 0 <= i < round ==> attempt(i).Retry?
      invariant last == if round == 0 then None else Some(attempt(round - 1).error)
      invariant forall i :: 0 <= i < |pauses| ==> Shortest(base) <= pauses[i] <= Longest(base)
    {
      if round > 0 {
        var delay := backoff.NextDelayFrom(entropy(round));
        pauses := pauses + [delay];
      }
      rounds := round + 1;
      TotalIsBounded(pauses, Longest(base), maxAttempts - 1);
      match attempt(round) {
        case Done(v) => return Ok(v), rounds, pauses;
        case Retry(e) => last := Some(e);
        case Fatal(e) => return Err(e), rounds, pauses;
      }
    }
    r := Err(if last.Some? then last.value else closed);
    if maxAttempts > 0 {
      TotalIsBounded(pauses, Longest(base), maxAttempts - 1);
    }
  }

  function Total(pauses: seq<u64>): nat {
    if pauses == [] then 0 else Total(pauses[..|pauses| - 1]) + pauses[|pauses| - 1] as nat
  }

  lemma {:induction false} TotalIsBounded(pauses: seq<u64>, most: u64, n: nat)
    requires |pauses| <= n && forall i :: 0 <= i < |pauses| ==> pauses[i] <= most
    ensures Total(pauses) <= n * most as nat
  {
    if pauses != [] {
      TotalIsBounded(pauses[..|pauses| - 1], most, n - 1);
      assert n * most as nat == (n - 1) * most as nat + most as nat;
    }
  }
}
