/** Keeping the zone registered with the system resolver: a retry task with
    backoff, racing a shutdown that has to leave no rule behind
    (daemon/src/registration.rs). */
module Registration {
  import opened Basics

  // How long to wait

  const U32_MAX := 0xFFFF_FFFF
  const U64_MAX := 0xFFFF_FFFF_FFFF_FFFF
  const FIRST_RETRY := 2
  const MAX_RETRY := 60

  type U32 = n: int | 0 <= n <= U32_MAX

  function Pow2(n: nat): (r: nat)
    ensures r > n
  {
    if n == 0 then 1 else 2 * Pow2(n - 1)
  }

  lemma {:induction false} Pow2Grows(m: nat, n: nat)
    requires m <= n
    ensures Pow2(m) <= Pow2(n)
  {
    if m < n {
      Pow2Grows(m, n - 1);
    }
  }

  lemma Pow2Limits()
    ensures Pow2(5) == 32 && Pow2(6) == 64 && Pow2(31) == 0x8000_0000
  {
    assert Pow2(6) == 64;
    assert Pow2(16) == 65536;
    assert Pow2(31) == 0x8000_0000;
  }

  lemma ShiftFits(n: nat)
    requires n < 32
    ensures Pow2(n) <= U32_MAX
  {
    Pow2Grows(n, 31);
    Pow2Limits();
  }

  /** `1u32.checked_shl(n)`. */
  function CheckedShl(n: U32): (r: Option<U32>)
    ensures r.Some? <==> n < 32
    ensures r.Some? ==> r.value == Pow2(n)
  {
    if n < 32 then ShiftFits(n); Some(Pow2(n)) else None
  }

  /** A duration of whole seconds times a factor, unless that overflows it. */
  function CheckedMul(seconds: nat, factor: U32): Option<nat> {
    if seconds * factor <= U64_MAX then Some(seconds * factor) else None
  }

  function SaturatingPred(n: U32): U32 {
    if n == 0 then 0 else n - 1
  }

  function SaturatingSucc(n: U32): U32 {
    if n == U32_MAX then n else n + 1
  }

  function Min(a: nat, b: nat): nat {
    if a <= b then a else b
  }

  function Delay(retry: U32): nat {
    var shifted := CheckedShl(SaturatingPred(retry));
    var factor := if shifted.Some? then shifted.value else U32_MAX;
    match CheckedMul(FIRST_RETRY, factor)
    case None => MAX_RETRY
    case Some(wait) => Min(wait, MAX_RETRY)
  }

  /** What retry number `n` is called once the counter has stopped at its end. */
  function Counted(n: nat): U32 {
    if n <= U32_MAX then n else U32_MAX
  }

  function Wait(n: nat): nat {
    Min(Pow2(n), MAX_RETRY)
  }

  /** The wait before retry `n` is exactly min(2^n, 60) seconds, for every `n`,
      however long ago the 32-bit counter saturated. */
  lemma DelayExactly(n: nat)
    requires n >= 1
    ensures Delay(Counted(n)) == Wait(n)
  {
    Pow2Limits();
    var retry := Counted(n);
    if n <= 32 {
      assert Pow2(n) == 2 * Pow2(n - 1);
      ShiftFits(n - 1);
    } else {
      Pow2Grows(6, n);
    }
  }

  // The loop, round by round

  /** What one turn of the loop meets: whether a stop cuts the wait short, what
      the probe finds unless a stop cuts that short, whether a stop is in by the
      last check, and whether registering works. */
  datatype Round<T> = Round(stopWaiting: bool, stopProbing: bool, found: Option<T>, stopBefore: bool, registers: bool)

  datatype Outcome<T> = Succeeded(retries: U32, target: T) | Stopped | StillTrying

  predicate Stops<T>(r: Round<T>) {
    r.stopWaiting || r.stopProbing || (r.found.Some? && r.stopBefore)
  }

  predicate Asks<T>(r: Round<T>) {
    !Stops(r) && r.found.Some?
  }

  predicate Continues<T>(r: Round<T>) {
    !Stops(r) && (r.found.None? || !r.registers)
  }

  /** The targets the system was asked to register in the first `n` rounds. */
  function AskedOf<T>(rounds: seq<Round<T>>, n: nat): seq<T>
    requires n <= |rounds|
  {
    if n == 0 then []
    else AskedOf(rounds, n - 1) + if Asks(rounds[n - 1]) then [rounds[n - 1].found.value] else []
  }

  /** Runs until the first round that does not go on: waits are min(2^n, 60) in
      turn, and only what a probe has just found, with no stop in, is registered. */
  method RetryUntilStopped<T>(rounds: seq<Round<T>>) returns (outcome: Outcome<T>, waits: seq<nat>, asked: seq<T>)
    ensures |waits| <= |rounds| && forall i :: 0 <= i < |waits| ==> waits[i] == Wait(i + 1)
    ensures forall i :: 0 <= i < |waits| - 1 ==> Continues(rounds[i])
    ensures asked == AskedOf(rounds, |waits|)
    ensures outcome.StillTrying? <==> |waits| == |rounds| && forall k :: 0 <= k < |rounds| ==> Continues(rounds[k])
    ensures outcome.Stopped? ==> |waits| > 0 && Stops(rounds[|waits| - 1])
    ensures outcome.Succeeded? ==>
              && |waits| > 0 && Asks(rounds[|waits| - 1]) && rounds[|waits| - 1].registers
              && outcome.target == rounds[|waits| - 1].found.value && outcome.retries == Counted(|waits|)
  {
    var retry: U32 := 1;
    waits, asked := [], [];
    for i := 0 to |rounds|
      invariant |waits| == i && retry == Counted(i + 1)
      invariant forall k :: 0 <= k < i ==> waits[k] == Wait(k + 1)
      invariant forall k :: 0 <= k < i ==> Continues(rounds[k])
      invariant asked == AskedOf(rounds, i)
    {
      var round := rounds[i];
      DelayExactly(i + 1);
      waits := waits + [Delay(retry)];
      if round.stopWaiting {
        return Stopped, waits, asked;
      }
      if round.stopProbing {
        return Stopped, waits, asked;
      }
      if round.found.Some? {
        if round.stopBefore {
          return Stopped, waits, asked;
        }
        asked := asked + [round.found.value];
        if round.registers {
          return Succeeded(retry, round.found.value), waits, asked;
        }
      }
      retry := SaturatingSucc(retry);
    }
    outcome := StillTrying;
  }
}
