/** The randomised exponential back-off between transmission attempts (lora_random_delay of lora_transmission.c). */
module Backoff {
  import opened MachineInts

  /** The timing parameters: the first delay, the ceiling, and the bounds of the random part. */
  datatype Timing = Timing(base: uint32, ceiling: uint32, lower: uint32, upper: uint32)

  /** The function's static variables: whether the ceiling has been reached, and the last delay. */
  datatype Latch = Latch(maxFlag: bool, delayTime: nat)

  function Pow2(n: nat): (p: nat)
    ensures p >= 1
  {
    if n == 0 then 1 else 2 * Pow2(n - 1)
  }

  /** The value the source evaluates with pow while the ceiling has not been reached. */
  function Exponential(t: Timing, failTimes: nat, random: nat): nat
    requires failTimes >= 1
  {
    Pow2(failTimes - 1) * t.base + random
  }

  /** The base doubled n times. */
  function Doubled(base: nat, n: nat): nat {
    if n == 0 then base else 2 * Doubled(base, n - 1)
  }

  lemma {:induction false} DoubledIsPower(base: nat, n: nat)
    ensures Doubled(base, n) == Pow2(n) * base
  {
    if n > 0 {
      DoubledIsPower(base, n - 1);
      assert Pow2(n) * base == 2 * (Pow2(n - 1) * base);
    }
  }

  function NextDelay(l: Latch, t: Timing, failTimes: nat, random: nat): Latch
    requires failTimes >= 1
  {
    var flag := failTimes != 1 && l.maxFlag;
    var time := if flag then l.delayTime else Exponential(t, failTimes, random);
    var reached := flag || t.ceiling < time;
    Latch(reached, if reached then t.ceiling + random else time)
  }

  /** The static variables after the consecutive calls with tx_fail_times = 1, 2, ..., |randoms|. */
  function AfterCalls(l: Latch, t: Timing, randoms: seq<nat>): Latch {
    if randoms == [] then l
    else NextDelay(AfterCalls(l, t, randoms[..|randoms| - 1]), t, |randoms|, randoms[|randoms| - 1])
  }

  /** Some call up to the last one found its exponential value above the ceiling. */
  ghost predicate Exceeded(t: Timing, randoms: seq<nat>) {
    exists m :: 0 <= m < |randoms| && t.ceiling < Doubled(t.base, m) + randoms[m]
  }

  /** The delays of one session, whatever the static variables held before it: exponential until the first value above
      the ceiling, the ceiling plus the random part from then on. */
  lemma {:induction false} DelaysOfASession(l: Latch, t: Timing, randoms: seq<nat>)
    requires randoms != []
    ensures var n := |randoms|; var a := AfterCalls(l, t, randoms);
            && (a.maxFlag <==> Exceeded(t, randoms))
            && a.delayTime == (if Exceeded(t, randoms) then t.ceiling + randoms[n - 1]
                               else Doubled(t.base, n - 1) + randoms[n - 1])
            && a.delayTime <= t.ceiling + randoms[n - 1]
  {
    var n := |randoms|;
    var before := randoms[..n - 1];
    DoubledIsPower(t.base, n - 1);
    if n > 1 {
      DelaysOfASession(l, t, before);
      if Exceeded(t, before) {
        var m :| 0 <= m < |before| && t.ceiling < Doubled(t.base, m) + before[m];
        assert randoms[m] == before[m];
      }
      if Exceeded(t, randoms) && !(t.ceiling < Doubled(t.base, n - 1) + randoms[n - 1]) {
        var m :| 0 <= m < n && t.ceiling < Doubled(t.base, m) + randoms[m];
        assert before[m] == randoms[m];
      }
    }
  }

  /** The parameters for which no value of the computation leaves 32 bits. */
  predicate TimingFits(t: Timing) {
    && t.lower < t.upper
    && t.base + t.upper < 0x1_0000_0000 && 2 * t.ceiling + t.upper < 0x1_0000_0000
  }

  /** Call n evaluates the exponential only when no earlier call exceeded the ceiling, and then it fits 32 bits,
      however large n is. */
  lemma {:induction false} ExponentialFits(l: Latch, t: Timing, randoms: seq<nat>)
    requires TimingFits(t) && randoms != []
    requires forall i :: 0 <= i < |randoms| ==> t.lower <= randoms[i] < t.upper
    requires !Exceeded(t, randoms[..|randoms| - 1])
    ensures Exponential(t, |randoms|, randoms[|randoms| - 1]) < 0x1_0000_0000
    ensures AfterCalls(l, t, randoms).delayTime < 0x1_0000_0000
  {
    var n := |randoms|;
    if n > 1 {
      var before := randoms[..n - 1];
      assert before[n - 2] == randoms[n - 2];
      assert !(t.ceiling < Doubled(t.base, n - 2) + before[n - 2]);
    }
    DoubledIsPower(t.base, n - 1);
    DelaysOfASession(l, t, randoms);
  }
}
