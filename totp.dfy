/**
 * The part of the `otpauth` library that both handlers rely on: turning a
 * millisecond timestamp into a TOTP counter (section 4.2 of RFC 6238, with
 * T0 = 0) and deriving the code for that counter.
 *
 * The HOTP value itself (HMAC-SHA1 over the 8-byte counter followed by the
 * dynamic truncation of section 5.3 of RFC 4226) is computed inside the
 * library; the model takes it as a function-typed parameter `derive`, about
 * which nothing is assumed except where a lemma says so explicitly.
 */
module Totp {

  /** The decoded key bytes (the result of base32-decoding the configured secret). */
  type Secret = seq<bv8>

  /** An HOTP code function: key bytes and counter to the rendered code. */
  type Deriver = (Secret, int) -> string

  /** Whole seconds since the epoch: `Math.floor(timestamp / 1000)`. */
  function EpochSeconds(timestamp: int): (sec: int)
    ensures sec * 1000 <= timestamp < sec * 1000 + 1000
  {
    timestamp / 1000
  }

  /**
   * The TOTP counter of a timestamp: the index of the `period`-second window
   * that holds it. On `int`, Dafny's `/` with a positive divisor is the floor,
   * so negative timestamps are counted as the library counts them too.
   */
  function Counter(timestamp: int, period: nat): (t: int)
    requires period > 0
    ensures t * period <= EpochSeconds(timestamp) < t * period + period
  {
    EpochSeconds(timestamp) / period
  }

  /**
   * `totp.generate({ timestamp })`: the code derived for the one window
   * `[t * period, t * period + period)` that holds the epoch second of
   * `timestamp`.
   */
  function Generate(derive: Deriver, secret: Secret, period: nat, timestamp: int): (code: string)
    requires period > 0
    ensures forall t :: t * period <= EpochSeconds(timestamp) < t * period + period ==> code == derive(secret, t)
  {
    var c := Counter(timestamp, period);
    assert forall t :: t * period <= EpochSeconds(timestamp) < t * period + period ==> t == c by {
      forall t | t * period <= EpochSeconds(timestamp) < t * period + period
        ensures t == c
      {
        FloorUnique(EpochSeconds(timestamp), period, t, c);
      }
    }
    derive(secret, c)
  }

  /** Multiplying by a non-negative factor keeps the order. */
  lemma MulMonotone(x: int, y: int, b: nat)
    requires x <= y
    ensures x * b <= y * b
  {
    var d: nat := y - x;
    assert y * b == x * b + d * b;
  }

  /** The floor quotient is the one integer whose multiple brackets the dividend. */
  lemma FloorUnique(a: int, b: nat, q: int, q': int)
    requires b > 0
    requires q * b <= a < q * b + b
    requires q' * b <= a < q' * b + b
    ensures q == q'
  {
    if q < q' {
      assert (q + 1) * b == q * b + b;
      MulMonotone(q + 1, q', b);
    } else if q' < q {
      assert (q' + 1) * b == q' * b + b;
      MulMonotone(q' + 1, q, b);
    }
  }

  /** Moving a timestamp by whole seconds moves its epoch second by as many. */
  lemma EpochSecondsShift(timestamp: int, k: int)
    ensures EpochSeconds(timestamp + k * 1000) == EpochSeconds(timestamp) + k
  {
    var s := EpochSeconds(timestamp);
    var s' := EpochSeconds(timestamp + k * 1000);
    assert (s + k) * 1000 <= timestamp + k * 1000 < (s + k) * 1000 + 1000;
    FloorUnique(timestamp + k * 1000, 1000, s', s + k);
  }

  /**
   * Shifting a timestamp back by one period (`now - period * 1000`) lands in
   * the previous window: its counter is exactly one less.
   */
  lemma PreviousPeriodCounter(timestamp: int, period: nat)
    requires period > 0
    ensures Counter(timestamp - period * 1000, period) == Counter(timestamp, period) - 1
  {
    var t := Counter(timestamp, period);
    var shifted := timestamp - period * 1000;
    EpochSecondsShift(timestamp, -(period as int));
    var e := EpochSeconds(shifted);
    assert e == EpochSeconds(timestamp) - period;
    assert (t - 1) * period <= e < (t - 1) * period + period;
    FloorUnique(e, period, Counter(shifted, period), t - 1);
  }
}
