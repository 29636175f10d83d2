/**
 * The computation part of the generator handler (`api/gateCode.js`): the
 * code of the current 300-second window, the window length, and how many
 * seconds of the current window are left, with the handler's `period = 300`
 * written out as a number.
 */
module GateCode {
  import opened Totp

  /** The body `{ code, validForSeconds, remainingSeconds }`. */
  datatype GateResponse = GateResponse(code: string, validForSeconds: nat, remainingSeconds: nat)

  /**
   * Seconds left in the window holding `now` (ms): from 1 up to a whole
   * period, and the epoch second it counts up to is the next window's start.
   */
  function RemainingSeconds(now: nat): (r: nat)
    ensures 1 <= r <= 300
    ensures EpochSeconds(now) + r == (Counter(now, 300) + 1) * 300
  {
    300 - EpochSeconds(now) % 300
  }

  /**
   * The handler's answer at `now` (ms): the code of the window holding `now`,
   * the constant window length, and the seconds left in that window.
   */
  function Gate(derive: Deriver, secret: Secret, now: nat): (g: GateResponse)
    ensures g.code == derive(secret, Counter(now, 300))
    ensures g.validForSeconds == 300
    ensures 1 <= g.remainingSeconds <= 300
  {
    GateResponse(Generate(derive, secret, 300, now), 300, RemainingSeconds(now))
  }

  /**
   * Going from `now` to a later time `later` that is still before the
   * window ends keeps the same code and lowers `remainingSeconds` by exactly
   * the number of whole seconds that passed.
   */
  lemma SameWindowCountsDown(derive: Deriver, secret: Secret, now: nat, later: nat)
    requires now <= later
    requires EpochSeconds(later) < EpochSeconds(now) + RemainingSeconds(now)
    ensures Counter(later, 300) == Counter(now, 300)
    ensures Gate(derive, secret, later).code == Gate(derive, secret, now).code
    ensures RemainingSeconds(later) == RemainingSeconds(now) - (EpochSeconds(later) - EpochSeconds(now))
  {
    FloorUnique(EpochSeconds(later), 300, Counter(later, 300), Counter(now, 300));
  }

  /**
   * One second later `remainingSeconds` drops by one, unless the window just
   * ended: then the next window starts and it is back to the full period.
   */
  lemma RemainingSecondsTick(now: nat)
    ensures RemainingSeconds(now) > 1 ==> RemainingSeconds(now + 1000) == RemainingSeconds(now) - 1
    ensures RemainingSeconds(now) == 1 ==>
              && RemainingSeconds(now + 1000) == 300
              && Counter(now + 1000, 300) == Counter(now, 300) + 1
  {
    var t := Counter(now, 300);
    EpochSecondsShift(now, 1);
    var e' := EpochSeconds(now + 1000);
    if RemainingSeconds(now) == 1 {
      assert e' == (t + 1) * 300;
      assert (t + 1) * 300 <= e' < (t + 1) * 300 + 300;
      FloorUnique(e', 300, Counter(now + 1000, 300), t + 1);
    } else {
      assert t * 300 <= e' < t * 300 + 300;
      FloorUnique(e', 300, Counter(now + 1000, 300), t);
    }
  }
}
