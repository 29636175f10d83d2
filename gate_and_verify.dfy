/**
 * How the two handlers fit together: they share the window arithmetic, a
 * code handed out by the generator is accepted by the verifier in the same
 * window, and a code from the window before is accepted only during the
 * grace interval. Ends with the worked scenarios on concrete timestamps.
 */
module GateAndVerify {
  import opened Totp
  import opened CodeFormat
  import GateCode
  import VerifyCode

  /**
   * Both handlers use the same window: the seconds already spent in it and
   * the seconds left in it always add up to one period.
   */
  lemma WindowArithmeticAgrees(now: nat)
    ensures GateCode.RemainingSeconds(now) + VerifyCode.SecondsIntoWindow(now) == 300
  {
  }

  /**
   * Round trip: the code the generator returns at `now`, submitted at the
   * same `now`, is accepted as `current`, provided the library renders it as
   * six ASCII digits (`digits: 6`).
   */
  lemma GeneratedCodeAccepted(derive: Deriver, secret: Secret, now: nat)
    requires IsSixDigitCode(derive(secret, Counter(now, 300)))
    ensures VerifyCode.Verify(derive, secret, GateCode.Gate(derive, secret, now).code, now) == VerifyCode.ValidCurrent
  {
    TrimSixDigitCode(GateCode.Gate(derive, secret, now).code);
  }

  /** The generator's answer one period before `now` carries the previous window's code. */
  lemma EarlierGateCode(derive: Deriver, secret: Secret, now: nat)
    requires now >= 300_000
    ensures GateCode.Gate(derive, secret, now - 300_000).code
            == derive(secret, Counter(now, 300) - 1)
  {
    PreviousPeriodCounter(now, 300);
  }

  /**
   * A code handed out at any time `issuedAt` of the previous window and
   * verified at `now` within the first 60 seconds of the window is accepted
   * as `previous_grace`, when it is not also the current code (which
   * GeneratedCodeAccepted covers: then it is `current`).
   */
  lemma PreviousWindowCodeAcceptedInGrace(derive: Deriver, secret: Secret, issuedAt: nat, now: nat)
    requires Counter(issuedAt, 300) == Counter(now, 300) - 1
    requires VerifyCode.SecondsIntoWindow(now) <= VerifyCode.GracePrev
    requires IsSixDigitCode(derive(secret, Counter(issuedAt, 300)))
    requires GateCode.Gate(derive, secret, issuedAt).code != GateCode.Gate(derive, secret, now).code
    ensures VerifyCode.Verify(derive, secret, GateCode.Gate(derive, secret, issuedAt).code, now) == VerifyCode.ValidPreviousGrace
  {
    var code := GateCode.Gate(derive, secret, issuedAt).code;
    var t := Counter(now, 300);
    assert code == derive(secret, t - 1);
    assert code != derive(secret, t);
    VerifyCode.SixDigitPreviousCodeAcceptedInGrace(derive, secret, code, now);
  }

  /**
   * The same code verified after the grace interval is rejected, when it is
   * not also the current code.
   */
  lemma PreviousWindowCodeRejectedAfterGrace(derive: Deriver, secret: Secret, issuedAt: nat, now: nat)
    requires Counter(issuedAt, 300) == Counter(now, 300) - 1
    requires VerifyCode.SecondsIntoWindow(now) > VerifyCode.GracePrev
    requires IsSixDigitCode(derive(secret, Counter(issuedAt, 300)))
    requires GateCode.Gate(derive, secret, issuedAt).code != GateCode.Gate(derive, secret, now).code
    ensures VerifyCode.Verify(derive, secret, GateCode.Gate(derive, secret, issuedAt).code, now) == VerifyCode.Invalid
  {
    var code := GateCode.Gate(derive, secret, issuedAt).code;
    TrimSixDigitCode(code);
    VerifyCode.OnlyCurrentAfterGrace(derive, secret, code, now);
  }

  /**
   * Where a timestamp sits, given its epoch second as `counter * 300 + into`:
   * window `counter`, `into` seconds spent and `300 - into` left.
   */
  lemma WindowAt(now: nat, counter: int, into: nat)
    requires into < 300
    requires EpochSeconds(now) == counter * 300 + into
    ensures Counter(now, 300) == counter
    ensures VerifyCode.SecondsIntoWindow(now) == into
    ensures GateCode.RemainingSeconds(now) == 300 - into
  {
    FloorUnique(EpochSeconds(now), 300, Counter(now, 300), counter);
  }

  /** Epoch seconds 950 and 1030 both lie in the window [900, 1200), number 3. */
  lemma SameWindowTimes(at950: nat, at1030: nat)
    requires EpochSeconds(at950) == 950 && EpochSeconds(at1030) == 1030
    ensures Counter(at950, 300) == 3 && Counter(at1030, 300) == 3
  {
    WindowAt(at950, 3, 50);
    WindowAt(at1030, 3, 130);
  }

  /** 1150 lies in window 3, [900, 1200); 1230 and 1270 lie 30 and 70 seconds into window 4, [1200, 1500). */
  lemma AcrossBoundaryTimes(at1150: nat, at1230: nat, at1270: nat)
    requires EpochSeconds(at1150) == 1150 && EpochSeconds(at1230) == 1230 && EpochSeconds(at1270) == 1270
    ensures Counter(at1150, 300) == 3
    ensures Counter(at1230, 300) == 4 && VerifyCode.SecondsIntoWindow(at1230) == 30
    ensures Counter(at1270, 300) == 4 && VerifyCode.SecondsIntoWindow(at1270) == 70
  {
    WindowAt(at1150, 3, 250);
    WindowAt(at1230, 4, 30);
    WindowAt(at1270, 4, 70);
  }

  /**
   * Epoch seconds 950 and 1030 lie in the same window [900, 1200), so a code
   * handed out at 950 is still the current code at 1030.
   */
  lemma ScenarioSameWindow(derive: Deriver, secret: Secret, generatedAt: nat, verifiedAt: nat)
    requires EpochSeconds(generatedAt) == 950 && EpochSeconds(verifiedAt) == 1030
    requires IsSixDigitCode(derive(secret, 3))
    ensures GateCode.Gate(derive, secret, generatedAt).code == derive(secret, 3)
    ensures VerifyCode.Verify(derive, secret, GateCode.Gate(derive, secret, generatedAt).code, verifiedAt) == VerifyCode.ValidCurrent
  {
    SameWindowTimes(generatedAt, verifiedAt);
    var code := GateCode.Gate(derive, secret, generatedAt).code;
    TrimSixDigitCode(code);
    VerifyCode.CurrentCodeAccepted(derive, secret, code, verifiedAt);
  }

  /**
   * A code handed out at epoch second 1150 (window [900, 1200)) is accepted
   * as `previous_grace` at 1230, 30 seconds into the window [1200, 1500),
   * and rejected at 1270, 70 seconds into it, when it differs from the code
   * of [1200, 1500).
   */
  lemma ScenarioAcrossBoundary(derive: Deriver, secret: Secret, generatedAt: nat, graceAt: nat, lateAt: nat)
    requires EpochSeconds(generatedAt) == 1150 && EpochSeconds(graceAt) == 1230 && EpochSeconds(lateAt) == 1270
    requires IsSixDigitCode(derive(secret, 3))
    requires derive(secret, 3) != derive(secret, 4)
    ensures GateCode.Gate(derive, secret, generatedAt).code == derive(secret, 3)
    ensures VerifyCode.Verify(derive, secret, GateCode.Gate(derive, secret, generatedAt).code, graceAt) == VerifyCode.ValidPreviousGrace
    ensures VerifyCode.Verify(derive, secret, GateCode.Gate(derive, secret, generatedAt).code, lateAt) == VerifyCode.Invalid
  {
    AcrossBoundaryTimes(generatedAt, graceAt, lateAt);
    var code := GateCode.Gate(derive, secret, generatedAt).code;
    TrimSixDigitCode(code);
    VerifyCode.PreviousCodeAcceptedInGrace(derive, secret, code, graceAt);
    VerifyCode.OnlyCurrentAfterGrace(derive, secret, code, lateAt);
  }

  /**
   * Epoch second 1200 starts a window, so a whole period is left; at 1100,
   * 100 seconds are left. The window length is reported as 300 either way.
   */
  lemma ScenarioRemainingSeconds(derive: Deriver, secret: Secret)
    ensures GateCode.Gate(derive, secret, 1_200_000).remainingSeconds == 300
    ensures GateCode.Gate(derive, secret, 1_100_000).remainingSeconds == 100
    ensures GateCode.Gate(derive, secret, 1_200_000).validForSeconds == 300
  {
  }
}
