/**
 * The decision logic of the verification handler (`api/verifyCode.js`): a
 * submitted code is checked for shape, then compared with the code of the
 * current 300-second window and, during the first 60 seconds of a window
 * only, with the code of the previous window. There is no forward window.
 *
 * The handler fixes `period = 300`; the model writes that number out (and
 * `300_000` for `period * 1000` milliseconds) rather than naming it.
 */
module VerifyCode {
  import opened Totp
  import opened CodeFormat

  /** How long into a new window the previous window's code is still accepted. */
  const GracePrev: nat := 60

  /** The three bodies the handler answers with. */
  datatype Verdict =
    | Invalid             // { valid: false }
    | ValidCurrent        // { valid: true, mode: "current" }
    | ValidPreviousGrace  // { valid: true, mode: "previous_grace" }
  {
    predicate IsValid() {
      !Invalid?
    }
  }

  /** Seconds elapsed since the start of the window holding `now` (ms). */
  function SecondsIntoWindow(now: nat): (s: nat)
    ensures s < 300
    ensures EpochSeconds(now) == Counter(now, 300) * 300 + s
  {
    EpochSeconds(now) % 300
  }

  /**
   * The handler's answer for the submitted string `submitted` (already
   * converted with `String(body.code || "")`) at time `now` (ms).
   * Whatever it answers, an accepted code is a six-digit code.
   */
  function Verify(derive: Deriver, secret: Secret, submitted: string, now: nat): (v: Verdict)
    ensures v.IsValid() ==> IsSixDigitCode(Trim(submitted))
  {
    var code := Trim(submitted);
    if !IsSixDigitCode(code) then
      Invalid
    else
      var currentCode := Generate(derive, secret, 300, now);
      if code == currentCode then
        ValidCurrent
      else if SecondsIntoWindow(now) <= GracePrev then
        var prevCode := Generate(derive, secret, 300, now - 300_000);
        if code == prevCode then ValidPreviousGrace else Invalid
      else
        Invalid
  }

  /** The code computed for the grace check is the previous window's code. */
  lemma PrevCodeIsPreviousWindow(derive: Deriver, secret: Secret, now: nat)
    ensures Generate(derive, secret, 300, now - 300_000) == derive(secret, Counter(now, 300) - 1)
  {
    PreviousPeriodCounter(now, 300);
  }

  /**
   * The whole decision, stated with window counters: `current` exactly when
   * the trimmed six-digit code is the current window's code; `previous_grace`
   * exactly when it is not, it is the previous window's code, and at most 60
   * seconds of the window have passed; `{valid:false}` in every other case.
   */
  lemma VerifyDecision(derive: Deriver, secret: Secret, submitted: string, now: nat)
    ensures var code, t := Trim(submitted), Counter(now, 300);
      && (Verify(derive, secret, submitted, now) == ValidCurrent <==>
            IsSixDigitCode(code) && code == derive(secret, t))
      && (Verify(derive, secret, submitted, now) == ValidPreviousGrace <==>
            && IsSixDigitCode(code)
            && code != derive(secret, t)
            && SecondsIntoWindow(now) <= GracePrev
            && code == derive(secret, t - 1))
  {
    PrevCodeIsPreviousWindow(derive, secret, now);
  }

  /** A string that is not six ASCII digits once trimmed is answered `{valid:false}`. */
  lemma MalformedCodeRejected(derive: Deriver, secret: Secret, submitted: string, now: nat)
    requires !IsSixDigitCode(Trim(submitted))
    ensures Verify(derive, secret, submitted, now) == Invalid
  {
  }

  /**
   * The current window's code is accepted as `current`, even when it is also
   * the previous window's code: the current comparison comes first.
   */
  lemma CurrentCodeAccepted(derive: Deriver, secret: Secret, submitted: string, now: nat)
    requires IsSixDigitCode(Trim(submitted))
    requires Trim(submitted) == derive(secret, Counter(now, 300))
    ensures Verify(derive, secret, submitted, now) == ValidCurrent
  {
  }

  /** During the first 60 seconds of a window the previous window's code is accepted. */
  lemma PreviousCodeAcceptedInGrace(derive: Deriver, secret: Secret, submitted: string, now: nat)
    requires IsSixDigitCode(Trim(submitted))
    requires SecondsIntoWindow(now) <= GracePrev
    requires Trim(submitted) == derive(secret, Counter(now, 300) - 1)
    requires Trim(submitted) != derive(secret, Counter(now, 300))
    ensures Verify(derive, secret, submitted, now) == ValidPreviousGrace
  {
    PrevCodeIsPreviousWindow(derive, secret, now);
  }

  /** The same, for a code submitted without surrounding whitespace. */
  lemma SixDigitPreviousCodeAcceptedInGrace(derive: Deriver, secret: Secret, code: string, now: nat)
    requires IsSixDigitCode(code)
    requires SecondsIntoWindow(now) <= GracePrev
    requires code == derive(secret, Counter(now, 300) - 1)
    requires code != derive(secret, Counter(now, 300))
    ensures Verify(derive, secret, code, now) == ValidPreviousGrace
  {
    TrimSixDigitCode(code);
    PreviousCodeAcceptedInGrace(derive, secret, code, now);
  }

  /** After the grace interval only the current code is accepted. */
  lemma OnlyCurrentAfterGrace(derive: Deriver, secret: Secret, submitted: string, now: nat)
    requires SecondsIntoWindow(now) > GracePrev
    ensures Verify(derive, secret, submitted, now).IsValid() <==>
              IsSixDigitCode(Trim(submitted)) && Trim(submitted) == derive(secret, Counter(now, 300))
    ensures Verify(derive, secret, submitted, now) != ValidPreviousGrace
  {
  }

  /**
   * Nothing but the current or the previous window's code is ever accepted;
   * in particular not the next window's code.
   */
  lemma AcceptsOnlyCurrentOrPrevious(derive: Deriver, secret: Secret, submitted: string, now: nat)
    ensures Verify(derive, secret, submitted, now).IsValid() ==>
              || Trim(submitted) == derive(secret, Counter(now, 300))
              || Trim(submitted) == derive(secret, Counter(now, 300) - 1)
  {
    PrevCodeIsPreviousWindow(derive, secret, now);
  }

  /** There is no forward window: a code of any other window that differs from both is rejected. */
  lemma OtherWindowCodeRejected(derive: Deriver, secret: Secret, submitted: string, now: nat, counter: int)
    requires Trim(submitted) == derive(secret, counter)
    requires derive(secret, counter) != derive(secret, Counter(now, 300))
    requires derive(secret, counter) != derive(secret, Counter(now, 300) - 1)
    ensures Verify(derive, secret, submitted, now) == Invalid
  {
    AcceptsOnlyCurrentOrPrevious(derive, secret, submitted, now);
  }

  /** Whitespace around the submitted code does not change the answer. */
  lemma SurroundingWhitespaceIgnored(derive: Deriver, secret: Secret, pre: string, submitted: string, post: string, now: nat)
    requires AllWhitespace(pre) && AllWhitespace(post)
    ensures Verify(derive, secret, pre + submitted + post, now) == Verify(derive, secret, submitted, now)
  {
    TrimIgnoresPadding(pre, submitted, post);
  }
}
