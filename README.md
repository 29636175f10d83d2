# TOTP gate: verification policy and window clock

A model of the two HTTP handlers of the XIME gate OTP engine, stripped down to
what they decide:

- `api/verifyCode.js` trims a submitted code, rejects anything that is not
  exactly six ASCII digits, and compares it with the TOTP code of the current
  300-second window. During the first 60 seconds of a window only, it also
  accepts the previous window's code. It gets that code by moving the
  timestamp back by `period * 1000` ms. The answer is `{valid:false}`,
  `{valid:true, mode:"current"}` or `{valid:true, mode:"previous_grace"}`.
- `api/gateCode.js` returns the current window's code, `validForSeconds = 300`
  and `remainingSeconds = period - (epochSec % period)`.

Both handlers configure the `otpauth` library with SHA-1, six digits and a
300-second period. The model follows section 4.2 of RFC 6238 with T0 = 0: the
counter of a millisecond timestamp is `floor(floor(now / 1000) / 300)`. The
HOTP value for a counter (HMAC-SHA1 and the dynamic truncation of section 5.3
of RFC 4226) is computed inside the library. It is a function-typed parameter
`derive: (Secret, int) -> string` of every operation. Nothing is assumed about
it, except where a lemma explicitly requires that it renders six ASCII digits.

Modules:

- `Totp` (`totp.dfy`): epoch seconds, the window counter and code generation.
  It holds the key arithmetic fact: shifting a timestamp back by one period
  gives the previous counter.
- `CodeFormat` (`code_format.dfy`): JavaScript's `trim()`, using the
  ECMAScript WhiteSpace and LineTerminator characters, and the `/^\d{6}$/`
  test.
- `VerifyCode` (`verify_code.dfy`): the verification decision `Verify` and
  its properties.
- `GateCode` (`gate_code.dfy`): the generator's answer `Gate` and the
  `remainingSeconds` clock.
- `GateAndVerify` (`gate_and_verify.dfy`): how the two handlers fit together,
  and worked scenarios on concrete epoch seconds.

With T0 = 0 and a 300-second period, windows start at multiples of 300: 900,
1200, 1500 and so on. Epoch seconds 950 and 1030 lie in the same window. A
full 300 seconds remain at epoch second 1200, and 100 remain at 1100. The
scenario lemmas state these facts.

## Model

| member | source | states |
|---|---|---|
| Totp.EpochSeconds | api/verifyCode.js:52 | `Math.floor(now / 1000)`: the whole second `s` with `s*1000 <= now < s*1000 + 1000` |
| Totp.Counter | api/gateCode.js:31 | the counter `t` of a timestamp is the window whose seconds `[t*period, t*period + period)` contain its epoch second |
| Totp.Generate | api/gateCode.js:31 | `totp.generate({ timestamp })`: the code is `derive(secret, t)` for every `t` whose window `[t*period, t*period + period)` holds the epoch second of the timestamp |
| Totp.PreviousPeriodCounter | api/verifyCode.js:61 | the timestamp `now - period*1000` has counter exactly one less than `now`, for every period and every timestamp |
| CodeFormat.IsJsWhitespace | api/verifyCode.js:36 | the characters `trim()` removes: space, tab, LF and CR among them, and never an ASCII digit |
| CodeFormat.IsSixDigitCode | api/verifyCode.js:37 | `/^\d{6}$/`: `\d` without the `u` flag is an ASCII digit, and `$` without the `m` flag leaves no room for a final line terminator; an accepted code holds no whitespace at all |
| CodeFormat.SixDigitCodeAnchored | api/verifyCode.js:37 | the anchors `^` and `$`: adding any characters before or after a six-digit code makes it rejected |
| CodeFormat.TrimStart | api/verifyCode.js:36 | the result is a suffix of the input, everything dropped is whitespace, and it does not start with whitespace |
| CodeFormat.TrimEnd | api/verifyCode.js:36 | the result is a prefix of the input, everything dropped is whitespace, and it does not end with whitespace |
| CodeFormat.Trim | api/verifyCode.js:36 | `trim()`: the result is a slice of the input with only whitespace before and after it, and it neither starts nor ends with whitespace |
| CodeFormat.TrimKeepsTrimmed | api/verifyCode.js:36 | a string with no whitespace at either end is unchanged by `trim()` |
| CodeFormat.TrimIdempotent | api/verifyCode.js:36 | trimming twice gives the same as trimming once |
| CodeFormat.TrimSixDigitCode | api/verifyCode.js:36-37 | a six-digit code is unchanged by `trim()` |
| CodeFormat.TrimStartSkipsPrefix | api/verifyCode.js:36 | a whitespace-only prefix is removed completely |
| CodeFormat.TrimEndSkipsSuffix | api/verifyCode.js:36 | a whitespace-only suffix is removed completely |
| CodeFormat.TrimStartKeepsTail | api/verifyCode.js:36 | once a non-whitespace character is reached, the rest of the string is kept as it is |
| CodeFormat.TrimIgnoresPadding | api/verifyCode.js:36 | `trim(pre + s + post) == trim(s)` when `pre` and `post` are all whitespace |
| VerifyCode.SecondsIntoWindow | api/verifyCode.js:52-53 | `secondsIntoWindow` lies in `[0, 300)`, and the epoch second is `counter*300 + secondsIntoWindow` |
| VerifyCode.Verify | api/verifyCode.js:36-65 | the handler's answer; it answers valid only for a trimmed six-digit code |
| VerifyCode.PrevCodeIsPreviousWindow | api/verifyCode.js:61 | `prevCode` is the code of counter `T - 1` |
| VerifyCode.VerifyDecision | api/verifyCode.js:55-65 | both directions: `current` exactly when the trimmed six-digit code is the code of `T`; `previous_grace` exactly when it is not, it is the code of `T - 1`, and `secondsIntoWindow <= 60` |
| VerifyCode.MalformedCodeRejected | api/verifyCode.js:36-37 | a submission that is not six ASCII digits after trimming gets `{valid:false}` |
| VerifyCode.CurrentCodeAccepted | api/verifyCode.js:56-57 | the current code is answered `current`, even when it is also the previous window's code |
| VerifyCode.PreviousCodeAcceptedInGrace | api/verifyCode.js:59-62 | with `secondsIntoWindow <= 60`, the previous window's code, when it differs from the current code, is answered `previous_grace` |
| VerifyCode.SixDigitPreviousCodeAcceptedInGrace | api/verifyCode.js:59-62 | the same rule, for a six-digit code submitted without surrounding whitespace |
| VerifyCode.OnlyCurrentAfterGrace | api/verifyCode.js:60-65 | with `secondsIntoWindow > 60`, the answer is valid exactly for the current code, and it is never `previous_grace` |
| VerifyCode.AcceptsOnlyCurrentOrPrevious | api/verifyCode.js:55-65 | a valid answer means the trimmed code is the code of `T` or of `T - 1` |
| VerifyCode.OtherWindowCodeRejected | api/verifyCode.js:55-65 | the code of any counter, including `T + 1`, is rejected when it differs from the codes of `T` and `T - 1`: there is no forward window |
| VerifyCode.SurroundingWhitespaceIgnored | api/verifyCode.js:36 | whitespace around the submitted code does not change the answer |
| GateCode.RemainingSeconds | api/gateCode.js:34-35 | `remainingSeconds` lies in `[1, 300]`, and epoch second plus `remainingSeconds` is the start of the next window |
| GateCode.Gate | api/gateCode.js:30-41 | the answer carries the code of counter `floor(floor(now/1000)/300)`, `validForSeconds == 300` whatever `now` is, and `remainingSeconds` in `[1, 300]` |
| GateCode.SameWindowCountsDown | api/gateCode.js:34-35 | until the window ends, the code stays the same and `remainingSeconds` drops by exactly the seconds that passed |
| GateCode.RemainingSecondsTick | api/gateCode.js:34-35 | one second later `remainingSeconds` drops by 1; at the last second of a window it resets to 300 and the counter moves on by one |
| GateAndVerify.WindowArithmeticAgrees | api/gateCode.js:35 | `remainingSeconds + secondsIntoWindow == 300` for the same `now` |
| GateAndVerify.GeneratedCodeAccepted | api/gateCode.js:31 | round trip: the code the generator returns at `now`, submitted at the same `now`, is answered `current`, assuming the library renders six ASCII digits |
| GateAndVerify.EarlierGateCode | api/verifyCode.js:61 | the generator's code one period before `now` is the code the verifier computes as `prevCode` |
| GateAndVerify.PreviousWindowCodeAcceptedInGrace | api/verifyCode.js:59-62 | a code handed out anywhere in the previous window is answered `previous_grace` during the first 60 seconds, when it differs from the current code |
| GateAndVerify.PreviousWindowCodeRejectedAfterGrace | api/verifyCode.js:60-65 | the same code is rejected after the first 60 seconds |
| GateAndVerify.WindowAt | api/verifyCode.js:52-53 | an epoch second `counter*300 + into` has counter `counter`, `into` seconds into the window and `300 - into` remaining |
| GateAndVerify.SameWindowTimes | api/verifyCode.js:52-53 | epoch seconds 950 and 1030 are both in window 3 |
| GateAndVerify.AcrossBoundaryTimes | api/verifyCode.js:52-53 | 1150 is in window 3; 1230 and 1270 are 30 and 70 seconds into window 4 |
| GateAndVerify.ScenarioSameWindow | api/verifyCode.js:52-57 | a code handed out at epoch second 950 is answered `current` at 1030 |
| GateAndVerify.ScenarioAcrossBoundary | api/verifyCode.js:52-63 | a code handed out at epoch second 1150 is answered `previous_grace` at 1230 and `{valid:false}` at 1270, when it differs from the next window's code |
| GateAndVerify.ScenarioRemainingSeconds | api/gateCode.js:35 | `remainingSeconds` is 300 at epoch second 1200 and 100 at 1100; `validForSeconds` is 300 |

## Left out

- HTTP plumbing: the CORS preflight, the 405 method check and the `json` response writer (api/verifyCode.js:3-7, 22-24; api/gateCode.js:3-13). These are transport, not decisions.
- `readJson` and the 400 "Invalid JSON" answer (api/verifyCode.js:9-18, 29-34). This is asynchronous I/O. `Verify` takes the submitted string directly, after `String(body.code || "")`. That JavaScript coercion of arbitrary JSON values is not modelled.
- Reading `OTP_SECRET` from the environment and the 500 answer when it is missing. This is environment I/O. The decoded key bytes are a parameter, and base32 decoding (RFC 4648 `Secret.fromBase32`) is not modelled.
- The HOTP computation inside `otpauth`: HMAC-SHA1 and dynamic truncation. The library is not part of this model, so `derive` is a parameter. No cryptographic property, such as different secrets giving different codes, is claimed.
- `Date.now()`: the time is a natural-number millisecond parameter `now`.
- The `issuer` and `label` settings: they do not affect any code or answer.
- Totp.Counter: the counter is exact integer arithmetic, as section 4.2 of RFC 6238 defines it. Any floating-point rounding inside the library is not modelled.
- CodeFormat.Trim: strings are sequences of characters. JavaScript works on UTF-16 code units, and whitespace outside the Basic Multilingual Plane does not exist, so this does not change what `trim()` removes.
- Determinism of both handlers for the same `(secret, now)` holds by construction. Every operation is a function of its parameters, so no lemma states it.
