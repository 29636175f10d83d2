/**
 * The textual side of the verification handler: JavaScript's
 * `String.prototype.trim()` and the `/^\d{6}$/` format test applied to the
 * submitted code before any comparison.
 */
module CodeFormat {

  /** Number of digits of a code (`digits: 6` in the TOTP configuration). */
  const CodeLength: nat := 6

  /**
   * The characters `trim()` removes: ECMAScript WhiteSpace (TAB, VT, FF,
   * SP, NBSP, ZWNBSP and the Unicode space separators) and LineTerminator
   * (LF, CR, LS, PS).
   */
  function IsJsWhitespace(c: char): (ws: bool)
    ensures c == ' ' || c == '\t' || c == '\n' || c == '\r' ==> ws
    ensures ws ==> !IsAsciiDigit(c)
  {
    || c == '\U{0009}' || c == '\U{000B}' || c == '\U{000C}' || c == '\U{0020}'
    || c == '\U{00A0}' || c == '\U{FEFF}' || c == '\U{1680}' || ('\U{2000}' <= c <= '\U{200A}')
    || c == '\U{202F}' || c == '\U{205F}' || c == '\U{3000}'
    || c == '\U{000A}' || c == '\U{000D}' || c == '\U{2028}' || c == '\U{2029}'
  }

  predicate AllWhitespace(s: string) {
    forall k :: 0 <= k < |s| ==> IsJsWhitespace(s[k])
  }

  /** `\d` without the `u` flag: an ASCII decimal digit. */
  predicate IsAsciiDigit(c: char) {
    '0' <= c <= '9'
  }

  /**
   * What `/^\d{6}$/.test(code)` accepts: exactly six ASCII digits, nothing
   * else. Without the `m` flag `$` matches only at the very end, so not even
   * a final line terminator is allowed, and a code holds no whitespace.
   */
  function IsSixDigitCode(s: string): (ok: bool)
    ensures ok ==> forall k :: 0 <= k < |s| ==> !IsJsWhitespace(s[k])
  {
    |s| == CodeLength && forall k :: 0 <= k < |s| ==> IsAsciiDigit(s[k])
  }

  /** The anchors `^` and `$`: nothing may precede or follow the six digits. */
  lemma SixDigitCodeAnchored(s: string, extra: string)
    requires IsSixDigitCode(s) && extra != []
    ensures !IsSixDigitCode(s + extra) && !IsSixDigitCode(extra + s)
  {
  }

  /** Drops leading whitespace: the result is the suffix after a whitespace-only prefix. */
  function TrimStart(s: string): (r: string)
    ensures |r| <= |s| && r == s[|s| - |r|..]
    ensures forall k :: 0 <= k < |s| - |r| ==> IsJsWhitespace(s[k])
    ensures r != [] ==> !IsJsWhitespace(r[0])
  {
    if s != [] && IsJsWhitespace(s[0]) then
      TrimStart(s[1..])
    else
      s
  }

  /** Drops trailing whitespace: the result is the prefix before a whitespace-only suffix. */
  function TrimEnd(s: string): (r: string)
    ensures |r| <= |s| && r == s[..|r|]
    ensures forall k :: |r| <= k < |s| ==> IsJsWhitespace(s[k])
    ensures r != [] ==> !IsJsWhitespace(r[|r| - 1])
  {
    if s != [] && IsJsWhitespace(s[|s| - 1]) then
      TrimEnd(s[..|s| - 1])
    else
      s
  }

  /**
   * `String.prototype.trim()`: the result is the slice `s[i..i + |r|]` with
   * only whitespace before and after it, and it neither starts nor ends with
   * whitespace.
   */
  function Trim(s: string): (r: string)
    ensures |r| <= |s|
    ensures exists i :: TrimmedAt(s, i, r)
    ensures r != [] ==> !IsJsWhitespace(r[0]) && !IsJsWhitespace(r[|r| - 1])
  {
    var t := TrimStart(s);
    var r := TrimEnd(t);
    var i := |s| - |t|;
    assert TrimmedAt(s, i, r) by {
      assert r == s[i..i + |r|];
      assert forall k :: i + |r| <= k < |s| ==> s[k] == t[k - i];
    }
    r
  }

  /** `r` sits at offset `i` of `s` with only whitespace around it. */
  predicate TrimmedAt(s: string, i: int, r: string) {
    && 0 <= i <= i + |r| <= |s|
    && r == s[i..i + |r|]
    && (forall k :: 0 <= k < i ==> IsJsWhitespace(s[k]))
    && (forall k :: i + |r| <= k < |s| ==> IsJsWhitespace(s[k]))
  }

  /** A string with no whitespace at either end is left as it is by `trim()`. */
  lemma TrimKeepsTrimmed(s: string)
    requires s != [] ==> !IsJsWhitespace(s[0]) && !IsJsWhitespace(s[|s| - 1])
    ensures Trim(s) == s
  {
  }

  /** Trimming twice is trimming once. */
  lemma TrimIdempotent(s: string)
    ensures Trim(Trim(s)) == Trim(s)
  {
    TrimKeepsTrimmed(Trim(s));
  }

  /** A six-digit code holds no whitespace, so `trim()` does not change it. */
  lemma TrimSixDigitCode(s: string)
    requires IsSixDigitCode(s)
    ensures Trim(s) == s
  {
    assert IsAsciiDigit(s[0]) && IsAsciiDigit(s[|s| - 1]);
    TrimKeepsTrimmed(s);
  }

  /** A whitespace-only prefix is skipped entirely by `TrimStart`. */
  lemma {:induction false} TrimStartSkipsPrefix(pre: string, s: string)
    requires AllWhitespace(pre)
    ensures TrimStart(pre + s) == TrimStart(s)
  {
    if pre != [] {
      assert IsJsWhitespace((pre + s)[0]);
      assert (pre + s)[1..] == pre[1..] + s;
      assert AllWhitespace(pre[1..]);
      TrimStartSkipsPrefix(pre[1..], s);
    } else {
      assert pre + s == s;
    }
  }

  /** A whitespace-only suffix is dropped entirely by `TrimEnd`. */
  lemma {:induction false} TrimEndSkipsSuffix(s: string, post: string)
    requires AllWhitespace(post)
    ensures TrimEnd(s + post) == TrimEnd(s)
  {
    if post != [] {
      var n := |post| - 1;
      assert IsJsWhitespace((s + post)[|s + post| - 1]);
      assert (s + post)[..|s + post| - 1] == s + post[..n];
      assert AllWhitespace(post[..n]);
      TrimEndSkipsSuffix(s, post[..n]);
    } else {
      assert s + post == s;
    }
  }

  /** Once a non-whitespace character is reached, whatever follows is kept by `TrimStart`. */
  lemma {:induction false} TrimStartKeepsTail(s: string, post: string)
    requires TrimStart(s) != []
    ensures TrimStart(s + post) == TrimStart(s) + post
  {
    assert (s + post)[0] == s[0];
    if IsJsWhitespace(s[0]) {
      assert TrimStart(s) == TrimStart(s[1..]);
      assert (s + post)[1..] == s[1..] + post;
      TrimStartKeepsTail(s[1..], post);
    } else {
      assert TrimStart(s) == s;
    }
  }

  /** Surrounding whitespace is ignored: padding a string with it does not change its trim. */
  lemma TrimIgnoresPadding(pre: string, s: string, post: string)
    requires AllWhitespace(pre) && AllWhitespace(post)
    ensures Trim(pre + s + post) == Trim(s)
  {
    var x := s + post;
    assert pre + s + post == pre + x;
    TrimStartSkipsPrefix(pre, x);
    var t := TrimStart(s);
    if t != [] {
      TrimStartKeepsTail(s, post);
      TrimEndSkipsSuffix(t, post);
    } else {
      assert AllWhitespace(s);
      TrimStartSkipsPrefix(s, post);
      assert post + [] == post;
      TrimStartSkipsPrefix(post, []);
    }
  }
}
