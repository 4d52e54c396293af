/**
 * Characters and strings as the renamer's regular expressions and string
 * methods see them: the identifier class `[A-Za-z0-9$_]`, JavaScript's `\s`
 * and `trim`, ASCII case mapping, decimal numbers in template strings, and
 * `split`/`join` on one separator character.
 */
module Text {

  predicate IsAsciiUpper(c: char) { 'A' <= c <= 'Z' }
  predicate IsAsciiLower(c: char) { 'a' <= c <= 'z' }
  predicate IsDigit(c: char) { '0' <= c <= '9' }

  /** The class `[A-Za-z0-9$_]` used at index.js:83 and index.js:146. */
  predicate IsWordChar(c: char) {
    IsAsciiUpper(c) || IsAsciiLower(c) || IsDigit(c) || c == '$' || c == '_'
  }

  /** JavaScript's WhiteSpace and LineTerminator code points: what `\s` matches and what `trim` removes. */
  predicate IsJsSpace(c: char) {
    || c == '\t' || c == '\n' || c == '\U{000B}' || c == '\U{000C}' || c == '\r' || c == ' '
    || c == '\U{00A0}' || c == '\U{1680}' || ('\U{2000}' <= c <= '\U{200A}')
    || c == '\U{2028}' || c == '\U{2029}' || c == '\U{202F}' || c == '\U{205F}'
    || c == '\U{3000}' || c == '\U{FEFF}'
  }

  /** The line terminators: the regular-expression `.` matches every character but these. */
  predicate IsLineTerminator(c: char) {
    c == '\n' || c == '\r' || c == '\U{2028}' || c == '\U{2029}'
  }

  /** `toUpperCase` on one character, restricted to ASCII letters. */
  function ToUpper(c: char): (u: char)
    ensures IsAsciiLower(c) ==> IsAsciiUpper(u) && u as int == c as int - 32
    ensures !IsAsciiLower(c) ==> u == c
  {
    if IsAsciiLower(c) then (c as int - 32) as char else c
  }

  /** `toLowerCase` on a string, restricted to ASCII letters. */
  function ToLower(s: string): (r: string)
    ensures |r| == |s|
  {
    seq(|s|, i requires 0 <= i < |s| => if IsAsciiUpper(s[i]) then (s[i] as int + 32) as char else s[i])
  }

  /** The test `/[A-Z]/` of index.js:323. */
  predicate HasUpper(s: string) {
    exists i | 0 <= i < |s| :: IsAsciiUpper(s[i])
  }

  /** A name differs from its lower-case form exactly when it holds an upper-case letter (index.js:324). */
  lemma ToLowerChangesIffUpper(s: string)
    ensures ToLower(s) != s <==> HasUpper(s)
  {
    if HasUpper(s) {
      var i :| 0 <= i < |s| && IsAsciiUpper(s[i]);
      assert ToLower(s)[i] != s[i];
    } else {
      assert forall i | 0 <= i < |s| :: ToLower(s)[i] == s[i];
    }
  }

  /**
   * The test `/^[A-Za-z0-9$_]{1,2}[0-9_]*$/` of index.js:146, written out:
   * one or two identifier characters, then only digits and underscores.
   */
  predicate IsShort(x: string) {
    && 1 <= |x|
    && IsWordChar(x[0])
    && (|x| >= 2 ==> IsWordChar(x[1]))
    && forall i | 2 <= i < |x| :: IsDigit(x[i]) || x[i] == '_'
  }

  /** The same pattern as a split point `k` between the `{1,2}` part and the `[0-9_]*` part. */
  ghost predicate MatchesShortPattern(x: string) {
    exists k | 1 <= k <= 2 && k <= |x| :: SplitsAt(x, k)
  }

  /** `x[..k]` matches `[A-Za-z0-9$_]*` and `x[k..]` matches `[0-9_]*`. */
  ghost predicate SplitsAt(x: string, k: nat)
    requires k <= |x|
  {
    && (forall i | 0 <= i < k :: IsWordChar(x[i]))
    && (forall i | k <= i < |x| :: IsDigit(x[i]) || x[i] == '_')
  }

  /** `IsShort` agrees with the regular expression it stands for. */
  lemma IsShortMatchesPattern(x: string)
    ensures IsShort(x) <==> MatchesShortPattern(x)
  {
    if IsShort(x) {
      var k := if |x| >= 2 then 2 else 1;
      assert SplitsAt(x, k);
    }
    if MatchesShortPattern(x) {
      var k :| 1 <= k <= 2 && k <= |x| && SplitsAt(x, k);
      if k == 1 && |x| >= 2 {
        assert IsDigit(x[1]) || x[1] == '_';
      }
    }
  }

  /** Every name of one or two identifier characters is short. */
  lemma OneOrTwoCharsAreShort(x: string)
    requires 1 <= |x| <= 2
    requires forall i | 0 <= i < |x| :: IsWordChar(x[i])
    ensures IsShort(x)
  {
  }

  // ---------------------------------------------------------------------------
  // Decimal numerals, as a template string prints a counter (index.js:30)

  function DigitChar(d: nat): (c: char)
    requires d < 10
    ensures IsDigit(c)
  {
    ('0' as int + d) as char
  }

  /** The decimal numeral of `n`, as `${n}` prints it. */
  function NatToString(n: nat): (s: string)
    ensures |s| >= 1
    ensures forall i | 0 <= i < |s| :: IsDigit(s[i])
    decreases n
  {
    if n < 10 then [DigitChar(n)] else NatToString(n / 10) + [DigitChar(n % 10)]
  }

  /** Reading a numeral back: the inverse of `NatToString`. */
  function DigitsValue(s: string): nat
    requires forall i | 0 <= i < |s| :: IsDigit(s[i])
  {
    if s == [] then 0 else DigitsValue(s[..|s| - 1]) * 10 + DigitValue(s[|s| - 1])
  }

  function DigitValue(c: char): nat
    requires IsDigit(c)
  {
    c as int - '0' as int
  }

  lemma {:induction false} NatToStringRoundTrip(n: nat)
    ensures DigitsValue(NatToString(n)) == n
    decreases n
  {
    var s := NatToString(n);
    if n >= 10 {
      NatToStringRoundTrip(n / 10);
      assert s[..|s| - 1] == NatToString(n / 10);
    }
  }

  /** Different counters print as different numerals. */
  lemma NatToStringInjective(m: nat, n: nat)
    ensures NatToString(m) == NatToString(n) ==> m == n
  {
    NatToStringRoundTrip(m);
    NatToStringRoundTrip(n);
  }

  // ---------------------------------------------------------------------------
  // join and split on one separator character

  /** `parts.join(sep)`; an empty list joins to the empty string. */
  function Join(parts: seq<string>, sep: char): string
  {
    if parts == [] then []
    else if |parts| == 1 then parts[0]
    else parts[0] + [sep] + Join(parts[1..], sep)
  }

  /** `s.split(sep)`: at least one part, no part holds `sep`, and joining the parts gives `s` back. */
  function Split(s: string, sep: char): (parts: seq<string>)
    ensures |parts| >= 1
    ensures forall i | 0 <= i < |parts| :: sep !in parts[i]
    ensures Join(parts, sep) == s
    decreases |s|
  {
    if s == [] then [[]]
    else
      var rest := Split(s[1..], sep);
      if s[0] == sep then
        assert s == [sep] + s[1..];
        [[]] + rest
      else
        var parts := [[s[0]] + rest[0]] + rest[1..];
        assert parts[1..] == rest[1..];
        assert s == [s[0]] + s[1..];
        parts
  }

  lemma {:induction false} SplitSepFreePrefix(p: string, u: string, sep: char)
    requires sep !in p
    ensures Split(p + u, sep) == [p + Split(u, sep)[0]] + Split(u, sep)[1..]
    decreases |p|
  {
    if p != [] {
      assert (p + u)[1..] == p[1..] + u;
      SplitSepFreePrefix(p[1..], u, sep);
      assert [p[0]] + (p[1..] + Split(u, sep)[0]) == p + Split(u, sep)[0];
    } else {
      var parts := Split(u, sep);
      assert p + u == u;
      assert p + parts[0] == parts[0];
      assert [parts[0]] + parts[1..] == parts;
    }
  }

  /** Splitting a join of separator-free parts gives the parts back. */
  lemma {:induction false} SplitJoin(parts: seq<string>, sep: char)
    requires |parts| >= 1
    requires forall i | 0 <= i < |parts| :: sep !in parts[i]
    ensures Split(Join(parts, sep), sep) == parts
    decreases |parts|
  {
    if |parts| == 1 {
      SplitSepFreePrefix(parts[0], [], sep);
      assert parts[0] + [] == parts[0];
    } else {
      var tail := Join(parts[1..], sep);
      SplitJoin(parts[1..], sep);
      assert Split([sep] + tail, sep) == [[]] + parts[1..] by {
        assert ([sep] + tail)[1..] == tail;
      }
      assert Join(parts, sep) == parts[0] + ([sep] + tail);
      SplitSepFreePrefix(parts[0], [sep] + tail, sep);
      assert parts[0] + [] == parts[0];
      assert [parts[0]] + parts[1..] == parts;
    }
  }

  // ---------------------------------------------------------------------------
  // trim and the last whitespace-delimited token (index.js:89)

  /** The length of `s` without its trailing whitespace. */
  function TrimmedLength(s: string): (n: nat)
    ensures n <= |s|
    ensures n == 0 || !IsJsSpace(s[n - 1])
    ensures forall i | n <= i < |s| :: IsJsSpace(s[i])
    decreases |s|
  {
    if s == [] || !IsJsSpace(s[|s| - 1]) then |s| else TrimmedLength(s[..|s| - 1])
  }

  /** `s` without its trailing whitespace. */
  function TrimEnd(s: string): (r: string)
    ensures |r| <= |s| && r == s[..|r|]
    ensures r == [] || !IsJsSpace(r[|r| - 1])
    ensures forall i | |r| <= i < |s| :: IsJsSpace(s[i])
  {
    s[..TrimmedLength(s)]
  }

  /** Where the longest whitespace-free suffix of `s` starts. */
  function SpaceFreeStart(s: string): (k: nat)
    ensures k <= |s|
    ensures forall i | k <= i < |s| :: !IsJsSpace(s[i])
    ensures k == 0 || IsJsSpace(s[k - 1])
    decreases |s|
  {
    if s == [] || IsJsSpace(s[|s| - 1]) then |s| else SpaceFreeStart(s[..|s| - 1])
  }

  /**
   * `y.trim().split(/\s+/).pop()`: the last maximal whitespace-free run of
   * `s`, or the empty string when `s` is all whitespace. It is a slice of `s`.
   */
  function LastToken(s: string): (t: string)
    ensures SpaceFree(t)
    ensures var e := TrimEnd(s);
      && |t| <= |e| && t == e[|e| - |t|..] && t == s[|e| - |t|..|e|]
      && (|t| == |e| || IsJsSpace(e[|e| - |t| - 1]))
  {
    var e := TrimEnd(s);
    var k := SpaceFreeStart(e);
    var t := e[k..];
    assert t == s[k..|e|];
    t
  }

  /** Every character of `s` is whitespace. */
  predicate AllSpace(s: string) {
    forall i | 0 <= i < |s| :: IsJsSpace(s[i])
  }

  /** No character of `s` is whitespace. */
  predicate SpaceFree(s: string) {
    forall i | 0 <= i < |s| :: !IsJsSpace(s[i])
  }

  /**
   * A token preceded by whitespace (or nothing) and followed only by
   * whitespace is the last token.
   */
  lemma LastTokenAfterSpace(pre: string, t: string, post: string)
    requires |t| >= 1 && SpaceFree(t) && AllSpace(post)
    requires pre == [] || IsJsSpace(pre[|pre| - 1])
    ensures LastToken(pre + t + post) == t
  {
    var s := pre + t + post;
    var n := TrimmedLength(s);
    assert s[|pre| + |t| - 1] == t[|t| - 1];
    assert forall i | |pre| + |t| <= i < |s| :: s[i] == post[i - |pre| - |t|];
    assert n == |pre| + |t|;
    var e := TrimEnd(s);
    assert e == pre + t;
    var k := SpaceFreeStart(e);
    assert forall i | 0 <= i < |t| :: e[|pre| + i] == t[i];
    assert pre == [] || IsJsSpace(e[|pre| - 1]);
    assert forall i | |pre| <= i < |e| :: !IsJsSpace(e[i]);
    assert k == |pre|;
    assert e[k..] == t;
  }

  /** A string holds the separator exactly when splitting on it gives more than one part. */
  lemma SplitFindsSep(s: string, sep: char)
    ensures |Split(s, sep)| >= 2 <==> sep in s
  {
    var parts := Split(s, sep);
    if |parts| >= 2 {
      assert s == parts[0] + [sep] + Join(parts[1..], sep);
      assert s[|parts[0]|] == sep;
    }
  }
}
