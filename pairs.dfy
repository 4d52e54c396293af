/**
 * Candidate pairs (index.js:80-104): the matches of the declaration pattern
 * in the printed code become (name, value) pairs; a name that more than one
 * match binds is ambiguous and dropped; a value that is `function` or whose
 * second character is `.` is dropped; the value is camel-cased across dots;
 * the surviving pairs become the replacer map, and a round renames each name
 * to `value$name` (index.js:275-277).
 */
module Pairs {
  import opened Wrappers
  import opened Text

  predicate IsQuote(c: char) { c == '\'' || c == '"' }

  predicate QuoteFree(s: string) {
    forall i | 0 <= i < |s| :: !IsQuote(s[i])
  }

  /** `x.replace(/['"]+/g, '')`: every quote removed, every other character kept in order. */
  function RemoveQuotes(s: string): (r: string)
    ensures QuoteFree(r) && |r| <= |s|
    decreases |s|
  {
    if s == [] then []
    else
      var init := s[..|s| - 1];
      var last := s[|s| - 1];
      assert s == init + [last];
      RemoveQuotes(init) + if IsQuote(last) then [] else [last]
  }

  lemma {:induction false} RemoveQuotesAppend(a: string, b: string)
    ensures RemoveQuotes(a + b) == RemoveQuotes(a) + RemoveQuotes(b)
    decreases |b|
  {
    if b == [] {
      assert a + b == a;
    } else {
      var init := b[..|b| - 1];
      assert (a + b)[..|a + b| - 1] == a + init;
      RemoveQuotesAppend(a, init);
    }
  }

  /** A string without quotes is left as it is. */
  lemma {:induction false} RemoveQuotesKeepsQuoteFree(s: string)
    requires QuoteFree(s)
    ensures RemoveQuotes(s) == s
    decreases |s|
  {
    if s != [] {
      var init := s[..|s| - 1];
      assert QuoteFree(init) by {
        assert forall i | 0 <= i < |init| :: init[i] == s[i];
      }
      RemoveQuotesKeepsQuoteFree(init);
      assert s == init + [s[|s| - 1]];
    }
  }

  /** Removing quotes changes a string exactly when it holds a quote. */
  lemma RemoveQuotesChangesIffQuoted(s: string)
    ensures RemoveQuotes(s) == s <==> QuoteFree(s)
  {
    if QuoteFree(s) {
      RemoveQuotesKeepsQuoteFree(s);
    }
  }

  /** One mined pair `[x[0], x[1]]`; `value` is `None` when the match holds no `=` (`x[1]` is `undefined`). */
  datatype Mined = Mined(name: string, value: Option<string>)

  /**
   * index.js:86-89 on one match: strip the quotes, split on `=`, and keep the
   * last whitespace-delimited token of the first two sides.
   */
  function Mine(m: string): (p: Mined)
    ensures SpaceFree(p.name)
    ensures p.value.None? <==> '=' !in RemoveQuotes(m)
    ensures p.value.Some? ==> SpaceFree(p.value.value)
  {
    var parts := Split(RemoveQuotes(m), '=');
    SplitFindsSep(RemoveQuotes(m), '=');
    Mined(LastToken(parts[0]), if |parts| >= 2 then Some(LastToken(parts[1])) else None)
  }

  predicate IsValueChar(c: char) { IsWordChar(c) || c == '.' }

  predicate Lacks(s: string, c: char) {
    forall i | 0 <= i < |s| :: s[i] != c
  }

  lemma QuoteFreeAppend(a: string, b: string)
    requires QuoteFree(a) && QuoteFree(b)
    ensures QuoteFree(a + b)
  {
    assert forall i | |a| <= i < |a + b| :: (a + b)[i] == b[i - |a|];
  }

  /** An optional opening quote: nothing, `'` or `"`. */
  predicate OptionalQuote(q: string) {
    q == [] || (|q| == 1 && IsQuote(q[0]))
  }

  /** The optional opening quote itself is removed entirely. */
  lemma RemoveOptionalQuote(quote: string)
    requires OptionalQuote(quote)
    ensures RemoveQuotes(quote) == []
  {
    if quote != [] {
      assert quote[..0] == [];
    }
  }

  /** The optional quote between a quote-free prefix and a quote-free value goes. */
  lemma StripQuote(a: string, quote: string, value: string)
    requires QuoteFree(a) && QuoteFree(value) && OptionalQuote(quote)
    ensures RemoveQuotes(a + (quote + value)) == a + value
  {
    RemoveQuotesKeepsQuoteFree(a);
    RemoveQuotesKeepsQuoteFree(value);
    RemoveOptionalQuote(quote);
    RemoveQuotesAppend(quote, value);
    RemoveQuotesAppend(a, quote + value);
    calc {
      RemoveQuotes(a + (quote + value));
      RemoveQuotes(a) + RemoveQuotes(quote + value);
      a + RemoveQuotes(quote + value);
      { assert RemoveQuotes(quote + value) == RemoveQuotes(quote) + RemoveQuotes(value); }
      a + ([] + value);
      { assert [] + value == value; }
      a + value;
    }
  }

  /** Splitting `left=right` on `=` when neither side holds one. */
  lemma SplitPair(left: string, right: string)
    requires Lacks(left, '=') && Lacks(right, '=')
    ensures Split(left + "=" + right, '=') == [left, right]
  {
    assert Join([left, right], '=') == left + "=" + right;
    SplitJoin([left, right], '=');
  }

  /** The left side of a match: keyword, whitespace, name, whitespace. */
  lemma LeftSide(head: string, ws1: string, name: string, ws2: string)
    requires head in ["let", "var", "const", ","]
    requires AllSpace(ws1) && AllSpace(ws2)
    requires forall i | 0 <= i < |name| :: IsWordChar(name[i])
    ensures var left := head + ws1 + name + ws2; QuoteFree(left) && Lacks(left, '=')
  {
    var left := head + ws1 + name + ws2;
    forall i | 0 <= i < |left|
      ensures !IsQuote(left[i]) && left[i] != '='
    {
      if i < |head| {
        assert left[i] == head[i];
      } else if i < |head| + |ws1| {
        assert left[i] == ws1[i - |head|];
      } else if i < |head| + |ws1| + |name| {
        assert left[i] == name[i - |head| - |ws1|];
      } else {
        assert left[i] == ws2[i - |head| - |ws1| - |name|];
      }
    }
  }

  /** The right side of a match once its quote is gone: whitespace, value. */
  lemma RightSide(ws3: string, value: string)
    requires AllSpace(ws3)
    requires forall i | 0 <= i < |value| :: IsValueChar(value[i])
    ensures QuoteFree(ws3) && QuoteFree(value) && QuoteFree(ws3 + value) && Lacks(ws3 + value, '=')
  {
    var right := ws3 + value;
    assert forall i | |ws3| <= i < |right| :: right[i] == value[i - |ws3|];
  }

  /**
   * A match of the pattern of index.js:83, `(let|var|const|,)`, whitespace,
   * the name, optional whitespace, `=`, optional whitespace, an optional
   * quote and the value, is mined back into exactly that name and value.
   */
  lemma MineMatch(head: string, ws1: string, name: string, ws2: string, ws3: string, quote: string, value: string)
    requires head in ["let", "var", "const", ","]
    requires |ws1| >= 1 && AllSpace(ws1) && AllSpace(ws2) && AllSpace(ws3)
    requires OptionalQuote(quote)
    requires |name| >= 1 && forall i | 0 <= i < |name| :: IsWordChar(name[i])
    requires |value| >= 1 && forall i | 0 <= i < |value| :: IsValueChar(value[i])
    ensures Mine(head + ws1 + name + ws2 + "=" + ws3 + quote + value) == Mined(name, Some(value))
  {
    var left := head + ws1 + name + ws2;
    var right := ws3 + value;
    LeftSide(head, ws1, name, ws2);
    RightSide(ws3, value);
    var a := left + "=" + ws3;
    assert QuoteFree(a) by {
      QuoteFreeAppend(left, "=");
      QuoteFreeAppend(left + "=", ws3);
    }
    assert head + ws1 + name + ws2 + "=" + ws3 + quote + value == a + (quote + value);
    StripQuote(a, quote, value);
    assert a + value == left + "=" + right;
    SplitPair(left, right);
    NameToken(head + ws1, name, ws2);
    ValueToken(ws3, value);
  }

  lemma NameToken(pre: string, name: string, ws2: string)
    requires |pre| >= 1 && IsJsSpace(pre[|pre| - 1]) && AllSpace(ws2)
    requires |name| >= 1 && forall i | 0 <= i < |name| :: IsWordChar(name[i])
    ensures LastToken(pre + name + ws2) == name
  {
    assert SpaceFree(name);
    LastTokenAfterSpace(pre, name, ws2);
  }

  lemma ValueToken(ws3: string, value: string)
    requires AllSpace(ws3)
    requires |value| >= 1 && forall i | 0 <= i < |value| :: IsValueChar(value[i])
    ensures LastToken(ws3 + value) == value
  {
    assert SpaceFree(value);
    assert ws3 == [] || IsJsSpace(ws3[|ws3| - 1]);
    LastTokenAfterSpace(ws3, value, []);
    assert ws3 + value + [] == ws3 + value;
  }

  // ---------------------------------------------------------------------------
  // The unambiguity filter (index.js:91-94)

  /** `p.findIndex((y) => x == y[0])`: the first index whose name is `x`, or -1. */
  function FindIndex(p: seq<Mined>, x: string): (i: int)
    ensures -1 <= i < |p|
    decreases |p|
  {
    if p == [] then -1
    else if p[0].name == x then 0
    else
      var k := FindIndex(p[1..], x);
      if k == -1 then -1 else k + 1
  }

  /** `findIndex` finds the first pair named `x`, and -1 only when there is none. */
  lemma {:induction false} FindIndexIsFirst(p: seq<Mined>, x: string)
    ensures var i := FindIndex(p, x);
      && (i >= 0 ==> p[i].name == x)
      && (forall j | 0 <= j < |p| && p[j].name == x :: 0 <= i <= j)
    decreases |p|
  {
    if p != [] && p[0].name != x {
      FindIndexIsFirst(p[1..], x);
      assert forall j | 1 <= j < |p| :: p[j] == p[1..][j - 1];
    }
  }

  /** `p.findLastIndex((z) => x == z[0])`: the last index whose name is `x`, or -1. */
  function FindLastIndex(p: seq<Mined>, x: string): (i: int)
    ensures -1 <= i < |p|
    decreases |p|
  {
    if p == [] then -1
    else if p[|p| - 1].name == x then |p| - 1
    else FindLastIndex(p[..|p| - 1], x)
  }

  /** `findLastIndex` finds the last pair named `x`, and -1 only when there is none. */
  lemma {:induction false} FindLastIndexIsLast(p: seq<Mined>, x: string)
    ensures var i := FindLastIndex(p, x);
      && (i >= 0 ==> p[i].name == x)
      && (forall j | 0 <= j < |p| && p[j].name == x :: j <= i)
    decreases |p|
  {
    if p != [] && p[|p| - 1].name != x {
      FindLastIndexIsLast(p[..|p| - 1], x);
    }
  }

  /** Pair `i` is the only one with its name. */
  predicate Unique(p: seq<Mined>, i: nat)
    requires i < |p|
  {
    forall j | 0 <= j < |p| && p[j].name == p[i].name :: j == i
  }

  /** The test of index.js:93 for pair `i`. */
  predicate FirstIsLast(p: seq<Mined>, i: nat)
    requires i < |p|
  {
    FindIndex(p, p[i].name) == FindLastIndex(p, p[i].name)
  }

  /** The first and the last index of a pair's name agree exactly when no other pair has that name. */
  lemma FirstIsLastIffUnique(p: seq<Mined>, i: nat)
    requires i < |p|
    ensures FirstIsLast(p, i) <==> Unique(p, i)
  {
    FindIndexIsFirst(p, p[i].name);
    FindLastIndexIsLast(p, p[i].name);
  }

  /** The indices below `n` that the filter of index.js:91-94 keeps, in order. */
  function KeptIndices(p: seq<Mined>, n: nat): (ks: seq<int>)
    requires n <= |p|
    ensures forall i | 0 <= i < |ks| :: 0 <= ks[i] < n
    decreases n
  {
    if n == 0 then []
    else
      var ks := KeptIndices(p, n - 1);
      if FirstIsLast(p, n - 1) then ks + [n - 1] else ks
  }

  predicate Increasing(ks: seq<int>) {
    forall i, j | 0 <= i < j < |ks| :: ks[i] < ks[j]
  }

  /** The kept indices are increasing. */
  lemma {:induction false} KeptIndicesIncrease(p: seq<Mined>, n: nat)
    requires n <= |p|
    ensures Increasing(KeptIndices(p, n))
    decreases n
  {
    if n > 0 {
      var ks := KeptIndices(p, n - 1);
      KeptIndicesIncrease(p, n - 1);
      if KeptIndices(p, n) != ks {
        var grown := ks + [n - 1];
        assert KeptIndices(p, n) == grown;
        forall i, j | 0 <= i < j < |grown|
          ensures grown[i] < grown[j]
        {
          if j == |ks| {
            assert ks[i] < n - 1;
          }
        }
      }
    }
  }

  /** Every kept index is unique. */
  lemma {:induction false} KeptIndicesSound(p: seq<Mined>, n: nat, i: nat)
    requires n <= |p| && i < |KeptIndices(p, n)|
    ensures Unique(p, KeptIndices(p, n)[i])
    decreases n
  {
    var ks := KeptIndices(p, n - 1);
    if i < |ks| {
      KeptIndicesSound(p, n - 1, i);
      assert KeptIndices(p, n)[i] == ks[i];
    } else {
      assert FirstIsLast(p, n - 1) && KeptIndices(p, n) == ks + [n - 1];
      FirstIsLastIffUnique(p, n - 1);
    }
  }

  /** Every unique index below `n` is kept, at position `k` of the kept list. */
  lemma {:induction false} KeptIndicesComplete(p: seq<Mined>, n: nat, a: nat) returns (k: nat)
    requires a < n <= |p| && Unique(p, a)
    ensures k < |KeptIndices(p, n)| && KeptIndices(p, n)[k] == a
    decreases n
  {
    var ks := KeptIndices(p, n - 1);
    if a < n - 1 {
      k := KeptIndicesComplete(p, n - 1, a);
      if FirstIsLast(p, n - 1) {
        assert KeptIndices(p, n) == ks + [n - 1];
      }
    } else {
      FirstIsLastIffUnique(p, a);
      k := |ks|;
      assert KeptIndices(p, n) == ks + [n - 1];
    }
  }

  /** `p.filter(...)` of index.js:91-94: the pairs at the kept indices, in order. */
  function KeepUnambiguous(p: seq<Mined>): (q: seq<Mined>)
    ensures |q| <= |p|
  {
    var ks := KeptIndices(p, |p|);
    KeptIndicesBound(p, |p|);
    seq(|ks|, i requires 0 <= i < |ks| => p[ks[i]])
  }

  /** At most one index is kept per position. */
  lemma {:induction false} KeptIndicesBound(p: seq<Mined>, n: nat)
    requires n <= |p|
    ensures |KeptIndices(p, n)| <= n
    decreases n
  {
    if n > 0 {
      KeptIndicesBound(p, n - 1);
    }
  }

  /** A pair survives exactly when its name is the name of no other match. */
  lemma KeepUnambiguousKeepsUnique(p: seq<Mined>, a: nat)
    requires a < |p|
    ensures p[a] in KeepUnambiguous(p) <==> Unique(p, a)
  {
    var ks := KeptIndices(p, |p|);
    var q := KeepUnambiguous(p);
    if p[a] in q {
      var i :| 0 <= i < |q| && q[i] == p[a];
      KeptIndicesSound(p, |p|, i);
      assert Unique(p, ks[i]);
      assert p[ks[i]].name == p[a].name;
      assert a == ks[i];
    }
    if Unique(p, a) {
      var i := KeptIndicesComplete(p, |p|, a);
      assert q[i] == p[a];
    }
  }

  /** Every survivor was mined from some match. */
  lemma KeepUnambiguousFromInput(p: seq<Mined>)
    ensures forall y | y in KeepUnambiguous(p) :: y in p
  {
    var ks := KeptIndices(p, |p|);
    var q := KeepUnambiguous(p);
    forall y | y in q
      ensures y in p
    {
      var i :| 0 <= i < |q| && q[i] == y;
      assert p[ks[i]] == y;
    }
  }

  /** The survivors' names are distinct. */
  lemma KeepUnambiguousNamesDistinct(p: seq<Mined>)
    ensures var q := KeepUnambiguous(p); forall i, j | 0 <= i < j < |q| :: q[i].name != q[j].name
  {
    var ks := KeptIndices(p, |p|);
    var q := KeepUnambiguous(p);
    KeptIndicesIncrease(p, |p|);
    forall i, j | 0 <= i < j < |q|
      ensures q[i].name != q[j].name
    {
      KeptIndicesSound(p, |p|, i);
      assert ks[i] < ks[j];
      assert q[i] == p[ks[i]] && q[j] == p[ks[j]];
    }
  }

  /** `p` mined from every match, in order. */
  function MineAll(matches: seq<string>): (p: seq<Mined>)
    ensures |p| == |matches|
    ensures forall i | 0 <= i < |matches| :: p[i] == Mine(matches[i])
  {
    seq(|matches|, i requires 0 <= i < |matches| => Mine(matches[i]))
  }

  /**
   * `getPairs` (index.js:80-96). With no match `.match` returns `null` and
   * `.map` throws; otherwise the mined pairs go through the unambiguity filter.
   */
  function GetPairs(matches: seq<string>): (r: Result<seq<Mined>, string>)
    ensures r.Failure? <==> matches == []
    ensures r.Success? ==> |r.value| <= |matches|
  {
    if matches == [] then Failure("TypeError: cannot read properties of null")
    else Success(KeepUnambiguous(MineAll(matches)))
  }

  /**
   * On a non-empty match list, the mined pair of a match is kept exactly when
   * no other match mines the same name; every kept pair was mined, and the
   * kept names are distinct.
   */
  lemma GetPairsKeepsUnambiguous(matches: seq<string>)
    requires matches != []
    ensures var q := GetPairs(matches).value;
      && (forall i | 0 <= i < |matches| :: Mine(matches[i]) in q <==> Unique(MineAll(matches), i))
      && (forall y | y in q :: y in MineAll(matches))
      && (forall i, j | 0 <= i < j < |q| :: q[i].name != q[j].name)
  {
    var p := MineAll(matches);
    forall i | 0 <= i < |matches|
      ensures Mine(matches[i]) in KeepUnambiguous(p) <==> Unique(p, i)
    {
      KeepUnambiguousKeepsUnique(p, i);
    }
    KeepUnambiguousFromInput(p);
    KeepUnambiguousNamesDistinct(p);
  }

  // ---------------------------------------------------------------------------
  // The value filter (index.js:97-99)

  /** A pair whose value survives `x[1] !== 'function' && x[1][1] !== '.'`. */
  datatype Pair = Pair(name: string, value: string)

  predicate KeepsValue(v: string) {
    v != "function" && !(|v| >= 2 && v[1] == '.')
  }

  /**
   * The filter of index.js:97-99. A pair without a value makes `x[1][1]`
   * throw; otherwise the pairs whose value is neither `function` nor has
   * `.` as its second character, in order.
   */
  function Prune(p: seq<Mined>): (r: Result<seq<Pair>, string>)
    ensures r.Failure? <==> exists i | 0 <= i < |p| :: p[i].value.None?
    ensures r.Success? ==> forall y :: y in r.value <==> Mined(y.name, Some(y.value)) in p && KeepsValue(y.value)
    ensures r.Success? ==> |r.value| <= |p|
    decreases |p|
  {
    if p == [] then Success([])
    else
      var init := p[..|p| - 1];
      var last := p[|p| - 1];
      assert p == init + [last];
      var rest := Prune(init);
      if rest.Failure? then rest
      else if last.value.None? then Failure("TypeError: cannot read properties of undefined")
      else if KeepsValue(last.value.value) then Success(rest.value + [Pair(last.name, last.value.value)])
      else rest
  }

  /** Names that were distinct before the filter stay distinct after it. */
  lemma {:induction false} PruneKeepsNamesDistinct(p: seq<Mined>)
    requires forall i, j | 0 <= i < j < |p| :: p[i].name != p[j].name
    requires Prune(p).Success?
    ensures forall i, j | 0 <= i < j < |Prune(p).value| :: Prune(p).value[i].name != Prune(p).value[j].name
    decreases |p|
  {
    if p != [] {
      var init := p[..|p| - 1];
      var last := p[|p| - 1];
      PruneKeepsNamesDistinct(init);
      var q := Prune(init).value;
      forall y | y in q
        ensures y.name != last.name
      {
        var i :| 0 <= i < |init| && init[i] == Mined(y.name, Some(y.value));
      }
    }
  }

  // ---------------------------------------------------------------------------
  // Camel-casing across dots (index.js:100-102)

  /**
   * `x.replace(/\.(.)/g, (y) => y.replace('.', '').toUpperCase())`: each
   * `.` followed by a character other than a line terminator is dropped and
   * that character upper-cased; scanning resumes after it.
   */
  function CamelCase(s: string): (r: string)
    ensures |r| <= |s|
    decreases |s|
  {
    if |s| >= 2 && s[0] == '.' && !IsLineTerminator(s[1]) then [ToUpper(s[1])] + CamelCase(s[2..])
    else if s == [] then []
    else [s[0]] + CamelCase(s[1..])
  }

  /** A value with no `.` is unchanged. */
  lemma {:induction false} CamelCaseWithoutDots(s: string)
    requires '.' !in s
    ensures CamelCase(s) == s
    decreases |s|
  {
    if s != [] {
      assert '.' !in s[1..] by {
        assert forall i | 0 <= i < |s[1..]| :: s[1..][i] == s[i + 1];
      }
      CamelCaseWithoutDots(s[1..]);
      assert s == [s[0]] + s[1..];
    }
  }

  /** `w` with its first character upper-cased. */
  function Capitalize(w: string): string
    requires |w| >= 1
  {
    [ToUpper(w[0])] + w[1..]
  }

  /** Segments joined after the first, each capitalized. */
  function CapitalizeAll(segs: seq<string>): string
    requires forall i | 0 <= i < |segs| :: |segs[i]| >= 1
  {
    if segs == [] then [] else Capitalize(segs[0]) + CapitalizeAll(segs[1..])
  }

  /** A dot-free prefix passes through unchanged. */
  lemma {:induction false} CamelCaseDotFreePrefix(w: string, rest: string)
    requires '.' !in w
    ensures CamelCase(w + rest) == w + CamelCase(rest)
    decreases |w|
  {
    if w != [] {
      assert (w + rest)[0] == w[0];
      assert (w + rest)[1..] == w[1..] + rest;
      assert '.' !in w[1..] by {
        assert forall i | 0 <= i < |w[1..]| :: w[1..][i] == w[i + 1];
      }
      CamelCaseDotFreePrefix(w[1..], rest);
      assert w == [w[0]] + w[1..];
    } else {
      assert w + rest == rest;
    }
  }

  /** `.` followed by a segment: the dot goes and the segment is capitalized. */
  lemma CamelCaseDotStep(v: string, rest: string)
    requires |v| >= 1 && '.' !in v && !IsLineTerminator(v[0])
    ensures CamelCase(['.'] + v + rest) == Capitalize(v) + CamelCase(rest)
  {
    var s := ['.'] + v + rest;
    assert s[1] == v[0];
    assert s[2..] == v[1..] + rest;
    assert '.' !in v[1..] by {
      assert forall i | 0 <= i < |v[1..]| :: v[1..][i] == v[i + 1];
    }
    CamelCaseDotFreePrefix(v[1..], rest);
  }

  /** `.seg1.seg2...`: each segment preceded by a dot. */
  function DotPrefixed(segs: seq<string>): string {
    if segs == [] then [] else ['.'] + segs[0] + DotPrefixed(segs[1..])
  }

  lemma {:induction false} JoinAsDotPrefixed(segs: seq<string>)
    requires |segs| >= 1
    ensures Join(segs, '.') == segs[0] + DotPrefixed(segs[1..])
    decreases |segs|
  {
    if |segs| == 1 {
      assert segs[0] + [] == segs[0];
    } else {
      JoinAsDotPrefixed(segs[1..]);
      assert segs[1..][1..] == segs[2..];
    }
  }

  lemma {:induction false} CamelCaseDotPrefixed(segs: seq<string>)
    requires forall i | 0 <= i < |segs| :: |segs[i]| >= 1 && '.' !in segs[i] && !IsLineTerminator(segs[i][0])
    ensures CamelCase(DotPrefixed(segs)) == CapitalizeAll(segs)
    decreases |segs|
  {
    if segs != [] {
      CamelCaseDotPrefixed(segs[1..]);
      CamelCaseDotStep(segs[0], DotPrefixed(segs[1..]));
    }
  }

  /** A dotted path of non-empty, dot-free segments: `foo.bar.baz` becomes `fooBarBaz`. */
  lemma CamelCaseDottedPath(segs: seq<string>)
    requires |segs| >= 1
    requires forall i | 0 <= i < |segs| :: |segs[i]| >= 1 && '.' !in segs[i]
    requires forall i | 1 <= i < |segs| :: !IsLineTerminator(segs[i][0])
    ensures CamelCase(Join(segs, '.')) == segs[0] + CapitalizeAll(segs[1..])
  {
    JoinAsDotPrefixed(segs);
    CamelCaseDotFreePrefix(segs[0], DotPrefixed(segs[1..]));
    CamelCaseDotPrefixed(segs[1..]);
  }
}

module Replacers {
  import opened Wrappers
  import opened Text
  import opened Pairs

  /** `pairs.forEach(...)` of index.js:100-102: every value camel-cased, names and order kept. */
  function CamelCaseValues(ps: seq<Pair>): (r: seq<Pair>)
    ensures |r| == |ps|
    ensures forall i | 0 <= i < |ps| :: r[i] == Pair(ps[i].name, CamelCase(ps[i].value))
  {
    seq(|ps|, i requires 0 <= i < |ps| => Pair(ps[i].name, CamelCase(ps[i].value)))
  }

  /**
   * One round's candidates (index.js:80-102): mine the matches, keep the
   * unambiguous pairs, drop the rejected values and camel-case the rest.
   * Either throw of the source becomes a failure.
   */
  function Candidates(matches: seq<string>): (r: Result<seq<Pair>, string>)
    ensures r.Failure? <==> matches == [] || exists i | 0 <= i < |GetPairs(matches).value| :: GetPairs(matches).value[i].value.None?
  {
    var got := GetPairs(matches);
    if got.Failure? then Failure(got.error)
    else
      var pruned := Prune(got.value);
      if pruned.Failure? then Failure(pruned.error)
      else Success(CamelCaseValues(pruned.value))
  }

  /** `Object.fromEntries(pairs)` (index.js:104): a later entry overrides an earlier one. */
  function FromEntries(ps: seq<Pair>): (m: map<string, string>)
    ensures forall i | 0 <= i < |ps| :: ps[i].name in m
    ensures forall k | k in m :: exists i | 0 <= i < |ps| :: ps[i].name == k && m[k] == ps[i].value
    decreases |ps|
  {
    if ps == [] then map[]
    else
      var init := ps[..|ps| - 1];
      var last := ps[|ps| - 1];
      var m := FromEntries(init);
      assert forall i | 0 <= i < |init| :: init[i] == ps[i];
      m[last.name := last.value]
  }

  predicate NamesDistinct(ps: seq<Pair>) {
    forall i, j | 0 <= i < j < |ps| :: ps[i].name != ps[j].name
  }

  /**
   * With distinct names nothing is overridden: the replacer map sends every
   * name to its own pair's value, so iterating over it visits the pairs.
   */
  lemma {:induction false} FromEntriesDistinct(ps: seq<Pair>, i: nat)
    requires NamesDistinct(ps) && i < |ps|
    ensures FromEntries(ps)[ps[i].name] == ps[i].value
    decreases |ps|
  {
    var init := ps[..|ps| - 1];
    if i < |ps| - 1 {
      assert init[i] == ps[i];
      assert NamesDistinct(init) by {
        assert forall a | 0 <= a < |init| :: init[a] == ps[a];
      }
      FromEntriesDistinct(init, i);
      assert ps[i].name != ps[|ps| - 1].name;
    }
  }

  /** `${replacers[key]}$${key}` of index.js:276. */
  function NewName(p: Pair): (n: string)
    ensures |n| == |p.value| + 1 + |p.name|
    ensures n[..|p.value|] == p.value && n[|p.value|] == '$' && n[|p.value| + 1..] == p.name
  {
    p.value + "$" + p.name
  }

  /** Distinct values or names give distinct new names when neither value holds a `$`. */
  lemma NewNameInjective(p: Pair, q: Pair)
    requires '$' !in p.value && '$' !in q.value
    requires NewName(p) == NewName(q)
    ensures p == q
  {
    var n := NewName(p);
    assert |p.value| == |q.value| by {
      assert forall k | 0 <= k < |p.value| :: n[k] == p.value[k] && n[k] != '$';
      assert forall k | 0 <= k < |q.value| :: n[k] == q.value[k] && n[k] != '$';
    }
    assert p.value == n[..|p.value|] == q.value;
  }

  /** The replacer keys of a successful round are distinct. */
  lemma CandidatesNamesDistinct(matches: seq<string>)
    requires Candidates(matches).Success?
    ensures NamesDistinct(Candidates(matches).value)
  {
    var got := GetPairs(matches).value;
    GetPairsKeepsUnambiguous(matches);
    PruneKeepsNamesDistinct(got);
  }

  /**
   * Where candidate `i` of a successful round comes from: match `j`, the only
   * match that mines its name, mined the value `v`; the filter accepted `v`
   * and the candidate's value is `v` camel-cased.
   */
  lemma CandidateOrigin(matches: seq<string>, i: nat) returns (j: nat, v: string)
    requires Candidates(matches).Success? && i < |Candidates(matches).value|
    ensures j < |matches| && Mine(matches[j]) == Mined(Candidates(matches).value[i].name, Some(v))
    ensures Unique(MineAll(matches), j) && KeepsValue(v)
    ensures Candidates(matches).value[i].value == CamelCase(v)
  {
    var got := GetPairs(matches).value;
    var pruned := Prune(got).value;
    var y := pruned[i];
    assert y in pruned;
    assert Mined(y.name, Some(y.value)) in got && KeepsValue(y.value);
    GetPairsKeepsUnambiguous(matches);
    var p := MineAll(matches);
    j :| 0 <= j < |p| && p[j] == Mined(y.name, Some(y.value));
    v := y.value;
    KeepUnambiguousKeepsUnique(p, j);
  }
}
