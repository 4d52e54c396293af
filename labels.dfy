/**
 * Label derivation: `getLongNames` (index.js:306-336) and the final rename
 * map (index.js:340-342).
 *
 * For every row of the histogram, the labels with the largest count are
 * collected in insertion order; if any of them holds an upper-case letter,
 * only the labels that differ from their lower-case form stay; then only the
 * longest; then, when more than one is left and some lack a `$`, only those.
 * Each short name is finally renamed to its labels joined by `$`, then `$`
 * and the short name.
 */
module Labels {
  import opened Text
  import opened Histograms

  /** `arr.filter(f)`: the elements that pass, in order. */
  function Filter<T>(xs: seq<T>, f: T -> bool): seq<T>
    decreases |xs|
  {
    if xs == [] then []
    else Filter(xs[..|xs| - 1], f) + if f(xs[|xs| - 1]) then [xs[|xs| - 1]] else []
  }

  predicate Increasing(idx: seq<nat>) {
    forall i, j | 0 <= i < j < |idx| :: idx[i] < idx[j]
  }

  /** The survivors of a filter pass it and are elements of the input, in their input order. */
  lemma {:induction false} FilterOrder<T>(xs: seq<T>, f: T -> bool) returns (idx: seq<nat>)
    ensures |idx| == |Filter(xs, f)| && Increasing(idx)
    ensures forall i | 0 <= i < |idx| :: idx[i] < |xs| && Filter(xs, f)[i] == xs[idx[i]] && f(xs[idx[i]])
    decreases |xs|
  {
    if xs == [] {
      idx := [];
    } else {
      var init := xs[..|xs| - 1];
      idx := FilterOrder(init, f);
      if f(xs[|xs| - 1]) {
        idx := idx + [|xs| - 1];
      }
    }
  }

  /** Every element that passes survives. */
  lemma {:induction false} FilterKeeps<T>(xs: seq<T>, f: T -> bool, k: nat) returns (j: nat)
    requires k < |xs| && f(xs[k])
    ensures j < |Filter(xs, f)| && Filter(xs, f)[j] == xs[k]
    decreases |xs|
  {
    var init := xs[..|xs| - 1];
    if k < |xs| - 1 {
      j := FilterKeeps(init, f, k);
      assert Filter(xs, f)[j] == Filter(init, f)[j];
    } else {
      j := |Filter(init, f)|;
    }
  }

  // ---------------------------------------------------------------------------
  // The steps of index.js:309-333 on one row

  /** The running maximum of index.js:309-316: `x` starts at 0 and rises on a strictly larger count. */
  function MaxCount(ts: seq<Tally>): nat
    decreases |ts|
  {
    if ts == [] then 0
    else
      var m := MaxCount(ts[..|ts| - 1]);
      if ts[|ts| - 1].count > m then ts[|ts| - 1].count else m
  }

  /** No count exceeds the maximum, and a non-empty row attains it. */
  lemma {:induction false} MaxCountIsMax(ts: seq<Tally>) returns (k: nat)
    requires ts != []
    ensures forall i | 0 <= i < |ts| :: ts[i].count <= MaxCount(ts)
    ensures k < |ts| && ts[k].count == MaxCount(ts)
    decreases |ts|
  {
    var init := ts[..|ts| - 1];
    if init == [] {
      k := 0;
    } else {
      k := MaxCountIsMax(init);
      if ts[|ts| - 1].count > MaxCount(init) {
        k := |ts| - 1;
      }
    }
  }

  /** The push loop of index.js:318-322: the labels whose count is `x`, in insertion order. */
  function KeysAtCount(ts: seq<Tally>, x: nat): seq<string>
    decreases |ts|
  {
    if ts == [] then []
    else KeysAtCount(ts[..|ts| - 1], x) + if ts[|ts| - 1].count == x then [ts[|ts| - 1].key] else []
  }

  /** The pushed labels come from tallies with count `x`, in row order, and every such label is pushed. */
  lemma {:induction false} KeysAtCountOrder(ts: seq<Tally>, x: nat) returns (idx: seq<nat>)
    ensures |idx| == |KeysAtCount(ts, x)| && Increasing(idx)
    ensures forall i | 0 <= i < |idx| ::
      idx[i] < |ts| && KeysAtCount(ts, x)[i] == ts[idx[i]].key && ts[idx[i]].count == x
    decreases |ts|
  {
    if ts == [] {
      idx := [];
    } else {
      idx := KeysAtCountOrder(ts[..|ts| - 1], x);
      if ts[|ts| - 1].count == x {
        idx := idx + [|ts| - 1];
      }
    }
  }

  lemma {:induction false} KeysAtCountKeeps(ts: seq<Tally>, x: nat, k: nat) returns (j: nat)
    requires k < |ts| && ts[k].count == x
    ensures j < |KeysAtCount(ts, x)| && KeysAtCount(ts, x)[j] == ts[k].key
    decreases |ts|
  {
    var init := ts[..|ts| - 1];
    if k < |ts| - 1 {
      j := KeysAtCountKeeps(init, x, k);
      assert KeysAtCount(ts, x)[j] == KeysAtCount(init, x)[j];
    } else {
      j := |KeysAtCount(init, x)|;
    }
  }

  /** `/[A-Z]/.test(names[obj])`: the array prints as its labels joined by commas. */
  predicate AnyUpper(ls: seq<string>) {
    exists i | 0 <= i < |ls| :: HasUpper(ls[i])
  }

  /** `x != x.toLowerCase()` (index.js:324). */
  predicate IsCased(s: string) {
    ToLower(s) != s
  }

  /** index.js:323-325. */
  function KeepCased(ls: seq<string>): seq<string> {
    if AnyUpper(ls) then Filter(ls, IsCased) else ls
  }

  /** `Math.max(...names[obj].map((x) => x.length))`; -1 stands for the `-Infinity` of an empty list. */
  function MaxLength(ls: seq<string>): int
    decreases |ls|
  {
    if ls == [] then -1
    else
      var m := MaxLength(ls[..|ls| - 1]);
      if |ls[|ls| - 1]| > m then |ls[|ls| - 1]| else m
  }

  /** No label is longer than `MaxLength`, and a non-empty list has one that long. */
  lemma {:induction false} MaxLengthIsMax(ls: seq<string>) returns (k: nat)
    requires ls != []
    ensures forall i | 0 <= i < |ls| :: |ls[i]| <= MaxLength(ls)
    ensures k < |ls| && |ls[k]| == MaxLength(ls)
    decreases |ls|
  {
    var init := ls[..|ls| - 1];
    if init == [] {
      k := 0;
    } else {
      k := MaxLengthIsMax(init);
      if |ls[|ls| - 1]| > MaxLength(init) {
        k := |ls| - 1;
      }
    }
  }

  /** index.js:326-327: only the longest labels stay. */
  function KeepLongest(ls: seq<string>): seq<string> {
    var len := MaxLength(ls);
    Filter(ls, (s: string) => |s| == len)
  }

  predicate NoDollar(s: string) {
    '$' !in s
  }

  /** index.js:328-333: with more than one label left, the ones without `$` when there are any. */
  function PreferNoDollar(ls: seq<string>): seq<string> {
    if |ls| > 1 && |Filter(ls, NoDollar)| > 0 then Filter(ls, NoDollar) else ls
  }

  /** The labels `getLongNames` chooses for one row. */
  function Choose(ts: seq<Tally>): seq<string> {
    PreferNoDollar(KeepLongest(KeepCased(KeysAtCount(ts, MaxCount(ts)))))
  }

  // ---------------------------------------------------------------------------
  // What the choice promises

  /** Every step keeps at least one label of a non-empty list. */
  lemma StepsKeepOne(ls: seq<string>)
    requires ls != []
    ensures KeepCased(ls) != []
    ensures KeepLongest(ls) != []
    ensures PreferNoDollar(ls) != []
  {
    if AnyUpper(ls) {
      var i :| 0 <= i < |ls| && HasUpper(ls[i]);
      ToLowerChangesIffUpper(ls[i]);
      var j := FilterKeeps(ls, IsCased, i);
    }
    var len := MaxLength(ls);
    var i := MaxLengthIsMax(ls);
    var j := FilterKeeps(ls, (s: string) => |s| == len, i);
  }

  /** The positions `0..n-1`, in order. */
  function Positions(n: nat): (idx: seq<nat>)
    ensures |idx| == n && Increasing(idx)
    ensures forall i | 0 <= i < n :: idx[i] == i
  {
    seq(n, i requires 0 <= i < n => i)
  }

  /** Following increasing positions through increasing positions keeps them increasing. */
  lemma Compose(outer: seq<nat>, inner: seq<nat>) returns (idx: seq<nat>)
    requires Increasing(outer) && Increasing(inner)
    requires forall i | 0 <= i < |inner| :: inner[i] < |outer|
    ensures |idx| == |inner| && Increasing(idx)
    ensures forall i | 0 <= i < |inner| :: idx[i] == outer[inner[i]]
  {
    idx := seq(|inner|, i requires 0 <= i < |inner| => outer[inner[i]]);
  }

  /** Each step keeps a sub-list of its input, in order. */
  lemma StepOrder(ls: seq<string>, step: nat) returns (idx: seq<nat>)
    requires step < 3
    ensures var out := if step == 0 then KeepCased(ls) else if step == 1 then KeepLongest(ls) else PreferNoDollar(ls);
      && |idx| == |out| && Increasing(idx)
      && forall i | 0 <= i < |idx| :: idx[i] < |ls| && out[i] == ls[idx[i]]
  {
    if step == 0 {
      if AnyUpper(ls) {
        idx := FilterOrder(ls, IsCased);
      } else {
        idx := Positions(|ls|);
      }
    } else if step == 1 {
      idx := FilterOrder(ls, (s: string) => |s| == MaxLength(ls));
    } else if |ls| > 1 && |Filter(ls, NoDollar)| > 0 {
      idx := FilterOrder(ls, NoDollar);
    } else {
      idx := Positions(|ls|);
    }
  }

  /** The three filters of index.js:323-333 keep a non-empty sub-list of a non-empty list, in order. */
  lemma FiltersKeepOrder(a: seq<string>) returns (idx: seq<nat>)
    requires a != []
    ensures var out := PreferNoDollar(KeepLongest(KeepCased(a)));
      && out != [] && |idx| == |out| && Increasing(idx)
      && forall i | 0 <= i < |idx| :: idx[i] < |a| && out[i] == a[idx[i]]
  {
    StepsKeepOne(a);
    var c := KeepCased(a);
    StepsKeepOne(c);
    var l := KeepLongest(c);
    StepsKeepOne(l);
    var ic := StepOrder(a, 0);
    var il := StepOrder(c, 1);
    var ip := StepOrder(l, 2);
    var i1 := Compose(il, ip);
    idx := Compose(ic, i1);
  }

  /**
   * The chosen labels of a non-empty row: at least one, each a label of a
   * tally with the row's maximum count, in the row's order (the indices
   * `idx` into the row increase).
   */
  lemma ChooseFromMax(ts: seq<Tally>) returns (idx: seq<nat>)
    requires ts != []
    ensures Choose(ts) != []
    ensures |idx| == |Choose(ts)| && Increasing(idx)
    ensures forall i | 0 <= i < |idx| ::
      idx[i] < |ts| && Choose(ts)[i] == ts[idx[i]].key && ts[idx[i]].count == MaxCount(ts)
    ensures forall i | 0 <= i < |ts| :: ts[i].count <= MaxCount(ts)
  {
    var m := MaxCount(ts);
    var k := MaxCountIsMax(ts);
    var a := KeysAtCount(ts, m);
    var j := KeysAtCountKeeps(ts, m, k);
    var ia := KeysAtCountOrder(ts, m);
    var ik := FiltersKeepOrder(a);
    idx := Compose(ia, ik);
  }

  /** If any label at the maximum count has an upper-case letter, no chosen label is all lower-case. */
  lemma ChooseCased(ts: seq<Tally>, k: nat)
    requires k < |ts| && ts[k].count == MaxCount(ts) && HasUpper(ts[k].key)
    ensures forall i | 0 <= i < |Choose(ts)| :: HasUpper(Choose(ts)[i])
  {
    var a := KeysAtCount(ts, MaxCount(ts));
    var j := KeysAtCountKeeps(ts, MaxCount(ts), k);
    assert AnyUpper(a);
    var c := KeepCased(a);
    var l := KeepLongest(c);
    var ic := FilterOrder(a, IsCased);
    var il := StepOrder(c, 1);
    var ip := StepOrder(l, 2);
    forall i | 0 <= i < |Choose(ts)|
      ensures HasUpper(Choose(ts)[i])
    {
      var x := Choose(ts)[i];
      assert x == c[il[ip[i]]] == a[ic[il[ip[i]]]];
      ToLowerChangesIffUpper(x);
    }
  }

  /**
   * All chosen labels share one length, the greatest among the labels that
   * passed the case rule.
   */
  lemma ChooseLongest(ts: seq<Tally>)
    ensures var c := KeepCased(KeysAtCount(ts, MaxCount(ts)));
      forall i | 0 <= i < |Choose(ts)| ::
        |Choose(ts)[i]| == MaxLength(c) && forall j | 0 <= j < |c| :: |c[j]| <= |Choose(ts)[i]|
  {
    var c := KeepCased(KeysAtCount(ts, MaxCount(ts)));
    var l := KeepLongest(c);
    var il := FilterOrder(c, (s: string) => |s| == MaxLength(c));
    var ip := StepOrder(l, 2);
    if c != [] {
      var k := MaxLengthIsMax(c);
    }
    forall i | 0 <= i < |Choose(ts)|
      ensures |Choose(ts)[i]| == MaxLength(c)
    {
      assert Choose(ts)[i] == l[ip[i]] == c[il[ip[i]]];
    }
  }

  /**
   * The `$` rule: when the longest labels number more than one and some
   * lack a `$`, no chosen label has one; and whenever more than one label is
   * chosen, either all or none of them hold a `$`.
   */
  lemma ChooseDollar(ts: seq<Tally>)
    ensures var l := KeepLongest(KeepCased(KeysAtCount(ts, MaxCount(ts))));
      (|l| > 1 && (exists j | 0 <= j < |l| :: NoDollar(l[j]))) ==>
        forall i | 0 <= i < |Choose(ts)| :: NoDollar(Choose(ts)[i])
    ensures |Choose(ts)| > 1 ==>
      (forall i | 0 <= i < |Choose(ts)| :: NoDollar(Choose(ts)[i])) ||
      (forall i | 0 <= i < |Choose(ts)| :: !NoDollar(Choose(ts)[i]))
  {
    var l := KeepLongest(KeepCased(KeysAtCount(ts, MaxCount(ts))));
    var nd := Filter(l, NoDollar);
    var idx := FilterOrder(l, NoDollar);
    if |l| > 1 && (exists j | 0 <= j < |l| :: NoDollar(l[j])) {
      var j :| 0 <= j < |l| && NoDollar(l[j]);
      var w := FilterKeeps(l, NoDollar, j);
    }
  }

  // ---------------------------------------------------------------------------
  // getLongNames as the script runs it

  /** `names[obj]`: the labels chosen for one short name. */
  datatype Choice = Choice(name: string, labels: seq<string>)

  /** The whole `names` object, one entry per row in row order. */
  function LongNames(h: Histogram): (r: seq<Choice>)
    ensures |r| == |h|
    decreases |h|
  {
    if h == [] then []
    else LongNames(h[..|h| - 1]) + [Choice(h[|h| - 1].name, Choose(h[|h| - 1].tallies))]
  }

  /** Entry `i` of `names` belongs to row `i`: its short name, and the labels chosen from its tallies. */
  lemma {:induction false} LongNamesAt(h: Histogram, i: nat)
    requires i < |h|
    ensures LongNames(h)[i] == Choice(h[i].name, Choose(h[i].tallies))
    decreases |h|
  {
    if i < |h| - 1 {
      LongNamesAt(h[..|h| - 1], i);
    }
  }

  /**
   * `getLongNames` (index.js:306-336), loop for loop. In a histogram every
   * row name is new, so `names[obj] ??= []` always starts an empty list.
   */
  method GetLongNames(h: Histogram) returns (names: seq<Choice>)
    ensures names == LongNames(h)
  {
    names := [];
    var r := 0;
    while r < |h|
      invariant 0 <= r <= |h|
      invariant names == LongNames(h[..r])
      decreases |h| - r
    {
      assert h[..r + 1][..r] == h[..r];
      var picked := ChooseRow(h[r].tallies);
      names := names + [Choice(h[r].name, picked)];
      r := r + 1;
    }
    assert h[..r] == h;
  }

  /** The body of the outer loop of index.js:308-334 for one row. */
  method ChooseRow(ts: seq<Tally>) returns (picked: seq<string>)
    ensures picked == Choose(ts)
  {
    var x := MaxOf(ts);
    picked := PushAtCount(ts, x);
    if AnyUpper(picked) {
      picked := Filter(picked, IsCased);
    }
    var len := MaxLength(picked);
    picked := Filter(picked, (s: string) => |s| == len);
    if |picked| > 1 {
      var noDollar := Filter(picked, NoDollar);
      if |noDollar| > 0 {
        picked := noDollar;
      }
    }
  }

  /** The first inner loop of index.js:311-316: the running maximum `x`. */
  method MaxOf(ts: seq<Tally>) returns (x: nat)
    ensures x == MaxCount(ts)
  {
    x := 0;
    var i := 0;
    while i < |ts|
      invariant 0 <= i <= |ts|
      invariant x == MaxCount(ts[..i])
      decreases |ts| - i
    {
      assert ts[..i + 1][..i] == ts[..i];
      if ts[i].count > x {
        x := ts[i].count;
      }
      i := i + 1;
    }
    assert ts[..i] == ts;
  }

  /** The second inner loop of index.js:318-322: push every label whose count is `x`. */
  method PushAtCount(ts: seq<Tally>, x: nat) returns (picked: seq<string>)
    ensures picked == KeysAtCount(ts, x)
  {
    picked := [];
    var i := 0;
    while i < |ts|
      invariant 0 <= i <= |ts|
      invariant picked == KeysAtCount(ts[..i], x)
      decreases |ts| - i
    {
      assert ts[..i + 1][..i] == ts[..i];
      if ts[i].count == x {
        picked := picked + [ts[i].key];
      }
      i := i + 1;
    }
    assert ts[..i] == ts;
  }

  // ---------------------------------------------------------------------------
  // The final rename map (index.js:340-342)

  /** `${nameLists[key].join('$')}$${key}`. */
  function FinalName(c: Choice): string
  {
    Join(c.labels, '$') + "$" + c.name
  }

  /**
   * The final name ends in `$` and the short name, and when no chosen label
   * holds a `$` the part before that splits back into the chosen labels.
   */
  lemma FinalNameSplits(c: Choice)
    requires c.labels != [] && forall i | 0 <= i < |c.labels| :: NoDollar(c.labels[i])
    ensures var n := FinalName(c); var p := |n| - |c.name| - 1;
      0 <= p && n[p] == '$' && n[p + 1..] == c.name && Split(n[..p], '$') == c.labels
  {
    var n := FinalName(c);
    var j := Join(c.labels, '$');
    assert n[..|j|] == j;
    SplitJoin(c.labels, '$');
  }
}
