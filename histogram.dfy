/**
 * `shortNames` (index.js:127): for every short name, how often each label
 * (the last meaningful name seen before it) preceded it. The source keeps an
 * object of objects; here a histogram is an association list of rows, each
 * row an association list of tallies, both in insertion order, which is the
 * order `for...in` visits them (row names and labels are identifier names,
 * never integer-like keys).
 */
module Histograms {

  datatype Tally = Tally(key: string, count: nat)

  datatype Row = Row(name: string, tallies: seq<Tally>)

  type Histogram = seq<Row>

  /** `row[label]`, with a missing label read as 0. */
  function TallyOf(ts: seq<Tally>, key: string): nat
    decreases |ts|
  {
    if ts == [] then 0
    else if ts[0].key == key then ts[0].count
    else TallyOf(ts[1..], key)
  }

  /** `shortNames[name][label]`, with a missing row or label read as 0. */
  function CountOf(h: Histogram, name: string, key: string): nat
    decreases |h|
  {
    if h == [] then 0
    else if h[0].name == name then TallyOf(h[0].tallies, key)
    else CountOf(h[1..], name, key)
  }

  /** The labels of a row, in insertion order. */
  function Labels(ts: seq<Tally>): seq<string>
    decreases |ts|
  {
    if ts == [] then [] else [ts[0].key] + Labels(ts[1..])
  }

  /** The row names, in insertion order. */
  function Names(h: Histogram): seq<string>
    decreases |h|
  {
    if h == [] then [] else [h[0].name] + Names(h[1..])
  }

  /** `row[label] ??= 0; row[label]++`: a new label goes last with count 1. */
  function BumpTallies(ts: seq<Tally>, key: string): seq<Tally>
    decreases |ts|
  {
    if ts == [] then [Tally(key, 1)]
    else if ts[0].key == key then [Tally(key, ts[0].count + 1)] + ts[1..]
    else [ts[0]] + BumpTallies(ts[1..], key)
  }

  /** index.js:194-196: a new name gets a new last row, then its tally for `label` rises. */
  function Bump(h: Histogram, name: string, key: string): Histogram
    decreases |h|
  {
    if h == [] then [Row(name, [Tally(key, 1)])]
    else if h[0].name == name then [Row(name, BumpTallies(h[0].tallies, key))] + h[1..]
    else [h[0]] + Bump(h[1..], name, key)
  }

  /** Bumping a label raises its tally by exactly one and leaves every other tally alone. */
  lemma {:induction false} BumpTalliesCount(ts: seq<Tally>, key: string, l: string)
    ensures TallyOf(BumpTallies(ts, key), l) == TallyOf(ts, l) + (if l == key then 1 else 0)
    decreases |ts|
  {
    if ts != [] && ts[0].key != key {
      BumpTalliesCount(ts[1..], key, l);
      assert ([ts[0]] + BumpTallies(ts[1..], key))[1..] == BumpTallies(ts[1..], key);
    }
  }

  /** `shortNames[name][label]` rises by exactly one; every other count is unchanged. */
  lemma {:induction false} BumpCount(h: Histogram, name: string, key: string, n: string, l: string)
    ensures CountOf(Bump(h, name, key), n, l) == CountOf(h, n, l) + (if n == name && l == key then 1 else 0)
    decreases |h|
  {
    if h == [] {
      BumpTalliesCount([], key, l);
      assert [Row(name, [Tally(key, 1)])][1..] == [];
    } else if h[0].name == name {
      BumpTalliesCount(h[0].tallies, key, l);
    } else {
      BumpCount(h[1..], name, key, n, l);
      assert ([h[0]] + Bump(h[1..], name, key))[1..] == Bump(h[1..], name, key);
    }
  }

  /** Existing labels keep their order; a new one is appended. */
  lemma {:induction false} BumpTalliesLabels(ts: seq<Tally>, key: string)
    ensures Labels(BumpTallies(ts, key)) == if key in Labels(ts) then Labels(ts) else Labels(ts) + [key]
    decreases |ts|
  {
    if ts == [] {
      assert Labels([Tally(key, 1)]) == [key];
    } else if ts[0].key == key {
      assert ([Tally(key, ts[0].count + 1)] + ts[1..])[1..] == ts[1..];
    } else {
      BumpTalliesLabels(ts[1..], key);
      assert ([ts[0]] + BumpTallies(ts[1..], key))[1..] == BumpTallies(ts[1..], key);
    }
  }

  /** Existing rows keep their order; a new name is appended. */
  lemma {:induction false} BumpNames(h: Histogram, name: string, key: string)
    ensures Names(Bump(h, name, key)) == if name in Names(h) then Names(h) else Names(h) + [name]
    decreases |h|
  {
    if h == [] {
      assert Names([Row(name, [Tally(key, 1)])]) == [name];
    } else if h[0].name == name {
      assert ([Row(name, BumpTallies(h[0].tallies, key))] + h[1..])[1..] == h[1..];
    } else {
      BumpNames(h[1..], name, key);
      assert ([h[0]] + Bump(h[1..], name, key))[1..] == Bump(h[1..], name, key);
    }
  }

  /** The sum of a row's tallies. */
  function RowTotal(ts: seq<Tally>): nat
    decreases |ts|
  {
    if ts == [] then 0 else ts[0].count + RowTotal(ts[1..])
  }

  /** The sum of every tally: how many short-name visits were recorded. */
  function Total(h: Histogram): nat
    decreases |h|
  {
    if h == [] then 0 else RowTotal(h[0].tallies) + Total(h[1..])
  }

  lemma {:induction false} BumpTalliesTotal(ts: seq<Tally>, key: string)
    ensures RowTotal(BumpTallies(ts, key)) == RowTotal(ts) + 1
    decreases |ts|
  {
    if ts == [] {
      assert [Tally(key, 1)][1..] == [];
    } else if ts[0].key == key {
      assert ([Tally(key, ts[0].count + 1)] + ts[1..])[1..] == ts[1..];
    } else {
      BumpTalliesTotal(ts[1..], key);
      assert ([ts[0]] + BumpTallies(ts[1..], key))[1..] == BumpTallies(ts[1..], key);
    }
  }

  /** Every bump records exactly one visit. */
  lemma {:induction false} BumpTotal(h: Histogram, name: string, key: string)
    ensures Total(Bump(h, name, key)) == Total(h) + 1
    decreases |h|
  {
    if h == [] {
      BumpTalliesTotal([], key);
      assert [Row(name, [Tally(key, 1)])][1..] == [];
    } else if h[0].name == name {
      BumpTalliesTotal(h[0].tallies, key);
      assert ([Row(name, BumpTallies(h[0].tallies, key))] + h[1..])[1..] == h[1..];
    } else {
      BumpTotal(h[1..], name, key);
      assert ([h[0]] + Bump(h[1..], name, key))[1..] == Bump(h[1..], name, key);
    }
  }

  predicate Distinct(xs: seq<string>) {
    forall i, j | 0 <= i < j < |xs| :: xs[i] != xs[j]
  }

  lemma DistinctAppend(xs: seq<string>, x: string)
    requires Distinct(xs) && x !in xs
    ensures Distinct(xs + [x])
  {
    var ys := xs + [x];
    forall i, j | 0 <= i < j < |ys|
      ensures ys[i] != ys[j]
    {
      if j == |xs| {
        assert ys[i] == xs[i];
      } else {
        assert ys[i] == xs[i] && ys[j] == xs[j];
      }
    }
  }

  /** The rows of an object: one per name, one tally per label, and only positive counts. */
  predicate WellFormed(h: Histogram) {
    && Distinct(Names(h))
    && forall i | 0 <= i < |h| :: Distinct(Labels(h[i].tallies)) && Positive(h[i].tallies)
  }

  predicate Positive(ts: seq<Tally>) {
    forall k | 0 <= k < |ts| :: ts[k].count >= 1
  }

  lemma {:induction false} BumpTalliesPositive(ts: seq<Tally>, key: string)
    requires Positive(ts)
    ensures Positive(BumpTallies(ts, key))
    decreases |ts|
  {
    if ts != [] && ts[0].key != key {
      assert Positive(ts[1..]) by {
        assert forall k | 0 <= k < |ts[1..]| :: ts[1..][k] == ts[k + 1];
      }
      BumpTalliesPositive(ts[1..], key);
    }
  }

  /** The rows a bump does not touch are kept as they are. */
  lemma {:induction false} BumpRows(h: Histogram, name: string, key: string, i: nat)
    requires i < |Bump(h, name, key)|
    ensures var r := Bump(h, name, key)[i];
      || (i < |h| && r == h[i])
      || (r.name == name && r.tallies == BumpTallies(if i < |h| then h[i].tallies else [], key))
    decreases |h|
  {
    if h != [] && h[0].name != name && i > 0 {
      BumpRows(h[1..], name, key, i - 1);
      assert ([h[0]] + Bump(h[1..], name, key))[i] == Bump(h[1..], name, key)[i - 1];
    }
  }

  /** Every row named other than the bumped name is left exactly as it was, at the same index. */
  lemma {:induction false} BumpKeepsOtherRows(h: Histogram, name: string, key: string, i: nat)
    requires i < |h| && h[i].name != name
    ensures i < |Bump(h, name, key)| && Bump(h, name, key)[i] == h[i]
    decreases |h|
  {
    if i > 0 && h[0].name != name {
      BumpKeepsOtherRows(h[1..], name, key, i - 1);
      assert ([h[0]] + Bump(h[1..], name, key))[i] == Bump(h[1..], name, key)[i - 1];
    }
  }

  /** A bump keeps a histogram well-formed. */
  lemma BumpWellFormed(h: Histogram, name: string, key: string)
    requires WellFormed(h)
    ensures WellFormed(Bump(h, name, key))
  {
    var b := Bump(h, name, key);
    BumpNames(h, name, key);
    if name !in Names(h) {
      DistinctAppend(Names(h), name);
    }
    forall i | 0 <= i < |b|
      ensures Distinct(Labels(b[i].tallies)) && Positive(b[i].tallies)
    {
      BumpRows(h, name, key, i);
      var ts := if i < |h| then h[i].tallies else [];
      if i >= |h| || b[i] != h[i] {
        BumpTalliesLabels(ts, key);
        BumpTalliesPositive(ts, key);
        if key !in Labels(ts) {
          DistinctAppend(Labels(ts), key);
        }
      }
    }
  }
}
