/**
 * `renameIdentifier` (index.js:156-228) with `isShort` (index.js:146) and
 * `notNames` (index.js:129-144).
 *
 * One call walks the whole tree, parent passed down, every key of every node
 * in order (binding positions included). At each Identifier it first renames:
 * a safe occurrence (not a non-computed member property, not a non-shorthand
 * object key, not a method key) named `oldName` becomes `newName`, and a null
 * or empty `oldName` renames nothing. Then, with the name the node now has,
 * it updates the module-level `lastName` and `shortNames`: a meaningful name
 * (not short, not in `notNames`) becomes `lastName`; any other name, in a
 * safe position, adds one to `shortNames[name][lastName]`. The assignments
 * to `lastName` inside the recursion loop (index.js:207-213, 218-224) repeat
 * the one already made for the same node and change nothing.
 */
module Rename {
  import opened Wrappers
  import opened Text
  import opened Ast
  import opened Histograms

  /** `notNames` (index.js:129-144): words never taken as a label. */
  const NotNames: seq<string> := [
    "function", "class", "type", "name", "key", "value", "get", "set",
    "let", "var", "const", "generator", "await", "for"
  ]

  /** A name that becomes `lastName` (index.js:189). */
  predicate IsMeaningful(x: string) {
    !IsShort(x) && x !in NotNames
  }

  /** `isSafeToRename && oldName && node.name === oldName` (index.js:184), given the position is safe. */
  predicate Targets(oldName: Option<string>, x: string) {
    oldName.Some? && oldName.value != "" && x == oldName.value
  }

  /** The name an Identifier at `slot` has after the rename step (index.js:184-186). */
  function RenameName(x: string, slot: Slot, oldName: Option<string>, newName: string): string {
    if IsRenamable(slot) && Targets(oldName, x) then newName else x
  }

  /** The tree after one call, renamed everywhere the source renames. */
  function Renamed(n: Node, slot: Slot, oldName: Option<string>, newName: string): Node
    decreases n
  {
    match n
    case Identifier(x) => Identifier(RenameName(x, slot, oldName, newName))
    case Branch(k, cs) => Branch(k, RenamedChildren(k, cs, oldName, newName))
  }

  /** The children of a `k` node after the call, child `i` renamed at slot `Child(k, i)`. */
  function RenamedChildren(k: Kind, cs: seq<Node>, oldName: Option<string>, newName: string): (r: seq<Node>)
    ensures |r| == |cs|
    decreases cs
  {
    if cs == [] then []
    else RenamedChildren(k, cs[..|cs| - 1], oldName, newName) + [Renamed(cs[|cs| - 1], Child(k, |cs| - 1), oldName, newName)]
  }

  /** One occurrence after the rename step. */
  function RenameOccurrence(o: Occurrence, oldName: Option<string>, newName: string): Occurrence {
    Occurrence(RenameName(o.name, o.slot, oldName, newName), o.slot)
  }

  function RenameAll(occs: seq<Occurrence>, oldName: Option<string>, newName: string): (r: seq<Occurrence>)
    ensures |r| == |occs|
    ensures forall i | 0 <= i < |occs| :: r[i] == RenameOccurrence(occs[i], oldName, newName)
  {
    seq(|occs|, i requires 0 <= i < |occs| => RenameOccurrence(occs[i], oldName, newName))
  }

  /**
   * The rename scope: the identifiers of the result are those of the input,
   * in the same order and positions; exactly the safe ones named `oldName`
   * now carry `newName`, and every other name is unchanged.
   */
  lemma {:induction false} RenamedOccurrences(n: Node, slot: Slot, oldName: Option<string>, newName: string)
    ensures Occurrences(Renamed(n, slot, oldName, newName), slot) == RenameAll(Occurrences(n, slot), oldName, newName)
    decreases n
  {
    match n
    case Identifier(x) =>
    case Branch(k, cs) =>
      RenamedChildrenOccurrences(k, cs, oldName, newName);
  }

  lemma {:induction false} RenamedChildrenOccurrences(k: Kind, cs: seq<Node>, oldName: Option<string>, newName: string)
    ensures ChildOccurrences(k, RenamedChildren(k, cs, oldName, newName)) == RenameAll(ChildOccurrences(k, cs), oldName, newName)
    decreases cs
  {
    if cs != [] {
      var init := cs[..|cs| - 1];
      var last := cs[|cs| - 1];
      var slot := Child(k, |cs| - 1);
      var rs := RenamedChildren(k, cs, oldName, newName);
      var ri := RenamedChildren(k, init, oldName, newName);
      RenamedChildrenOccurrences(k, init, oldName, newName);
      RenamedOccurrences(last, slot, oldName, newName);
      assert rs[..|rs| - 1] == ri;
      RenameAllAppend(ChildOccurrences(k, init), Occurrences(last, slot), oldName, newName);
    }
  }

  lemma RenameAllAppend(a: seq<Occurrence>, b: seq<Occurrence>, oldName: Option<string>, newName: string)
    ensures RenameAll(a + b, oldName, newName) == RenameAll(a, oldName, newName) + RenameAll(b, oldName, newName)
  {
    var l := RenameAll(a + b, oldName, newName);
    var r := RenameAll(a, oldName, newName) + RenameAll(b, oldName, newName);
    assert forall i | 0 <= i < |l| :: l[i] == r[i];
  }

  /** Renaming changes names only: the tree keeps its shape and node types. */
  lemma {:induction false} RenamedSkeleton(n: Node, slot: Slot, oldName: Option<string>, newName: string)
    ensures Skeleton(Renamed(n, slot, oldName, newName)) == Skeleton(n)
    decreases n
  {
    match n
    case Identifier(x) =>
    case Branch(k, cs) =>
      var rs := RenamedChildren(k, cs, oldName, newName);
      forall i | 0 <= i < |cs|
        ensures Skeleton(rs[i]) == Skeleton(cs[i])
      {
        RenamedChildAt(k, cs, i, oldName, newName);
        RenamedSkeleton(cs[i], Child(k, i), oldName, newName);
      }
  }

  /** Child `i` of the renamed children is child `i` renamed at its own slot. */
  lemma {:induction false} RenamedChildAt(k: Kind, cs: seq<Node>, i: nat, oldName: Option<string>, newName: string)
    requires i < |cs|
    ensures RenamedChildren(k, cs, oldName, newName)[i] == Renamed(cs[i], Child(k, i), oldName, newName)
    decreases cs
  {
    if i < |cs| - 1 {
      RenamedChildAt(k, cs[..|cs| - 1], i, oldName, newName);
    }
  }

  /** With `oldName` null or empty, the call renames nothing. */
  lemma {:induction false} RenameWithoutOldName(n: Node, slot: Slot, oldName: Option<string>, newName: string)
    requires oldName.None? || oldName.value == ""
    ensures Renamed(n, slot, oldName, newName) == n
    decreases n
  {
    match n
    case Identifier(x) =>
    case Branch(k, cs) =>
      var rs := RenamedChildren(k, cs, oldName, newName);
      forall i | 0 <= i < |cs|
        ensures rs[i] == cs[i]
      {
        RenamedChildAt(k, cs, i, oldName, newName);
        RenameWithoutOldName(cs[i], Child(k, i), oldName, newName);
      }
  }

  /** How many of `occs` are named `x` in a position the rename never touches. */
  function CountKeys(occs: seq<Occurrence>, x: string): nat {
    if occs == [] then 0
    else CountKeys(occs[..|occs| - 1], x) + (if occs[|occs| - 1].name == x && !IsRenamable(occs[|occs| - 1].slot) then 1 else 0)
  }

  /**
   * In `countNames` terms: after renaming `x` to a different name `y`, the
   * only `x` left are those at property-key positions, and `y` gained every
   * other `x`.
   */
  lemma RenameCounts(n: Node, slot: Slot, x: string, y: string)
    requires x != "" && x != y
    ensures CountNames(Renamed(n, slot, Some(x), y), x) == CountKeys(Occurrences(n, slot), x)
    ensures CountNames(Renamed(n, slot, Some(x), y), y)
      == CountNames(n, y) + CountNames(n, x) - CountKeys(Occurrences(n, slot), x)
  {
    var r := Renamed(n, slot, Some(x), y);
    RenamedOccurrences(n, slot, Some(x), y);
    CountNamesCountsOccurrences(r, slot, x);
    CountNamesCountsOccurrences(r, slot, y);
    CountNamesCountsOccurrences(n, slot, x);
    CountNamesCountsOccurrences(n, slot, y);
    RenameAllCounts(Occurrences(n, slot), x, y);
  }

  lemma {:induction false} RenameAllCounts(occs: seq<Occurrence>, x: string, y: string)
    requires x != "" && x != y
    ensures CountKeys(occs, x) <= CountNamed(occs, x)
    ensures CountNamed(RenameAll(occs, Some(x), y), x) == CountKeys(occs, x)
    ensures CountNamed(RenameAll(occs, Some(x), y), y) == CountNamed(occs, y) + CountNamed(occs, x) - CountKeys(occs, x)
    decreases |occs|
  {
    if occs != [] {
      var init := occs[..|occs| - 1];
      RenameAllCounts(init, x, y);
      var r := RenameAll(occs, Some(x), y);
      assert r[..|r| - 1] == RenameAll(init, Some(x), y);
    }
  }

  // ---------------------------------------------------------------------------
  // The frequency analysis (index.js:188-198)

  /** `shortNames` (index.js:127) and `lastName` (index.js:128), which every call reads and updates. */
  datatype Profile = Profile(shortNames: Histogram, lastName: Option<string>)

  /** Their values before the first call. */
  const Fresh: Profile := Profile([], None)

  /** The key `shortNames[name][lastName]` uses: `undefined` before any `lastName`. */
  function Label(lastName: Option<string>): string {
    if lastName.None? then "undefined" else lastName.value
  }

  /** index.js:189-198 at one Identifier, once its rename step is done. */
  function Observe(p: Profile, o: Occurrence): Profile {
    if IsMeaningful(o.name) then p.(lastName := Some(o.name))
    else if IsRenamable(o.slot) then p.(shortNames := Bump(p.shortNames, o.name, Label(p.lastName)))
    else p
  }

  /** The profile after visiting `occs` in order. */
  function ObserveAll(p: Profile, occs: seq<Occurrence>): Profile
    decreases |occs|
  {
    if occs == [] then p else Observe(ObserveAll(p, occs[..|occs| - 1]), occs[|occs| - 1])
  }

  lemma {:induction false} ObserveAllAppend(p: Profile, a: seq<Occurrence>, b: seq<Occurrence>)
    ensures ObserveAll(p, a + b) == ObserveAll(ObserveAll(p, a), b)
    decreases |b|
  {
    if b == [] {
      assert a + b == a;
    } else {
      assert (a + b)[..|a + b| - 1] == a + b[..|b| - 1];
      ObserveAllAppend(p, a, b[..|b| - 1]);
    }
  }

  /**
   * One visit: a meaningful name becomes `lastName` and the histogram stays;
   * otherwise `lastName` stays, and in a safe position the count for the
   * name under the current label rises by exactly one while every other
   * count is unchanged.
   */
  lemma ObserveCounts(p: Profile, o: Occurrence, x: string, l: string)
    ensures var q := Observe(p, o);
      && (IsMeaningful(o.name) ==> q.lastName == Some(o.name) && q.shortNames == p.shortNames)
      && (!IsMeaningful(o.name) ==> q.lastName == p.lastName)
      && CountOf(q.shortNames, x, l) == CountOf(p.shortNames, x, l) +
        (if !IsMeaningful(o.name) && IsRenamable(o.slot) && x == o.name && l == Label(p.lastName) then 1 else 0)
  {
    if !IsMeaningful(o.name) && IsRenamable(o.slot) {
      BumpCount(p.shortNames, o.name, Label(p.lastName), x, l);
    }
  }

  /** The occurrences the histogram records: not meaningful, in a safe position. */
  function Tracked(occs: seq<Occurrence>): nat
    decreases |occs|
  {
    if occs == [] then 0
    else
      var o := occs[|occs| - 1];
      Tracked(occs[..|occs| - 1]) + if !IsMeaningful(o.name) && IsRenamable(o.slot) then 1 else 0
  }

  /** The histogram grows by one count per tracked occurrence, whatever the labels. */
  lemma {:induction false} ObserveAllTotal(p: Profile, occs: seq<Occurrence>)
    ensures Total(ObserveAll(p, occs).shortNames) == Total(p.shortNames) + Tracked(occs)
    decreases |occs|
  {
    if occs != [] {
      var q := ObserveAll(p, occs[..|occs| - 1]);
      ObserveAllTotal(p, occs[..|occs| - 1]);
      var o := occs[|occs| - 1];
      if !IsMeaningful(o.name) && IsRenamable(o.slot) {
        BumpTotal(q.shortNames, o.name, Label(q.lastName));
      }
    }
  }

  /** After a visit list, `lastName` is the last meaningful name in it, or the old one when there is none. */
  lemma {:induction false} ObserveAllLastName(p: Profile, occs: seq<Occurrence>, j: int)
    requires -1 <= j < |occs|
    requires j >= 0 ==> IsMeaningful(occs[j].name)
    requires forall i | j < i < |occs| :: !IsMeaningful(occs[i].name)
    ensures ObserveAll(p, occs).lastName == if j >= 0 then Some(occs[j].name) else p.lastName
    decreases |occs|
  {
    if occs != [] && j < |occs| - 1 {
      var init := occs[..|occs| - 1];
      assert forall i | j < i < |init| :: init[i] == occs[i];
      ObserveAllLastName(p, init, j);
    }
  }

  /**
   * What the profile holds at any time: a well-formed histogram whose rows
   * are names that are not meaningful and whose labels are `undefined` or
   * meaningful names, and a `lastName` that is unset or meaningful.
   */
  predicate Sane(p: Profile) {
    && WellFormed(p.shortNames)
    && (forall i | 0 <= i < |p.shortNames| :: !IsMeaningful(p.shortNames[i].name))
    && (forall i | 0 <= i < |p.shortNames| :: LabelsFrom(p.shortNames[i].tallies))
    && (p.lastName.Some? ==> IsMeaningful(p.lastName.value))
  }

  predicate LabelsFrom(ts: seq<Tally>) {
    forall k | 0 <= k < |ts| :: ts[k].key == "undefined" || IsMeaningful(ts[k].key)
  }

  lemma {:induction false} BumpTalliesLabelsFrom(ts: seq<Tally>, key: string)
    requires LabelsFrom(ts) && (key == "undefined" || IsMeaningful(key))
    ensures LabelsFrom(BumpTallies(ts, key))
    decreases |ts|
  {
    if ts != [] && ts[0].key != key {
      assert LabelsFrom(ts[1..]) by {
        assert forall k | 0 <= k < |ts[1..]| :: ts[1..][k] == ts[k + 1];
      }
      BumpTalliesLabelsFrom(ts[1..], key);
    }
  }

  /** Every visit keeps the profile sane. */
  lemma ObserveKeepsSane(p: Profile, o: Occurrence)
    requires Sane(p)
    ensures Sane(Observe(p, o))
  {
    if !IsMeaningful(o.name) && IsRenamable(o.slot) {
      var h := p.shortNames;
      var b := Bump(h, o.name, Label(p.lastName));
      BumpWellFormed(h, o.name, Label(p.lastName));
      forall i | 0 <= i < |b|
        ensures !IsMeaningful(b[i].name) && LabelsFrom(b[i].tallies)
      {
        BumpRows(h, o.name, Label(p.lastName), i);
        if i >= |h| || b[i] != h[i] {
          var ts := if i < |h| then h[i].tallies else [];
          BumpTalliesLabelsFrom(ts, Label(p.lastName));
        }
      }
    }
  }

  lemma {:induction false} ObserveAllKeepsSane(p: Profile, occs: seq<Occurrence>)
    requires Sane(p)
    ensures Sane(ObserveAll(p, occs))
    decreases |occs|
  {
    if occs != [] {
      ObserveAllKeepsSane(p, occs[..|occs| - 1]);
      ObserveKeepsSane(ObserveAll(p, occs[..|occs| - 1]), occs[|occs| - 1]);
    }
  }

  // ---------------------------------------------------------------------------
  // The call as the script runs it: the tree and the module-level state updated in place

  /** The module-level `shortNames` and `lastName` that every `renameIdentifier` call updates. */
  class Session {
    var shortNames: Histogram
    var lastName: Option<string>

    function State(): Profile
      reads this
    {
      Profile(shortNames, lastName)
    }

    /** index.js:127-128: an empty histogram and no `lastName`. */
    constructor ()
      ensures State() == Fresh
    {
      shortNames := [];
      lastName := None;
    }

    /**
     * `renameIdentifier(node, oldName, newName, parent)`: the node renamed as
     * `Renamed` says, and the profile advanced over the renamed occurrences
     * in visiting order.
     */
    method RenameIdentifier(n: Node, slot: Slot, oldName: Option<string>, newName: string) returns (r: Node)
      modifies this
      ensures r == Renamed(n, slot, oldName, newName)
      ensures State() == ObserveAll(old(State()), Occurrences(r, slot))
      decreases n, 1
    {
      match n
      case Identifier(x) =>
        var safe := IsRenamable(slot);
        var name := x;
        if safe && oldName.Some? && oldName.value != "" && x == oldName.value {
          name := newName;
        }
        if !IsShort(name) && name !in NotNames {
          lastName := Some(name);
        } else if safe {
          var seen := if lastName.None? then "undefined" else lastName.value;
          shortNames := Bump(shortNames, name, seen);
        }
        r := Identifier(name);
        assert [Occurrence(name, slot)][..0] == [];
      case Branch(k, cs) =>
        var done := RenameChildren(k, cs, oldName, newName);
        r := Branch(k, done);
    }

    /** The recursion loop of index.js:203-227 over the children of a `k` node, in key order. */
    method RenameChildren(k: Kind, cs: seq<Node>, oldName: Option<string>, newName: string) returns (done: seq<Node>)
      modifies this
      ensures done == RenamedChildren(k, cs, oldName, newName)
      ensures State() == ObserveAll(old(State()), ChildOccurrences(k, done))
      decreases Branch(k, cs), 0
    {
      ghost var start := State();
      done := [];
      var i := 0;
      while i < |cs|
        invariant 0 <= i <= |cs|
        invariant done == RenamedChildren(k, cs[..i], oldName, newName)
        invariant State() == ObserveAll(start, ChildOccurrences(k, done))
        decreases |cs| - i
      {
        RenameChildrenStep(k, cs, i, oldName, newName);
        ghost var before := ChildOccurrences(k, done);
        var c := RenameIdentifier(cs[i], Child(k, i), oldName, newName);
        ObserveAllAppend(start, before, Occurrences(c, Child(k, i)));
        ChildOccurrencesSnoc(k, done, c);
        done := done + [c];
        i := i + 1;
      }
      assert cs[..i] == cs;
    }
  }

  /** One more child adds its own occurrences last. */
  lemma ChildOccurrencesSnoc(k: Kind, done: seq<Node>, c: Node)
    ensures ChildOccurrences(k, done + [c]) == ChildOccurrences(k, done) + Occurrences(c, Child(k, |done|))
  {
    assert (done + [c])[..|done|] == done;
  }

  /** One more child of the renamed children, as an equation. */
  lemma RenameChildrenStep(k: Kind, cs: seq<Node>, i: nat, oldName: Option<string>, newName: string)
    requires i < |cs|
    ensures RenamedChildren(k, cs[..i + 1], oldName, newName)
      == RenamedChildren(k, cs[..i], oldName, newName) + [Renamed(cs[i], Child(k, i), oldName, newName)]
  {
    assert cs[..i + 1][..i] == cs[..i];
  }
}
