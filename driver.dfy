/**
 * The script itself (index.js:76-78, 104-108, 275-303, 338-342): undo the
 * shadowing, run three rounds of pair-driven renaming, then rename every
 * short name after the labels that most often preceded it.
 *
 * Reading `target.js`, `acorn.parse` and `astring`'s `generate` are not
 * modelled. The tree is taken to survive printing and re-parsing unchanged,
 * and `scan` stands for `generate` followed by the `.match` of index.js:83:
 * it gives the regular-expression matches found in the printed tree.
 */
module Driver {
  import opened Wrappers
  import opened Ast
  import opened Shadowing
  import opened Pairs
  import opened Replacers
  import opened Histograms
  import opened Rename
  import opened Labels

  /** The parsed tree and the module-level `shortNames`/`lastName` between calls. */
  datatype Stage = Stage(tree: Node, profile: Profile)

  /** The arguments of one top-level `renameIdentifier(ast, oldName, newName)` call. */
  datatype Step = Step(oldName: string, newName: string)

  /** One top-level call: the whole tree renamed, the profile advanced over the renamed tree. */
  function RenameStep(st: Stage, s: Step): Stage {
    var r := Renamed(st.tree, Root, Some(s.oldName), s.newName);
    Stage(r, ObserveAll(st.profile, Occurrences(r, Root)))
  }

  /** A sequence of top-level calls, in order. */
  function Renames(st: Stage, steps: seq<Step>): Stage
    decreases |steps|
  {
    if steps == [] then st
    else RenameStep(Renames(st, steps[..|steps| - 1]), steps[|steps| - 1])
  }

  /** `for (const key in replacers) renameIdentifier(ast, key, `${replacers[key]}$${key}`)`. */
  function PairSteps(ps: seq<Pair>): (r: seq<Step>)
    ensures |r| == |ps|
  {
    seq(|ps|, i requires 0 <= i < |ps| => Step(ps[i].name, NewName(ps[i])))
  }

  /** `for (const key in nameLists) renameIdentifier(ast, key, `${nameLists[key].join('$')}$${key}`)`. */
  function ChoiceSteps(cs: seq<Choice>): (r: seq<Step>)
    ensures |r| == |cs|
  {
    seq(|cs|, i requires 0 <= i < |cs| => Step(cs[i].name, FinalName(cs[i])))
  }

  /** One round (index.js:80-104 and 275-277): mine the printed tree, then rename after the candidates. */
  function Round(st: Stage, matches: seq<string>): Result<Stage, string> {
    var c := Candidates(matches);
    if c.Failure? then Failure(c.error) else Success(Renames(st, PairSteps(c.value)))
  }

  /** The tree and profile after the three rounds, or the exception that stopped the script. */
  function AfterRounds(ast: Node, scan: Node -> seq<string>): Result<Stage, string> {
    var t := Deshadow(ast).0;
    var r1 := Round(Stage(t, Fresh), scan(t));
    if r1.Failure? then r1
    else
      var r2 := Round(r1.value, scan(r1.value.tree));
      if r2.Failure? then r2
      else Round(r2.value, scan(r2.value.tree))
  }

  /** The tree the script prints (before the output fixups of index.js:343-352). */
  function Unminify(ast: Node, scan: Node -> seq<string>): Result<Node, string> {
    var r := AfterRounds(ast, scan);
    if r.Failure? then Failure(r.error)
    else Success(Renames(r.value, ChoiceSteps(LongNames(r.value.profile.shortNames))).tree)
  }

  /** One more call, as an equation. */
  lemma RenamesSnoc(st: Stage, steps: seq<Step>, i: nat)
    requires i < |steps|
    ensures Renames(st, steps[..i + 1]) == RenameStep(Renames(st, steps[..i]), steps[i])
  {
    assert steps[..i + 1][..i] == steps[..i];
  }

  // ---------------------------------------------------------------------------
  // What every run keeps

  /** The shape, the slots and the property keys of a tree. */
  ghost predicate KeepsKeys(a: seq<Occurrence>, b: seq<Occurrence>) {
    && |a| == |b|
    && forall i | 0 <= i < |a| :: b[i].slot == a[i].slot && (IsKeyPosition(a[i].slot) ==> b[i].name == a[i].name)
  }

  /** Any run of top-level calls keeps the tree's shape and never touches a property key. */
  lemma {:induction false} RenamesKeepKeys(st: Stage, steps: seq<Step>)
    ensures Skeleton(Renames(st, steps).tree) == Skeleton(st.tree)
    ensures KeepsKeys(Occurrences(st.tree, Root), Occurrences(Renames(st, steps).tree, Root))
    decreases |steps|
  {
    if steps != [] {
      var mid := Renames(st, steps[..|steps| - 1]);
      var s := steps[|steps| - 1];
      RenamesKeepKeys(st, steps[..|steps| - 1]);
      RenamedSkeleton(mid.tree, Root, Some(s.oldName), s.newName);
      RenamedOccurrences(mid.tree, Root, Some(s.oldName), s.newName);
    }
  }

  /** One successful round keeps the shape and the property keys. */
  lemma RoundKeepsKeys(st: Stage, matches: seq<string>)
    requires Round(st, matches).Success?
    ensures Skeleton(Round(st, matches).value.tree) == Skeleton(st.tree)
    ensures KeepsKeys(Occurrences(st.tree, Root), Occurrences(Round(st, matches).value.tree, Root))
  {
    RenamesKeepKeys(st, PairSteps(Candidates(matches).value));
  }

  lemma KeepsKeysTransitive(a: seq<Occurrence>, b: seq<Occurrence>, c: seq<Occurrence>)
    requires KeepsKeys(a, b) && KeepsKeys(b, c)
    ensures KeepsKeys(a, c)
  {
  }

  /**
   * A finished run keeps the input's shape: same node types, same
   * identifiers in the same positions, and every member property, object key
   * (but a computed key of an object pattern) and non-computed method key
   * exactly as it was. Only variable names change.
   */
  lemma UnminifyKeepsKeys(ast: Node, scan: Node -> seq<string>)
    requires Unminify(ast, scan).Success?
    ensures Skeleton(Unminify(ast, scan).value) == Skeleton(ast)
    ensures KeepsKeys(Occurrences(ast, Root), Occurrences(Unminify(ast, scan).value, Root))
  {
    var t := Deshadow(ast).0;
    DeshadowKeepsUndeclared(ast);
    var o0 := Occurrences(ast, Root);
    var st0 := Stage(t, Fresh);
    RoundKeepsKeys(st0, scan(t));
    var st1 := Round(st0, scan(t)).value;
    KeepsKeysTransitive(o0, Occurrences(t, Root), Occurrences(st1.tree, Root));
    RoundKeepsKeys(st1, scan(st1.tree));
    var st2 := Round(st1, scan(st1.tree)).value;
    KeepsKeysTransitive(o0, Occurrences(st1.tree, Root), Occurrences(st2.tree, Root));
    RoundKeepsKeys(st2, scan(st2.tree));
    var st3 := Round(st2, scan(st2.tree)).value;
    KeepsKeysTransitive(o0, Occurrences(st2.tree, Root), Occurrences(st3.tree, Root));
    var steps := ChoiceSteps(LongNames(st3.profile.shortNames));
    RenamesKeepKeys(st3, steps);
    KeepsKeysTransitive(o0, Occurrences(st3.tree, Root), Occurrences(Renames(st3, steps).tree, Root));
  }

  /** Any run of top-level calls keeps the profile sane. */
  lemma {:induction false} RenamesKeepSane(st: Stage, steps: seq<Step>)
    requires Sane(st.profile)
    ensures Sane(Renames(st, steps).profile)
    decreases |steps|
  {
    if steps != [] {
      var mid := Renames(st, steps[..|steps| - 1]);
      var s := steps[|steps| - 1];
      RenamesKeepSane(st, steps[..|steps| - 1]);
      ObserveAllKeepsSane(mid.profile, Occurrences(Renamed(mid.tree, Root, Some(s.oldName), s.newName), Root));
    }
  }

  /**
   * After the three rounds `shortNames` holds one row per name and one
   * positive tally per label, its rows are short names or words of
   * `notNames`, and its labels are meaningful names or `undefined`.
   */
  lemma RoundsKeepSane(ast: Node, scan: Node -> seq<string>)
    requires AfterRounds(ast, scan).Success?
    ensures Sane(AfterRounds(ast, scan).value.profile)
  {
    var t := Deshadow(ast).0;
    var st0 := Stage(t, Fresh);
    assert Sane(Fresh);
    var st1 := Renames(st0, PairSteps(Candidates(scan(t)).value));
    RenamesKeepSane(st0, PairSteps(Candidates(scan(t)).value));
    var st2 := Renames(st1, PairSteps(Candidates(scan(st1.tree)).value));
    RenamesKeepSane(st1, PairSteps(Candidates(scan(st1.tree)).value));
    RenamesKeepSane(st2, PairSteps(Candidates(scan(st2.tree)).value));
  }

  /**
   * The final rename (index.js:340-342) of a sane profile renames short
   * names or `notNames` words only, one per row in row order, and every
   * label it puts in a new name is a meaningful name or `undefined` that
   * preceded that name the most often.
   */
  lemma FinalStepsFromProfile(p: Profile, i: nat, j: nat)
    requires Sane(p) && i < |p.shortNames|
    requires j < |LongNames(p.shortNames)[i].labels|
    ensures var c := LongNames(p.shortNames)[i];
      && c.name == p.shortNames[i].name && !IsMeaningful(c.name)
      && (c.labels[j] == "undefined" || IsMeaningful(c.labels[j]))
      && exists k | 0 <= k < |p.shortNames[i].tallies| ::
          p.shortNames[i].tallies[k].key == c.labels[j] && p.shortNames[i].tallies[k].count == MaxCount(p.shortNames[i].tallies)
  {
    var h := p.shortNames;
    LongNamesAt(h, i);
    var ts := h[i].tallies;
    if ts != [] {
      var idx := ChooseFromMax(ts);
      assert LabelsFrom(ts);
      var k := idx[j];
      assert ts[k].key == Choose(ts)[j];
    }
  }

  /** When no round finds a candidate, the run prints the unshadowed tree and nothing else changes. */
  lemma NoCandidatesNoRenames(ast: Node, scan: Node -> seq<string>)
    requires Candidates(scan(Deshadow(ast).0)) == Success([])
    ensures AfterRounds(ast, scan) == Success(Stage(Deshadow(ast).0, Fresh))
    ensures Unminify(ast, scan) == Success(Deshadow(ast).0)
  {
    var st := Stage(Deshadow(ast).0, Fresh);
    assert PairSteps([]) == [];
    assert Round(st, scan(st.tree)) == Success(st);
    assert LongNames([]) == [];
    assert ChoiceSteps([]) == [];
  }

  // ---------------------------------------------------------------------------
  // The script as it runs: one tree and one profile, updated call by call

  /** `Round` as the script runs it, with `replacers` built by `Object.fromEntries`. */
  method RunRound(session: Session, tree: Node, matches: seq<string>) returns (r: Result<Node, string>)
    modifies session
    ensures var want := Round(Stage(tree, old(session.State())), matches);
      && r.Failure? == want.Failure?
      && (r.Failure? ==> r.error == want.error)
      && (r.Success? ==> Stage(r.value, session.State()) == want.value)
  {
    var c := Candidates(matches);
    if c.Failure? {
      return Failure(c.error);
    }
    CandidatesNamesDistinct(matches);
    var t := RenameReplacers(session, tree, c.value);
    r := Success(t);
  }

  /** `replacers = Object.fromEntries(pairs)` and the loop over its keys (index.js:104, 275-277). */
  method RenameReplacers(session: Session, tree: Node, pairs: seq<Pair>) returns (t: Node)
    requires NamesDistinct(pairs)
    modifies session
    ensures Stage(t, session.State()) == Renames(Stage(tree, old(session.State())), PairSteps(pairs))
  {
    var replacers := FromEntries(pairs);
    ghost var start := Stage(tree, session.State());
    ghost var steps := PairSteps(pairs);
    t := tree;
    var i := 0;
    while i < |pairs|
      invariant 0 <= i <= |pairs|
      invariant Stage(t, session.State()) == Renames(start, steps[..i])
      decreases |pairs| - i
    {
      var key := pairs[i].name;
      FromEntriesDistinct(pairs, i);
      var newName := replacers[key] + "$" + key;
      assert steps[i] == Step(key, newName);
      RenamesSnoc(start, steps, i);
      t := session.RenameIdentifier(t, Root, Some(key), newName);
      i := i + 1;
    }
    assert steps[..i] == steps;
  }

  /** The final loop of index.js:340-342 over `nameLists`, in row order. */
  method RunFinal(session: Session, tree: Node, nameLists: seq<Choice>) returns (r: Node)
    modifies session
    ensures Stage(r, session.State()) == Renames(Stage(tree, old(session.State())), ChoiceSteps(nameLists))
  {
    ghost var start := Stage(tree, session.State());
    ghost var steps := ChoiceSteps(nameLists);
    r := tree;
    var i := 0;
    while i < |nameLists|
      invariant 0 <= i <= |nameLists|
      invariant Stage(r, session.State()) == Renames(start, steps[..i])
      decreases |nameLists| - i
    {
      RenamesSnoc(start, steps, i);
      r := session.RenameIdentifier(r, Root, Some(nameLists[i].name), FinalName(nameLists[i]));
      i := i + 1;
    }
    assert steps[..i] == steps;
  }

  /** The script from the unshadowing to the final rename, as `Unminify` says. */
  method Run(ast: Node, scan: Node -> seq<string>) returns (out: Result<Node, string>)
    ensures out == Unminify(ast, scan)
  {
    var tree := SolveShadowing(ast);
    var session := new Session();
    var r1 := RunRound(session, tree, scan(tree));
    if r1.Failure? {
      return Failure(r1.error);
    }
    tree := r1.value;
    var r2 := RunRound(session, tree, scan(tree));
    if r2.Failure? {
      return Failure(r2.error);
    }
    tree := r2.value;
    var r3 := RunRound(session, tree, scan(tree));
    if r3.Failure? {
      return Failure(r3.error);
    }
    tree := r3.value;
    var nameLists := GetLongNames(session.shortNames);
    tree := RunFinal(session, tree, nameLists);
    out := Success(tree);
  }
}
