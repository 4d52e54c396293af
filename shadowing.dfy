/**
 * Scope-aware deshadowing: `solveShadowing` (index.js:9-73).
 *
 * A depth-first walk keeps a stack of frames, each mapping an original name
 * to the name it resolves to, and one counter per base name for the whole
 * program. The first declarator of a base name keeps it; every later one,
 * in any scope, is renamed `name` followed by the incremented counter and
 * recorded in the innermost frame. Every other identifier is rewritten from
 * the innermost frame that maps it.
 *
 * Walk order, as acorn-walk's `ancestor` walker runs the handlers: a frame
 * is pushed on entering a function or block and popped on leaving it; the
 * `VariableDeclarator` handler runs after the declarator's children (its
 * initialiser) have been walked. acorn-walk hands the `Identifier` handler
 * only the names it visits as expressions: a name in a pattern position (a
 * function's name and parameters, a declarator's id, an assignment target,
 * a catch parameter, a class declaration's name, the names inside array
 * and object patterns) and a label are never handed to it, nor is a method
 * key unless it is computed. Defaults and computed keys inside a pattern
 * are expressions and are handed to it (`Enters`, `IsPatternName`).
 */
module Shadowing {
  import opened Wrappers
  import opened Text
  import opened Ast

  /** One scope frame `{ "oldName": "newName" }`; a stored `undefined` is `None`. */
  type Frame = map<string, Option<string>>

  /** `globalNameCounts` (index.js:10) and `scopeStack` (index.js:11). */
  datatype Scopes = Scopes(counts: map<string, nat>, frames: seq<Frame>)

  /** The state `solveShadowing` starts from: no counters, one empty root frame. */
  const Initial: Scopes := Scopes(map[], [map[]])

  /** The truthiness test `scopeStack[i][node.name]` of index.js:58. */
  predicate Maps(f: Frame, x: string) {
    x in f && f[x].Some? && f[x].value != ""
  }

  /** The lookup loop of index.js:57-62: the innermost frame that maps `x` decides. */
  function Resolve(frames: seq<Frame>, x: string): string
    decreases |frames|
  {
    if frames == [] then x
    else if Maps(frames[|frames| - 1], x) then frames[|frames| - 1][x].value
    else Resolve(frames[..|frames| - 1], x)
  }

  /** A reference takes the mapping of the innermost frame that has its name; outer frames are not consulted. */
  lemma {:induction false} ResolveInnermost(frames: seq<Frame>, x: string, i: nat)
    requires i < |frames| && Maps(frames[i], x)
    requires forall j | i < j < |frames| :: !Maps(frames[j], x)
    ensures Resolve(frames, x) == frames[i][x].value
    decreases |frames|
  {
    if i < |frames| - 1 {
      ResolveInnermost(frames[..|frames| - 1], x, i);
    }
  }

  /** With no frame mapping it, a reference is left unchanged. */
  lemma {:induction false} ResolveUnmapped(frames: seq<Frame>, x: string)
    requires forall j | 0 <= j < |frames| :: !Maps(frames[j], x)
    ensures Resolve(frames, x) == x
    decreases |frames|
  {
    if frames != [] {
      ResolveUnmapped(frames[..|frames| - 1], x);
    }
  }

  /** `currentScope[x] = v` on the top frame (index.js:25, 32, 37). */
  function SetTop(frames: seq<Frame>, x: string, v: Option<string>): seq<Frame>
    requires |frames| >= 1
  {
    frames[|frames| - 1 := frames[|frames| - 1][x := v]]
  }

  /**
   * Whether the walk enters child `c`, at position `i` of a `k` node with
   * `n` children. acorn-walk visits a function's name and parameters and a
   * declarator's id as patterns, where a plain name never reaches the
   * `Identifier` handler, so such a name is not entered; a destructuring
   * pattern there is, for the defaults and computed keys inside it. A
   * method's key is visited only when it is computed (`[m]() {}`).
   */
  predicate Enters(k: Kind, i: nat, n: nat, c: Node) {
    && !(c.Identifier? && IsFunction(k) && i + 1 < n)
    && !(c.Identifier? && k.VariableDeclarator? && i == 0)
    && !(k.MethodDefinition? && !k.computed && i == 0)
  }

  /**
   * Identifier slots that acorn-walk visits as patterns or not at all, so
   * the `Identifier` handler never runs there: the target of an assignment
   * or of a default, an element of an array pattern, a rest element, a
   * name in an object pattern (all but a computed key), a catch parameter,
   * a class declaration's name, a statement label, and the names of
   * `new.target` / `import.meta`.
   */
  predicate IsPatternName(s: Slot) {
    && s.Child?
    && match s.parent
       case Property(_, computed, inPattern) => inPattern && !(computed && s.index == 0)
       case Other(t) =>
         || t == "ArrayPattern" || t == "MetaProperty"
         || (s.index == 0 && t in ["AssignmentExpression", "AssignmentPattern", "RestElement", "CatchClause",
                                   "ClassDeclaration", "LabeledStatement", "BreakStatement", "ContinueStatement"])
       case _ => false
  }

  /**
   * The identifiers the `Identifier` handler sees and its guard lets through
   * (index.js:42-63). A computed key of an object pattern reaches the
   * handler with the pattern as its parent, so none of the guard's tests
   * apply to it.
   */
  predicate Resolves(s: Slot) {
    IsPatternComputedKey(s) || (IsReference(s) && !IsPatternName(s))
  }

  /**
   * The `VariableDeclarator` handler (index.js:23-39) on the declarator's
   * children `cs`, whose first child is the id. Only a plain identifier id is
   * handled; any other declarator is left alone (see `DeclareAsWritten`).
   */
  function Declare(cs: seq<Node>, s: Scopes): (r: (seq<Node>, Scopes))
    requires |s.frames| >= 1
    ensures |r.0| == |cs| && |r.1.frames| == |s.frames|
    ensures r.1.frames[..|s.frames| - 1] == s.frames[..|s.frames| - 1]
    ensures forall i | 1 <= i < |cs| :: r.0[i] == cs[i]
    ensures cs != [] && cs[0].Identifier? ==>
      var x := cs[0].name;
      && r.0[0] == Identifier(NameFor(s.counts, x))
      && r.1.counts == CountDeclaration(s.counts, x)
      && r.1.frames[|s.frames| - 1] == s.frames[|s.frames| - 1][x := Some(NameFor(s.counts, x))]
    ensures !(cs != [] && cs[0].Identifier?) ==> r == (cs, s)
  {
    if cs == [] || !cs[0].Identifier? then (cs, s)
    else
      var name := cs[0].name;
      if name in s.counts then
        var c := s.counts[name] + 1;
        var newName := name + NatToString(c);
        (cs[0 := Identifier(newName)], Scopes(s.counts[name := c], SetTop(s.frames, name, Some(newName))))
      else
        (cs, Scopes(s.counts[name := 0], SetTop(s.frames, name, Some(name))))
  }

  /**
   * The handler exactly as index.js:24-38 write it: a destructuring id has no
   * `name`, so the key is the string "undefined" and the stored value is
   * `undefined` (first time) or "undefined" followed by the counter.
   * Acorn always gives a declarator an id; an id-less one is read as a pattern here.
   */
  function DeclareAsWritten(cs: seq<Node>, s: Scopes): (seq<Node>, Scopes)
    requires |s.frames| >= 1
  {
    var isIdentifier := cs != [] && cs[0].Identifier?;
    var name := if isIdentifier then cs[0].name else "undefined";
    if name in s.counts then
      var c := s.counts[name] + 1;
      var newName := name + NatToString(c);
      (if isIdentifier then cs[0 := Identifier(newName)] else cs,
       Scopes(s.counts[name := c], SetTop(s.frames, name, Some(newName))))
    else
      (cs, Scopes(s.counts[name := 0], SetTop(s.frames, name, if isIdentifier then Some(name) else None)))
  }

  /**
   * The walk of index.js:13-70 over node `n` at `slot`, from state `s`: the
   * rewritten node and the new state. It writes only the top frame and leaves
   * the stack as high as it found it; a function or block pops exactly the
   * frame it pushed. (`ShadowDeclares` gives the counters it leaves.)
   */
  function Shadow(n: Node, slot: Slot, s: Scopes): (r: (Node, Scopes))
    requires |s.frames| >= 1
    ensures |r.1.frames| == |s.frames|
    ensures r.1.frames[..|s.frames| - 1] == s.frames[..|s.frames| - 1]
    ensures n.Branch? && OpensScope(n.kind) ==> r.1.frames == s.frames
    ensures r.0.Identifier? == n.Identifier?
    decreases n
  {
    match n
    case Identifier(x) =>
      if Resolves(slot) then (Identifier(Resolve(s.frames, x)), s) else (n, s)
    case Branch(k, cs) =>
      var inner := Enter(k, s);
      var walked := ShadowChildren(k, cs, |cs|, inner);
      var after := Leave(k, walked.1);
      assert OpensScope(k) ==> after.frames == s.frames by {
        if OpensScope(k) {
          assert walked.1.frames[..|inner.frames| - 1] == inner.frames[..|inner.frames| - 1];
        }
      }
      if k.VariableDeclarator? then
        var d := Declare(walked.0, after);
        (Branch(k, d.0), d.1)
      else
        (Branch(k, walked.0), after)
  }

  /** Entering a function or block pushes a fresh frame (index.js:16-20). */
  function Enter(k: Kind, s: Scopes): Scopes {
    if OpensScope(k) then s.(frames := s.frames + [map[]]) else s
  }

  /** Leaving a function or block pops its frame (index.js:67-69). */
  function Leave(k: Kind, s: Scopes): Scopes
    requires |s.frames| >= 1
  {
    if OpensScope(k) then s.(frames := s.frames[..|s.frames| - 1]) else s
  }

  /** One step of `Shadow` on a branch, as an equation the lemmas below start from. */
  lemma ShadowBranch(k: Kind, cs: seq<Node>, slot: Slot, s: Scopes)
    requires |s.frames| >= 1
    ensures var walked := ShadowChildren(k, cs, |cs|, Enter(k, s));
      Shadow(Branch(k, cs), slot, s) ==
        if k.VariableDeclarator? then (Branch(k, Declare(walked.0, walked.1).0), Declare(walked.0, walked.1).1)
        else (Branch(k, walked.0), Leave(k, walked.1))
  {
  }

  /**
   * The walk over the children `cs` of a `k` node with `n` children in all
   * (`cs` is a prefix of them); slots the walk does not enter are kept.
   */
  function ShadowChildren(k: Kind, cs: seq<Node>, n: nat, s: Scopes): (r: (seq<Node>, Scopes))
    requires |s.frames| >= 1
    ensures |r.0| == |cs|
    ensures forall i | 0 <= i < |cs| && !Enters(k, i, n, cs[i]) :: r.0[i] == cs[i]
    ensures forall i | 0 <= i < |cs| :: r.0[i].Identifier? == cs[i].Identifier?
    ensures |r.1.frames| == |s.frames|
    ensures r.1.frames[..|s.frames| - 1] == s.frames[..|s.frames| - 1]
    decreases cs
  {
    if cs == [] then ([], s)
    else
      var i := |cs| - 1;
      var done := ShadowChildren(k, cs[..i], n, s);
      if Enters(k, i, n, cs[i]) then
        var c := Shadow(cs[i], Child(k, i), done.1);
        (done.0 + [c.0], c.1)
      else
        (done.0 + [cs[i]], done.1)
  }

  /** `solveShadowing` on a whole program: the walk from the root with one empty frame. */
  function Deshadow(ast: Node): (r: (Node, Scopes))
    ensures |r.1.frames| == 1
  {
    Shadow(ast, Root, Initial)
  }

  // ---------------------------------------------------------------------------
  // The declaration counter (index.js:28-38)

  /** The names the walk declares, in the order it handles their declarators. */
  function Declared(n: Node): seq<string>
    decreases n
  {
    match n
    case Identifier(_) => []
    case Branch(k, cs) =>
      DeclaredChildren(k, cs, |cs|)
      + (if k.VariableDeclarator? && cs != [] && cs[0].Identifier? then [cs[0].name] else [])
  }

  function DeclaredChildren(k: Kind, cs: seq<Node>, n: nat): seq<string>
    decreases cs
  {
    if cs == [] then []
    else
      DeclaredChildren(k, cs[..|cs| - 1], n)
      + (if Enters(k, |cs| - 1, n, cs[|cs| - 1]) then Declared(cs[|cs| - 1]) else [])
  }

  /** One declaration of `x` on the counter alone. */
  function CountDeclaration(counts: map<string, nat>, x: string): map<string, nat>
  {
    if x in counts then counts[x := counts[x] + 1] else counts[x := 0]
  }

  /** The counter after declaring `names` in order. */
  function CountAll(counts: map<string, nat>, names: seq<string>): map<string, nat>
  {
    if names == [] then counts
    else CountDeclaration(CountAll(counts, names[..|names| - 1]), names[|names| - 1])
  }

  /** The name a declaration of `x` receives from the counter. */
  function NameFor(counts: map<string, nat>, x: string): string
  {
    if x in counts then x + NatToString(counts[x] + 1) else x
  }

  /** The names that declaring `names` in order gives them. */
  function NamesFor(counts: map<string, nat>, names: seq<string>): seq<string>
  {
    if names == [] then []
    else
      var init := names[..|names| - 1];
      NamesFor(counts, init) + [NameFor(CountAll(counts, init), names[|names| - 1])]
  }

  /** How many of `names` are `x`. */
  function Occ(names: seq<string>, x: string): nat
  {
    if names == [] then 0
    else Occ(names[..|names| - 1], x) + (if names[|names| - 1] == x then 1 else 0)
  }

  lemma {:induction false} CountAllAppend(counts: map<string, nat>, a: seq<string>, b: seq<string>)
    ensures CountAll(counts, a + b) == CountAll(CountAll(counts, a), b)
    ensures NamesFor(counts, a + b) == NamesFor(counts, a) + NamesFor(CountAll(counts, a), b)
    decreases |b|
  {
    if b == [] {
      assert a + b == a;
    } else {
      var init := b[..|b| - 1];
      assert (a + b)[..|a + b| - 1] == a + init;
      CountAllAppend(counts, a, init);
    }
  }

  /**
   * The counter in closed form: a name already counted gains one per
   * declaration; a new name starts at 0 on its first declaration and gains
   * one per later one.
   */
  lemma {:induction false} CountAllValue(counts: map<string, nat>, names: seq<string>, x: string)
    ensures x in CountAll(counts, names) <==> x in counts || Occ(names, x) > 0
    ensures x in counts ==> CountAll(counts, names)[x] == counts[x] + Occ(names, x)
    ensures x !in counts && Occ(names, x) > 0 ==> CountAll(counts, names)[x] == Occ(names, x) - 1
    decreases |names|
  {
    if names != [] {
      CountAllValue(counts, names[..|names| - 1], x);
    }
  }

  lemma {:induction false} OccPrefix(names: seq<string>, i: nat, x: string)
    requires i < |names|
    ensures Occ(names[..i + 1], x) == Occ(names[..i], x) + (if names[i] == x then 1 else 0)
  {
    assert names[..i + 1][..i] == names[..i];
  }

  lemma {:induction false} NamesForLength(counts: map<string, nat>, names: seq<string>)
    ensures |NamesFor(counts, names)| == |names|
    decreases |names|
  {
    if names != [] {
      NamesForLength(counts, names[..|names| - 1]);
    }
  }

  /**
   * The name the `k`-th repeat of a base name `x` (counting from 0, in walk
   * order) receives: `x` followed by the counter. From an empty counter the
   * first declaration keeps `x` and the `k`-th repeat becomes `x` + `k`.
   */
  function RepeatName(counts: map<string, nat>, x: string, k: nat): string {
    if x in counts then x + NatToString(counts[x] + k + 1)
    else if k == 0 then x
    else x + NatToString(k)
  }

  lemma {:induction false} NamesForRepeat(counts: map<string, nat>, names: seq<string>, i: nat)
    requires i < |names|
    ensures |NamesFor(counts, names)| == |names|
    ensures NamesFor(counts, names)[i] == RepeatName(counts, names[i], Occ(names[..i], names[i]))
    decreases |names|
  {
    NamesForLength(counts, names);
    var init := names[..|names| - 1];
    NamesForLength(counts, init);
    if i < |names| - 1 {
      NamesForRepeat(counts, init, i);
      assert init[..i] == names[..i];
      assert NamesFor(counts, names)[i] == NamesFor(counts, init)[i];
    } else {
      assert init == names[..i];
      assert NamesFor(counts, names)[i] == NameFor(CountAll(counts, init), names[i]);
      CountAllValue(counts, init, names[i]);
    }
  }

  /** Two declarations of the same base name never receive the same name. */
  lemma RepeatsGetDistinctNames(counts: map<string, nat>, names: seq<string>, i: nat, j: nat)
    requires i < j < |names| && names[i] == names[j]
    ensures |NamesFor(counts, names)| == |names|
    ensures NamesFor(counts, names)[i] != NamesFor(counts, names)[j]
  {
    var x := names[i];
    NamesForRepeat(counts, names, i);
    NamesForRepeat(counts, names, j);
    OccMonotone(names, i + 1, j, x);
    OccPrefix(names, i, x);
    RepeatNamesDiffer(counts, x, Occ(names[..i], x), Occ(names[..j], x));
  }

  /** Different repeat numbers give different names. */
  lemma RepeatNamesDiffer(counts: map<string, nat>, x: string, k: nat, l: nat)
    requires k < l
    ensures RepeatName(counts, x, k) != RepeatName(counts, x, l)
  {
    if x in counts {
      SuffixesDiffer(x, counts[x] + k + 1, counts[x] + l + 1);
    } else if k != 0 {
      SuffixesDiffer(x, k, l);
    }
  }

  /** A base name with two different counters appended gives two different names. */
  lemma SuffixesDiffer(x: string, m: nat, n: nat)
    requires m != n
    ensures x + NatToString(m) != x + NatToString(n)
  {
    NatToStringInjective(m, n);
    assert (x + NatToString(m))[|x|..] == NatToString(m);
    assert (x + NatToString(n))[|x|..] == NatToString(n);
  }

  lemma {:induction false} OccMonotone(names: seq<string>, i: nat, j: nat, x: string)
    requires i <= j <= |names|
    ensures Occ(names[..i], x) <= Occ(names[..j], x)
    decreases j - i
  {
    if i < j {
      OccMonotone(names, i, j - 1, x);
      OccPrefix(names, j - 1, x);
    }
  }

  lemma {:induction false} DeclaredChildrenAgree(k: Kind, a: seq<Node>, b: seq<Node>, n: nat)
    requires |a| == |b|
    requires forall i | 0 <= i < |a| :: a[i].Identifier? == b[i].Identifier? && (Enters(k, i, n, a[i]) ==> a[i] == b[i])
    ensures DeclaredChildren(k, a, n) == DeclaredChildren(k, b, n)
    decreases |a|
  {
    if a != [] {
      DeclaredChildrenAgree(k, a[..|a| - 1], b[..|b| - 1], n);
    }
  }

  /**
   * The walk's counters are the counter run over the declared names in walk
   * order, and the declarators of the result carry the names that run assigns.
   */
  lemma {:induction false} ShadowDeclares(n: Node, slot: Slot, s: Scopes)
    requires |s.frames| >= 1
    ensures Shadow(n, slot, s).1.counts == CountAll(s.counts, Declared(n))
    ensures Declared(Shadow(n, slot, s).0) == NamesFor(s.counts, Declared(n))
    decreases n, 1
  {
    if n.Branch? {
      BranchDeclares(n.kind, n.children, slot, s);
    }
  }

  lemma {:induction false} BranchDeclares(k: Kind, cs: seq<Node>, slot: Slot, s: Scopes)
    requires |s.frames| >= 1
    ensures Shadow(Branch(k, cs), slot, s).1.counts == CountAll(s.counts, Declared(Branch(k, cs)))
    ensures Declared(Shadow(Branch(k, cs), slot, s).0) == NamesFor(s.counts, Declared(Branch(k, cs)))
    decreases Branch(k, cs), 0
  {
    var inner := Enter(k, s);
    ShadowBranch(k, cs, slot, s);
    var walked := ShadowChildren(k, cs, |cs|, inner);
    ShadowChildrenDeclares(k, cs, |cs|, inner);
    var r := Shadow(Branch(k, cs), slot, s);
    if k.VariableDeclarator? {
      DeclaratorDeclares(cs, walked.0, walked.1, s.counts);
      var d := Declare(walked.0, walked.1);
      assert r.0 == Branch(k, d.0);
      assert r.1.counts == d.1.counts;
    } else {
      var dc := DeclaredChildren(k, cs, |cs|);
      assert r.0 == Branch(k, walked.0);
      assert r.1.counts == walked.1.counts;
      assert Declared(Branch(k, cs)) == dc + [] == dc;
      assert Declared(r.0) == DeclaredChildren(k, walked.0, |cs|) + [];
    }
  }

  /** The declarator step: one more declared name, named by the counter the children left. */
  lemma DeclaratorDeclares(cs: seq<Node>, walked: seq<Node>, w: Scopes, counts: map<string, nat>)
    requires |w.frames| >= 1 && |walked| == |cs|
    requires cs != [] ==> walked[0].Identifier? == cs[0].Identifier? && (cs[0].Identifier? ==> walked[0] == cs[0])
    requires w.counts == CountAll(counts, DeclaredChildren(VariableDeclarator, cs, |cs|))
    requires DeclaredChildren(VariableDeclarator, walked, |cs|) == NamesFor(counts, DeclaredChildren(VariableDeclarator, cs, |cs|))
    ensures Declare(walked, w).1.counts == CountAll(counts, Declared(Branch(VariableDeclarator, cs)))
    ensures Declared(Branch(VariableDeclarator, Declare(walked, w).0)) == NamesFor(counts, Declared(Branch(VariableDeclarator, cs)))
  {
    var d := Declare(walked, w);
    var inDeclared := DeclaredChildren(VariableDeclarator, cs, |cs|);
    assert |d.0| == |cs|;
    DeclaredChildrenAgree(VariableDeclarator, d.0, walked, |cs|);
    if cs != [] && cs[0].Identifier? {
      var name := cs[0].name;
      assert Declared(Branch(VariableDeclarator, cs)) == inDeclared + [name];
      CountAllAppend(counts, inDeclared, [name]);
      assert [name][..0] == [];
      assert d.0[0] == Identifier(NameFor(w.counts, name));
    } else {
      assert Declared(Branch(VariableDeclarator, cs)) == inDeclared + [];
      assert inDeclared + [] == inDeclared;
    }
  }

  lemma {:induction false} ShadowChildrenDeclares(k: Kind, cs: seq<Node>, n: nat, s: Scopes)
    requires |s.frames| >= 1
    ensures ShadowChildren(k, cs, n, s).1.counts == CountAll(s.counts, DeclaredChildren(k, cs, n))
    ensures DeclaredChildren(k, ShadowChildren(k, cs, n, s).0, n) == NamesFor(s.counts, DeclaredChildren(k, cs, n))
    decreases cs
  {
    if cs != [] {
      var i := |cs| - 1;
      var done := ShadowChildren(k, cs[..i], n, s);
      ShadowChildrenDeclares(k, cs[..i], n, s);
      var r := ShadowChildren(k, cs, n, s);
      assert r.0[..i] == done.0;
      var before := DeclaredChildren(k, cs[..i], n);
      if Enters(k, i, n, cs[i]) {
        ShadowDeclares(cs[i], Child(k, i), done.1);
        CountAllAppend(s.counts, before, Declared(cs[i]));
      } else {
        assert before + [] == before;
      }
    }
  }

  /**
   * Over a whole program: the `k`-th declarator of base name `x` in walk order
   * keeps `x` when `k` is 0 and is named `x` followed by `k` otherwise.
   */
  lemma DeshadowNamesDeclarations(ast: Node, i: nat)
    requires i < |Declared(ast)|
    ensures |Declared(Deshadow(ast).0)| == |Declared(ast)|
    ensures var x := Declared(ast)[i];
      var k := Occ(Declared(ast)[..i], x);
      Declared(Deshadow(ast).0)[i] == if k == 0 then x else x + NatToString(k)
  {
    ShadowDeclares(ast, Root, Initial);
    NamesForRepeat(map[], Declared(ast), i);
  }

  // ---------------------------------------------------------------------------
  // What the walk leaves alone

  /** Every frame maps only names from `names`. */
  ghost predicate FramesWithin(frames: seq<Frame>, names: set<string>) {
    forall j | 0 <= j < |frames| :: frames[j].Keys <= names
  }

  /**
   * `b` is `a` with possibly some names changed: same length, same slots,
   * and a name outside `names`, or one at a property-key position, unchanged.
   */
  ghost predicate KeepsNames(a: seq<Occurrence>, b: seq<Occurrence>, names: set<string>) {
    && |a| == |b|
    && forall i | 0 <= i < |a| ::
        && b[i].slot == a[i].slot
        && (a[i].name !in names || IsKeyPosition(a[i].slot) ==> b[i].name == a[i].name)
  }

  lemma KeepsNamesAppend(a1: seq<Occurrence>, b1: seq<Occurrence>, a2: seq<Occurrence>, b2: seq<Occurrence>, names: set<string>)
    requires KeepsNames(a1, b1, names) && KeepsNames(a2, b2, names)
    ensures KeepsNames(a1 + a2, b1 + b2, names)
  {
    forall i | 0 <= i < |a1 + a2|
      ensures (b1 + b2)[i].slot == (a1 + a2)[i].slot
      ensures (a1 + a2)[i].name !in names || IsKeyPosition((a1 + a2)[i].slot) ==> (b1 + b2)[i].name == (a1 + a2)[i].name
    {
      if i >= |a1| {
        assert (a1 + a2)[i] == a2[i - |a1|] && (b1 + b2)[i] == b2[i - |a1|];
      }
    }
  }

  /** Node `b` keeps the names of node `a`, both at `slot`. */
  ghost predicate Kept(a: Node, b: Node, slot: Slot, names: set<string>) {
    KeepsNames(Occurrences(a, slot), Occurrences(b, slot), names)
  }

  /** Children that keep names child by child give occurrences that keep names. */
  lemma {:induction false} ChildOccurrencesKeep(k: Kind, a: seq<Node>, b: seq<Node>, slot: Slot, names: set<string>)
    requires |a| == |b|
    requires forall i | 0 <= i < |a| :: Kept(a[i], b[i], Child(k, i), names)
    ensures Kept(Branch(k, a), Branch(k, b), slot, names)
    decreases |a|
  {
    if a != [] {
      var i := |a| - 1;
      assert forall j | 0 <= j < i :: a[..i][j] == a[j] && b[..i][j] == b[j];
      ChildOccurrencesKeep(k, a[..i], b[..i], slot, names);
      assert Kept(a[i], b[i], Child(k, i), names);
      KeepsNamesAppend(ChildOccurrences(k, a[..i]), ChildOccurrences(k, b[..i]),
        Occurrences(a[i], Child(k, i)), Occurrences(b[i], Child(k, i)), names);
    }
  }

  /** Children with equal skeletons give equal skeletons. */
  lemma SkeletonOfChildren(k: Kind, a: seq<Node>, b: seq<Node>)
    requires |a| == |b|
    requires forall i | 0 <= i < |a| :: Skeleton(a[i]) == Skeleton(b[i])
    ensures Skeleton(Branch(k, a)) == Skeleton(Branch(k, b))
  {
  }

  /** The walk changes names only: the tree keeps its shape. */
  lemma {:induction false} ShadowSkeleton(n: Node, slot: Slot, s: Scopes)
    requires |s.frames| >= 1
    ensures Skeleton(Shadow(n, slot, s).0) == Skeleton(n)
    decreases n, 1
  {
    if n.Branch? {
      BranchSkeleton(n.kind, n.children, slot, s);
    }
  }

  lemma {:induction false} BranchSkeleton(k: Kind, cs: seq<Node>, slot: Slot, s: Scopes)
    requires |s.frames| >= 1
    ensures Skeleton(Shadow(Branch(k, cs), slot, s).0) == Skeleton(Branch(k, cs))
    decreases Branch(k, cs), 0
  {
    var inner := Enter(k, s);
    ShadowBranch(k, cs, slot, s);
    var walked := ShadowChildren(k, cs, |cs|, inner);
    ShadowChildrenSkeleton(k, cs, |cs|, inner);
    if k.VariableDeclarator? {
      var d := Declare(walked.0, walked.1);
      assert Shadow(Branch(k, cs), slot, s).0 == Branch(k, d.0);
      SkeletonOfChildren(k, d.0, cs);
    } else {
      assert Shadow(Branch(k, cs), slot, s).0 == Branch(k, walked.0);
      SkeletonOfChildren(k, walked.0, cs);
    }
  }

  lemma {:induction false} ShadowChildrenSkeleton(k: Kind, cs: seq<Node>, n: nat, s: Scopes)
    requires |s.frames| >= 1
    ensures forall i | 0 <= i < |cs| :: Skeleton(ShadowChildren(k, cs, n, s).0[i]) == Skeleton(cs[i])
    decreases cs
  {
    if cs != [] {
      var i := |cs| - 1;
      var done := ShadowChildren(k, cs[..i], n, s);
      ShadowChildrenSkeleton(k, cs[..i], n, s);
      var last := if Enters(k, i, n, cs[i]) then Shadow(cs[i], Child(k, i), done.1).0 else cs[i];
      if Enters(k, i, n, cs[i]) {
        ShadowSkeleton(cs[i], Child(k, i), done.1);
      }
      SkeletonExtend(cs, done.0, last);
    }
  }

  /** Extending children of equal skeletons by one child of equal skeleton. */
  lemma SkeletonExtend(cs: seq<Node>, done: seq<Node>, last: Node)
    requires |cs| == |done| + 1
    requires forall j | 0 <= j < |done| :: Skeleton(done[j]) == Skeleton(cs[..|done|][j])
    requires Skeleton(last) == Skeleton(cs[|done|])
    ensures forall j | 0 <= j < |cs| :: Skeleton((done + [last])[j]) == Skeleton(cs[j])
  {
    forall j | 0 <= j < |cs|
      ensures Skeleton((done + [last])[j]) == Skeleton(cs[j])
    {
      if j < |done| {
        assert cs[..|done|][j] == cs[j];
      }
    }
  }

  /**
   * The walk over `n` changes no name outside `names` (which hold every name
   * `n` declares and every name a frame maps) and no property key; frames
   * keep mapping names from `names` only.
   */
  lemma {:induction false} ShadowKeeps(n: Node, slot: Slot, s: Scopes, names: set<string>)
    requires |s.frames| >= 1 && !IsPlainMethodKey(slot)
    requires FramesWithin(s.frames, names)
    requires forall x | x in Declared(n) :: x in names
    ensures FramesWithin(Shadow(n, slot, s).1.frames, names)
    ensures Kept(n, Shadow(n, slot, s).0, slot, names)
    decreases n, 1
  {
    match n
    case Identifier(x) =>
      var r := Shadow(n, slot, s);
      if Resolves(slot) && x !in names {
        ResolveUnmapped(s.frames, x);
      }
      assert Occurrences(r.0, slot) == [Occurrence(r.0.name, slot)];
    case Branch(k, cs) =>
      BranchKeeps(k, cs, slot, s, names);
  }

  lemma {:induction false} BranchKeeps(k: Kind, cs: seq<Node>, slot: Slot, s: Scopes, names: set<string>)
    requires |s.frames| >= 1
    requires FramesWithin(s.frames, names)
    requires forall x | x in Declared(Branch(k, cs)) :: x in names
    ensures FramesWithin(Shadow(Branch(k, cs), slot, s).1.frames, names)
    ensures Kept(Branch(k, cs), Shadow(Branch(k, cs), slot, s).0, slot, names)
    decreases Branch(k, cs), 0
  {
    var r := Shadow(Branch(k, cs), slot, s);
    var inner := Enter(k, s);
    ShadowBranch(k, cs, slot, s);
    var walked := ShadowChildren(k, cs, |cs|, inner);
    ShadowChildrenKeeps(k, cs, |cs|, inner, names);
    if k.VariableDeclarator? {
      var d := Declare(walked.0, walked.1);
      assert r.0 == Branch(k, d.0) && r.1 == d.1;
      DeclareKeeps(cs, walked.0, walked.1, slot, names);
    } else {
      assert r.0 == Branch(k, walked.0);
      ChildOccurrencesKeep(k, cs, walked.0, slot, names);
      if OpensScope(k) {
        assert r.1.frames == walked.1.frames[..|s.frames|];
      }
    }
  }

  /** The declarator step renames at most the id, whose name is in `names`, and records it in the top frame. */
  lemma DeclareKeeps(cs: seq<Node>, walked: seq<Node>, w: Scopes, slot: Slot, names: set<string>)
    requires |w.frames| >= 1 && |walked| == |cs|
    requires FramesWithin(w.frames, names)
    requires cs != [] ==> walked[0].Identifier? == cs[0].Identifier? && (cs[0].Identifier? ==> walked[0] == cs[0])
    requires cs != [] && cs[0].Identifier? ==> cs[0].name in names
    requires forall i | 0 <= i < |cs| :: Kept(cs[i], walked[i], Child(VariableDeclarator, i), names)
    ensures FramesWithin(Declare(walked, w).1.frames, names)
    ensures Kept(Branch(VariableDeclarator, cs), Branch(VariableDeclarator, Declare(walked, w).0), slot, names)
  {
    var d := Declare(walked, w);
    if cs != [] && cs[0].Identifier? {
      var idSlot := Child(VariableDeclarator, 0);
      assert Occurrences(d.0[0], idSlot) == [Occurrence(d.0[0].name, idSlot)];
      assert Occurrences(cs[0], idSlot) == [Occurrence(cs[0].name, idSlot)];
    }
    assert forall i | 0 <= i < |cs| :: Kept(cs[i], d.0[i], Child(VariableDeclarator, i), names);
    ChildOccurrencesKeep(VariableDeclarator, cs, d.0, slot, names);
  }

  lemma {:induction false} ShadowChildrenKeeps(k: Kind, cs: seq<Node>, n: nat, s: Scopes, names: set<string>)
    requires |s.frames| >= 1
    requires FramesWithin(s.frames, names)
    requires forall x | x in DeclaredChildren(k, cs, n) :: x in names
    ensures FramesWithin(ShadowChildren(k, cs, n, s).1.frames, names)
    ensures forall i | 0 <= i < |cs| :: Kept(cs[i], ShadowChildren(k, cs, n, s).0[i], Child(k, i), names)
    decreases cs
  {
    if cs != [] {
      var i := |cs| - 1;
      var done := ShadowChildren(k, cs[..i], n, s);
      ShadowChildrenKeeps(k, cs[..i], n, s, names);
      var last := if Enters(k, i, n, cs[i]) then Shadow(cs[i], Child(k, i), done.1).0 else cs[i];
      if Enters(k, i, n, cs[i]) {
        ShadowKeeps(cs[i], Child(k, i), done.1, names);
      }
      KeptExtend(k, cs, done.0, last, names);
    }
  }

  /** Extending kept children by one kept child. */
  lemma KeptExtend(k: Kind, cs: seq<Node>, done: seq<Node>, last: Node, names: set<string>)
    requires |cs| == |done| + 1
    requires forall j | 0 <= j < |done| :: Kept(cs[..|done|][j], done[j], Child(k, j), names)
    requires Kept(cs[|done|], last, Child(k, |done|), names)
    ensures forall j | 0 <= j < |cs| :: Kept(cs[j], (done + [last])[j], Child(k, j), names)
  {
    forall j | 0 <= j < |cs|
      ensures Kept(cs[j], (done + [last])[j], Child(k, j), names)
    {
      if j < |done| {
        assert cs[..|done|][j] == cs[j];
      }
    }
  }

  /**
   * Over a whole program: an identifier whose name no declarator declares,
   * and every property key, keeps its name; only names change.
   */
  lemma DeshadowKeepsUndeclared(ast: Node)
    ensures KeepsNames(Occurrences(ast, Root), Occurrences(Deshadow(ast).0, Root), set x | x in Declared(ast))
    ensures Skeleton(Deshadow(ast).0) == Skeleton(ast)
  {
    ShadowKeeps(ast, Root, Initial, set x | x in Declared(ast));
    ShadowSkeleton(ast, Root, Initial);
  }

  /**
   * A name in a pattern slot (an assignment target such as `x` in `x = 3`,
   * a catch parameter, a label, ...) comes out of the walk unchanged,
   * whatever the frames map it to.
   */
  lemma {:induction false} PatternNamesKept(k: Kind, cs: seq<Node>, slot: Slot, s: Scopes, i: nat)
    requires |s.frames| >= 1 && i < |cs| && cs[i].Identifier? && IsPatternName(Child(k, i))
    ensures Shadow(Branch(k, cs), slot, s).0 == Branch(k, Shadow(Branch(k, cs), slot, s).0.children)
    ensures Shadow(Branch(k, cs), slot, s).0.children[i] == cs[i]
  {
    ShadowBranch(k, cs, slot, s);
    ShadowChildrenAt(k, cs, |cs|, Enter(k, s), i);
    ShadowChildrenStep(k, cs, i, |cs|, Enter(k, s));
  }

  /**
   * A computed method key (`[x]() {}`) is entered and resolved like any
   * other reference, while a plain method key (`x() {}`) is not entered.
   */
  lemma ComputedMethodKeyResolved(x: string, s: Scopes)
    requires |s.frames| >= 1
    ensures Enters(MethodDefinition(true), 0, 2, Identifier(x))
    ensures Shadow(Identifier(x), Child(MethodDefinition(true), 0), s).0 == Identifier(Resolve(s.frames, x))
    ensures !Enters(MethodDefinition(false), 0, 2, Identifier(x))
  {
  }

  /**
   * A destructuring parameter or declarator id (`function f(a = x)`,
   * `const {a = x} = o`) is entered: the default `x` is resolved while the
   * bound name `a` is left alone.
   */
  lemma PatternDefaultsResolved(a: string, x: string, s: Scopes)
    requires |s.frames| >= 1
    ensures var param := Branch(Other("AssignmentPattern"), [Identifier(a), Identifier(x)]);
      && Enters(FunctionDeclaration, 1, 3, param)
      && Enters(VariableDeclarator, 0, 2, Branch(Other("ObjectPattern"), [Branch(Property(true, false, true), [Identifier(a), param])]))
    ensures Shadow(Identifier(a), Child(Other("AssignmentPattern"), 0), s).0 == Identifier(a)
    ensures Shadow(Identifier(x), Child(Other("AssignmentPattern"), 1), s).0 == Identifier(Resolve(s.frames, x))
    ensures Shadow(Identifier(a), Child(Property(true, false, true), 0), s).0 == Identifier(a)
  {
  }

  /**
   * In an object pattern, a computed key (`{[k]: v} = o`) is resolved, while
   * a plain key and the bound name are left alone.
   */
  lemma PatternComputedKeyResolved(k: string, v: string, s: Scopes)
    requires |s.frames| >= 1
    ensures Shadow(Identifier(k), Child(Property(false, true, true), 0), s).0 == Identifier(Resolve(s.frames, k))
    ensures Shadow(Identifier(v), Child(Property(false, true, true), 1), s).0 == Identifier(v)
    ensures Shadow(Identifier(k), Child(Property(false, false, true), 0), s).0 == Identifier(k)
  {
  }

  /** Child `i` of the walk over `cs` is the walk over `cs[i]` from the state the earlier children leave. */
  lemma {:induction false} ShadowChildrenAt(k: Kind, cs: seq<Node>, n: nat, s: Scopes, i: nat)
    requires |s.frames| >= 1 && i < |cs|
    ensures ShadowChildren(k, cs, n, s).0[i] == ShadowChildren(k, cs[..i + 1], n, s).0[i]
    decreases |cs|
  {
    var j := |cs| - 1;
    if i < j {
      var done := ShadowChildren(k, cs[..j], n, s);
      assert ShadowChildren(k, cs, n, s).0[..j] == done.0;
      ShadowChildrenAt(k, cs[..j], n, s, i);
      assert cs[..j][..i + 1] == cs[..i + 1];
    } else {
      assert cs[..i + 1] == cs;
    }
  }

  // ---------------------------------------------------------------------------
  // Destructuring declarators

  /**
   * As written, two destructuring declarators in one scope (`const {a} = o;
   * const {b} = p;`) make the frame map "undefined" to "undefined1", so a
   * later reference to the global `undefined` is rewritten.
   */
  lemma DestructuringRenamesUndefined()
    ensures var pattern := [Branch(Other("ObjectPattern"), [])];
      var s1 := DeclareAsWritten(pattern, Initial).1;
      var s2 := DeclareAsWritten(pattern, s1).1;
      Resolve(s2.frames, "undefined") == "undefined1"
  {
    var pattern := [Branch(Other("ObjectPattern"), [])];
    var s1 := DeclareAsWritten(pattern, Initial).1;
    assert s1.counts == map["undefined" := 0];
    var s2 := DeclareAsWritten(pattern, s1).1;
    assert NatToString(1) == "1";
    assert |s2.frames| == 1 && Maps(s2.frames[0], "undefined");
    assert s2.frames[0]["undefined"].value == "undefined1";
  }

  /** Handled as intended, a declarator whose id is not an identifier changes neither the tree nor the state. */
  lemma DestructuringDeclaresNothing(cs: seq<Node>, s: Scopes)
    requires |s.frames| >= 1
    requires cs != [] && !cs[0].Identifier?
    ensures Declare(cs, s) == (cs, s)
    ensures Declared(Branch(VariableDeclarator, cs)) == DeclaredChildren(VariableDeclarator, cs, |cs|)
  {
    assert DeclaredChildren(VariableDeclarator, cs, |cs|) + [] == DeclaredChildren(VariableDeclarator, cs, |cs|);
  }

  // ---------------------------------------------------------------------------
  // The walk as the script runs it: one object updated in place

  /** The mutable state of `solveShadowing`: `globalNameCounts` and `scopeStack`. */
  class Shadower {
    var counts: map<string, nat>
    var frames: seq<Frame>

    function State(): Scopes
      reads this
    {
      Scopes(counts, frames)
    }

    /** The state index.js:10-11 start from. */
    constructor ()
      ensures State() == Initial
    {
      counts := map[];
      frames := [map[]];
    }

    /** The lookup loop of index.js:57-62, innermost frame first. */
    method LookUp(x: string) returns (y: string)
      ensures y == Resolve(frames, x)
    {
      var i := |frames|;
      y := x;
      assert frames[..i] == frames;
      while i > 0
        invariant 0 <= i <= |frames|
        invariant Resolve(frames, x) == Resolve(frames[..i], x)
        decreases i
      {
        assert frames[..i][..i - 1] == frames[..i - 1];
        if Maps(frames[i - 1], x) {
          y := frames[i - 1][x].value;
          return;
        }
        i := i - 1;
      }
    }

    /** The `VariableDeclarator` handler (index.js:23-39) on the declarator's children. */
    method HandleDeclarator(cs: seq<Node>) returns (r: seq<Node>)
      requires |frames| >= 1
      modifies this
      ensures (r, State()) == Declare(cs, old(State()))
    {
      r := cs;
      if cs != [] && cs[0].Identifier? {
        var name := cs[0].name;
        var top := |frames| - 1;
        if name in counts {
          var c := counts[name] + 1;
          var newName := name + NatToString(c);
          counts := counts[name := c];
          frames := frames[top := frames[top][name := Some(newName)]];
          r := cs[0 := Identifier(newName)];
        } else {
          counts := counts[name := 0];
          frames := frames[top := frames[top][name := Some(name)]];
        }
      }
    }

    /**
     * The walk over `n` at `slot`: the handlers of index.js:13-70 run in
     * walk order, updating the counters and the scope stack in place.
     */
    method Walk(n: Node, slot: Slot) returns (r: Node)
      requires |frames| >= 1
      modifies this
      ensures (r, State()) == Shadow(n, slot, old(State()))
      decreases n, 1
    {
      match n
      case Identifier(x) =>
        if Resolves(slot) {
          var y := LookUp(x);
          r := Identifier(y);
        } else {
          r := n;
        }
      case Branch(k, cs) =>
        ShadowBranch(k, cs, slot, State());
        if OpensScope(k) {
          frames := frames + [map[]];
        }
        var done := WalkChildren(k, cs);
        if OpensScope(k) {
          frames := frames[..|frames| - 1];
        }
        if k.VariableDeclarator? {
          done := HandleDeclarator(done);
        }
        r := Branch(k, done);
    }

    /** The walk over the children of a `k` node, left to right, skipping the slots it does not enter. */
    method WalkChildren(k: Kind, cs: seq<Node>) returns (done: seq<Node>)
      requires |frames| >= 1
      modifies this
      ensures (done, State()) == ShadowChildren(k, cs, |cs|, old(State()))
      decreases Branch(k, cs), 0
    {
      ghost var start := State();
      done := [];
      var i := 0;
      while i < |cs|
        invariant 0 <= i <= |cs|
        invariant |frames| >= 1
        invariant (done, State()) == ShadowChildren(k, cs[..i], |cs|, start)
        decreases |cs| - i
      {
        ShadowChildrenStep(k, cs, i, |cs|, start);
        ghost var next := ShadowChildren(k, cs[..i + 1], |cs|, start);
        if Enters(k, i, |cs|, cs[i]) {
          var c := Walk(cs[i], Child(k, i));
          done := done + [c];
        } else {
          done := done + [cs[i]];
        }
        assert (done, State()) == next;
        i := i + 1;
      }
      assert cs[..i] == cs;
    }
  }

  /** One more child of the walk over the children, as an equation. */
  lemma ShadowChildrenStep(k: Kind, cs: seq<Node>, i: nat, n: nat, s: Scopes)
    requires i < |cs| && |s.frames| >= 1
    ensures var done := ShadowChildren(k, cs[..i], n, s);
      ShadowChildren(k, cs[..i + 1], n, s) ==
        if Enters(k, i, n, cs[i]) then
          (done.0 + [Shadow(cs[i], Child(k, i), done.1).0], Shadow(cs[i], Child(k, i), done.1).1)
        else (done.0 + [cs[i]], done.1)
  {
    assert cs[..i + 1][..i] == cs[..i];
  }

  /** `solveShadowing` on a whole program: a fresh state and one walk from the root. */
  method SolveShadowing(ast: Node) returns (r: Node)
    ensures r == Deshadow(ast).0
  {
    var w := new Shadower();
    r := w.Walk(ast, Root);
  }
}
