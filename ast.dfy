/**
 * The part of an ESTree syntax tree (as acorn builds it) that the renamer
 * inspects. A node is an `Identifier` or a branch whose children appear in
 * the order of the node's own keys, which is the order both walks visit:
 *   - MemberExpression: [object, property]
 *   - Property, MethodDefinition: [key, value]; `inPattern` marks a
 *     property of an object pattern (`({a: x} = o)`), which acorn also
 *     types `Property`; `computed` marks a key in brackets (`[k]`)
 *   - VariableDeclarator: [id] or [id, init]
 *   - FunctionDeclaration, FunctionExpression, ArrowFunctionExpression:
 *     [id (when named), params..., body]
 *   - any other node: its child nodes, arrays flattened in order.
 * A node's parent is passed down explicitly as a `Slot`: the parent's kind and
 * the child's position in it.
 */
module Ast {

  datatype Kind =
    | FunctionDeclaration
    | FunctionExpression
    | ArrowFunctionExpression
    | BlockStatement
    | VariableDeclarator
    | MemberExpression(computed: bool)
    | Property(shorthand: bool, computed: bool, inPattern: bool)
    | MethodDefinition(computed: bool)
    | Other(nodeType: string)

  datatype Node =
    | Identifier(name: string)
    | Branch(kind: Kind, children: seq<Node>)

  /** Where a node sits: at the root (no parent) or as child `index` of a `parent` node. */
  datatype Slot = Root | Child(parent: Kind, index: nat)

  predicate IsFunction(k: Kind) {
    k.FunctionDeclaration? || k.FunctionExpression? || k.ArrowFunctionExpression?
  }

  /** The node types whose handlers push and pop a frame (index.js:16, index.js:67). */
  predicate OpensScope(k: Kind) {
    IsFunction(k) || k.BlockStatement?
  }

  /** `parent.type === 'MemberExpression' && parent.property === node && !parent.computed` */
  predicate IsMemberProperty(s: Slot) {
    s.Child? && s.parent.MemberExpression? && !s.parent.computed && s.index == 1
  }

  /** `parent.type === 'Property' && parent.key === node && !parent.shorthand` */
  predicate IsObjectKey(s: Slot) {
    s.Child? && s.parent.Property? && !s.parent.shorthand && s.index == 0
  }

  /** `parent.type === 'MethodDefinition' && parent.key === node` */
  predicate IsMethodKey(s: Slot) {
    s.Child? && s.parent.MethodDefinition? && s.index == 0
  }

  /** `parent.type === 'VariableDeclarator' && parent.id === node` */
  predicate IsDeclaratorId(s: Slot) {
    s.Child? && s.parent.VariableDeclarator? && s.index == 0
  }

  /** A method key written as a name, `m() {}` rather than `[m]() {}`. */
  predicate IsPlainMethodKey(s: Slot) {
    IsMethodKey(s) && !s.parent.computed
  }

  /**
   * The computed key of an object-pattern property, `k` in `({[k]: v} = o)`.
   * acorn-walk visits it straight from the pattern, without visiting the
   * property, so to the deshadowing walk it is an ordinary reference.
   */
  predicate IsPatternComputedKey(s: Slot) {
    s.Child? && s.parent.Property? && s.parent.computed && s.parent.inPattern && s.index == 0
  }

  /** Property-key positions: names that denote properties, never bindings. */
  predicate IsKeyPosition(s: Slot) {
    IsMemberProperty(s) || (IsObjectKey(s) && !IsPatternComputedKey(s)) || IsPlainMethodKey(s)
  }

  /** `isSafeToRename` of index.js:181. */
  predicate IsRenamable(s: Slot) {
    !IsMemberProperty(s) && !IsObjectKey(s) && !IsMethodKey(s)
  }

  /** The guard `!isProperty && !isObjectKey && !isDeclaration` of index.js:55. */
  predicate IsReference(s: Slot) {
    !IsMemberProperty(s) && !IsObjectKey(s) && !IsDeclaratorId(s)
  }

  // ---------------------------------------------------------------------------
  // Identifier occurrences in visiting order

  /** One Identifier node: its name and where it sits. */
  datatype Occurrence = Occurrence(name: string, slot: Slot)

  /** The Identifier nodes of `n`, in the depth-first, left-to-right order of both walks. */
  function Occurrences(n: Node, slot: Slot): seq<Occurrence>
    decreases n
  {
    match n
    case Identifier(x) => [Occurrence(x, slot)]
    case Branch(k, cs) => ChildOccurrences(k, cs)
  }

  /** The occurrences under the children `cs` of a `k` node, child `i` at slot `Child(k, i)`. */
  function ChildOccurrences(k: Kind, cs: seq<Node>): seq<Occurrence>
    decreases cs
  {
    if cs == [] then []
    else ChildOccurrences(k, cs[..|cs| - 1]) + Occurrences(cs[|cs| - 1], Child(k, |cs| - 1))
  }

  /** The tree with every name blanked: two trees with one skeleton differ only in names. */
  function Skeleton(n: Node): Node
    decreases n
  {
    match n
    case Identifier(_) => Identifier("")
    case Branch(k, cs) => Branch(k, seq(|cs|, i requires 0 <= i < |cs| => Skeleton(cs[i])))
  }

  /** How many of `occs` are named `x`. */
  function CountNamed(occs: seq<Occurrence>, x: string): nat
  {
    if occs == [] then 0
    else CountNamed(occs[..|occs| - 1], x) + (if occs[|occs| - 1].name == x then 1 else 0)
  }

  lemma {:induction false} CountNamedAppend(a: seq<Occurrence>, b: seq<Occurrence>, x: string)
    ensures CountNamed(a + b, x) == CountNamed(a, x) + CountNamed(b, x)
    decreases |b|
  {
    if b != [] {
      assert (a + b)[..|a + b| - 1] == a + b[..|b| - 1];
      CountNamedAppend(a, b[..|b| - 1], x);
    } else {
      assert a + b == a;
    }
  }

  // ---------------------------------------------------------------------------
  // countNames (index.js:111-126)

  /** The number of Identifier nodes named `name` in `node`, as the recursive sum of index.js:111-126. */
  function CountNames(node: Node, name: string): nat
    decreases node
  {
    match node
    case Identifier(x) => if x == name then 1 else 0
    case Branch(_, cs) => SumCountNames(cs, name)
  }

  function SumCountNames(cs: seq<Node>, name: string): nat
    decreases cs
  {
    if cs == [] then 0 else SumCountNames(cs[..|cs| - 1], name) + CountNames(cs[|cs| - 1], name)
  }

  /** `countNames` counts exactly the occurrences with that name, wherever they sit. */
  lemma {:induction false} CountNamesCountsOccurrences(node: Node, slot: Slot, name: string)
    ensures CountNames(node, name) == CountNamed(Occurrences(node, slot), name)
    decreases node
  {
    match node
    case Identifier(x) =>
      assert Occurrences(node, slot)[..0] == [];
    case Branch(k, cs) =>
      SumCountNamesCountsOccurrences(k, cs, name);
  }

  lemma {:induction false} SumCountNamesCountsOccurrences(k: Kind, cs: seq<Node>, name: string)
    ensures SumCountNames(cs, name) == CountNamed(ChildOccurrences(k, cs), name)
    decreases cs
  {
    if cs != [] {
      var init := cs[..|cs| - 1];
      SumCountNamesCountsOccurrences(k, init, name);
      CountNamesCountsOccurrences(cs[|cs| - 1], Child(k, |cs| - 1), name);
      CountNamedAppend(ChildOccurrences(k, init), Occurrences(cs[|cs| - 1], Child(k, |cs| - 1)), name);
    }
  }
}
