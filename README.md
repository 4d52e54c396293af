# demystify renaming engine, modelled in Dafny

`index.js` is a heuristic JavaScript unminifier. It parses the minified
program and first undoes shadowing: every repeated variable declaration gets
a numbered name, and references follow the innermost scope that maps them.
Then it runs three rounds that mine the printed code for declarations of the
form `let a = someLongName`. Each round renames every short name that such a
declaration binds unambiguously to `someLongName$a`. Every rename call walks
the whole tree. Along the way it also records, for each short name, which
meaningful name was seen last before each of its occurrences. At the end
each short name is renamed after the labels that preceded it most often.

The project models that engine:

- `wrappers.dfy`: `Option` for `undefined`/`null`, and `Result` for the
  exceptions that abort the script.
- `text.dfy`: the character classes, `\s`, `trim`, ASCII case mapping,
  decimal numerals, and `split`/`join` on one character.
- `ast.dfy`: the part of an ESTree tree the renamer inspects.
  - A node is an identifier or a typed branch whose children come in key order.
  - The parent is passed down as a slot.
  - Also here: the identifier occurrences in walk order, the tree's skeleton,
    and `countNames`.
- `shadowing.dfy`: `solveShadowing`.
  - Two forms: the walk as a function over an explicit scope state, and a
    `Shadower` class whose methods update the counters and the frame stack in
    place.
  - It also holds the lemmas about the declaration counter, the lookup, the
    frames and what the walk keeps.
- `pairs.dfy`: two modules.
  - `Pairs`: from regular-expression matches to (name, value) pairs, with the
    unambiguity filter, the value filter and camel-casing.
  - `Replacers`: the replacer map and the new names.
- `histogram.dfy`: `shortNames`, one row per short name and one tally per
  label, both in insertion order.
- `rename.dfy`: `renameIdentifier`.
  - The renamed tree, and the profile (`shortNames`, `lastName`) advanced
    over the renamed occurrences.
  - A `Session` class runs the same recursion in place on the module-level
    state.
- `labels.dfy`: `getLongNames`, as a specification and as the nested loops
  of the source, plus the final rename map.
- `driver.dfy`: the script itself.
  - Unshadowing, three rounds, the final rename.
  - The properties that hold over a whole run.

Walk order follows acorn's key order. A `VariableDeclarator` visits `[id, init]`,
a `MemberExpression` `[object, property]`, a `Property` or `MethodDefinition`
`[key, value]`, and a function `[id, params..., body]`. For `solveShadowing`
the model takes the behaviour the handlers' comments describe:

- A frame is pushed on entering a function or block and popped on leaving it.
- The declarator handler runs after the declarator's initialiser has been walked.
- The `Identifier` handler sees only the names acorn-walk visits as
  expressions. It never sees a name in a pattern position: a function's name
  or parameters, a declarator's id, an assignment target, a catch parameter,
  a class declaration's name, or a name inside an array or object pattern.
  Nor does it see a label or a method key that is not computed.
- Defaults and computed keys inside patterns are expressions, and the handler
  sees them, as it sees a computed method key (`[m]() {}`). acorn-walk visits
  the computed key of an object pattern (`{[k]: v} = o`) straight from the
  pattern, so the guard's `isObjectKey` test does not apply and `k` is
  resolved. So does a bare
  name on the left of `for...in`/`for...of`: acorn-walk visits a left side
  that is not a declaration as an expression.

## Model

| member | source | states |
|---|---|---|
| Text.ToUpper | index.js:101 | an ASCII lower-case letter maps to its upper-case letter (code point minus 32); every other character is unchanged |
| Text.ToLowerChangesIffUpper | index.js:324 | `x != x.toLowerCase()` holds exactly when `x` contains an A-Z letter |
| Text.IsShortMatchesPattern | index.js:146 | `isShort` agrees with `/^[A-Za-z0-9$_]{1,2}[0-9_]*$/` read as a split into a one-or-two-character head and a digits/underscore tail |
| Text.OneOrTwoCharsAreShort | index.js:146 | every name of one or two characters from `[A-Za-z0-9$_]` is short |
| Text.NatToString | index.js:30 | the counter printed by the template string is a non-empty run of decimal digits |
| Text.NatToStringRoundTrip | index.js:30 | reading the printed counter back gives the counter |
| Text.NatToStringInjective | index.js:30 | different counters print differently |
| Text.Split | index.js:88 | `split` gives at least one part, no part holds the separator, and joining the parts gives the string back |
| Text.SplitJoin | index.js:341 | splitting the join of separator-free parts gives the parts back |
| Text.SplitFindsSep | index.js:88 | a string splits into two or more parts exactly when it holds the separator |
| Text.TrimEnd | index.js:89 | trimming the end removes exactly the trailing whitespace: the result is a prefix, ends in a non-space, and only whitespace was cut |
| Text.LastToken | index.js:89 | `trim().split(/\s+/).pop()` is a whitespace-free slice that ends where the trimmed string ends and starts after whitespace or at the start |
| Text.LastTokenAfterSpace | index.js:89 | a token preceded by whitespace and followed only by whitespace is the one `pop()` returns |
| Ast.CountNamesCountsOccurrences | index.js:111-126 | `countNames` counts exactly the identifier occurrences with that name, in any position |
| Ast.CountNamedAppend | index.js:111-126 | the count over two occurrence lists is the sum of their counts, which is the `count +=` accumulation |
| Shadowing.ResolveInnermost | index.js:57-62 | a reference takes the mapping of the innermost frame that maps it; outer frames are not consulted |
| Shadowing.ResolveUnmapped | index.js:57-62 | with no frame mapping it, a reference keeps its name |
| Shadowing.Declare | index.js:23-39 | a declarator with an identifier id gets the counter's name for it, the counter advances, and only the top frame changes; a non-identifier id changes nothing |
| Shadowing.Shadow | index.js:13-70 | the walk keeps the stack height, leaves every frame but the top untouched, and a function or block leaves the stack exactly as it found it |
| Shadowing.ShadowChildren | index.js:13-70 | walking children keeps their number, keeps every slot the walk does not enter, and writes only the top frame |
| Shadowing.Deshadow | index.js:9-73 | after the whole walk the stack is back to its single root frame |
| Shadowing.CountAllValue | index.js:28-38 | counter in closed form: a new name starts at 0 and gains one per later declaration, so counters never decrease |
| Shadowing.CountAllAppend | index.js:28-38 | declaring two runs of names in sequence is running the counter over one run and then the other |
| Shadowing.NamesForRepeat | index.js:28-38 | the `k`-th repeat of a base name receives `name` followed by the counter |
| Shadowing.RepeatsGetDistinctNames | index.js:28-38 | two declarators of the same base name never receive the same name |
| Shadowing.RepeatNamesDiffer | index.js:30 | different repeat numbers give different names |
| Shadowing.SuffixesDiffer | index.js:30 | one base name with two different counters gives two different names |
| Shadowing.ShadowDeclares | index.js:23-39 | the walk's counters are the counter run over the declared names in walk order, and the declarators carry the names it assigns |
| Shadowing.DeshadowNamesDeclarations | index.js:28-38 | across a whole program the first declarator of a base name keeps it and the `k`-th repeat is named `name` + `k`, in any scope |
| Shadowing.ShadowSkeleton | index.js:9-73 | the walk changes names only; the tree keeps its shape |
| Shadowing.ShadowKeeps | index.js:43-63 | the walk changes no name outside the declared and mapped names, and no property key; frames map only declared names |
| Shadowing.DeshadowKeepsUndeclared | index.js:43-63 | over a whole program an identifier no declarator declares keeps its name, and so does every member property and every object key other than a computed key of an object pattern |
| Shadowing.PatternNamesKept | index.js:42-63 | a name acorn-walk visits as a pattern or not at all (an assignment target, a catch parameter, a label, a name in a destructuring pattern) leaves the walk unchanged, whatever the frames map it to |
| Shadowing.ComputedMethodKeyResolved | index.js:42-63 | a computed method key is resolved through the frames like any reference; a plain method key is not visited |
| Shadowing.PatternDefaultsResolved | index.js:42-63 | in a destructuring parameter or declarator id, the default value is resolved and the bound name is not |
| Shadowing.PatternComputedKeyResolved | index.js:42-63 | in an object pattern a computed key is resolved through the frames, while a plain key and the bound name are kept |
| Shadowing.DestructuringRenamesUndefined | index.js:24-32 | as written, two destructuring declarators make the frame map "undefined" to "undefined1", so the global `undefined` is rewritten |
| Shadowing.DestructuringDeclaresNothing | index.js:23-39 | handled as intended, a declarator with a pattern id changes neither the tree nor the state |
| Shadowing.Shadower.constructor | index.js:10-11 | the walk starts with no counters and one empty frame |
| Shadowing.Shadower.LookUp | index.js:57-62 | the lookup loop from the innermost frame returns the resolved name |
| Shadowing.Shadower.HandleDeclarator | index.js:23-39 | the handler updates the counters, the top frame and the id in place exactly as `Declare` says |
| Shadowing.Shadower.Walk | index.js:13-70 | the in-place walk produces the tree and state that `Shadow` specifies |
| Shadowing.Shadower.WalkChildren | index.js:13-70 | the in-place walk over the children produces what `ShadowChildren` specifies |
| Shadowing.SolveShadowing | index.js:9-73 | `solveShadowing` returns the tree `Deshadow` specifies |
| Pairs.RemoveQuotes | index.js:87 | the result holds no quote and is no longer than the input |
| Pairs.RemoveQuotesAppend | index.js:87 | removing quotes works character by character: it distributes over concatenation |
| Pairs.RemoveQuotesKeepsQuoteFree | index.js:87 | a quote-free string is left as it is |
| Pairs.RemoveQuotesChangesIffQuoted | index.js:87 | removing quotes changes a string exactly when it holds a quote |
| Pairs.Mine | index.js:86-89 | the mined name and value are whitespace-free, and the value is missing exactly when the unquoted match has no `=` |
| Pairs.MineMatch | index.js:83-89 | any string of the shape the pattern of line 83 matches is mined back into exactly its name and value |
| Pairs.FindIndexIsFirst | index.js:93 | `findIndex` returns the first index with the name, and -1 only when there is none |
| Pairs.FindLastIndexIsLast | index.js:93 | `findLastIndex` returns the last index with the name, and -1 only when there is none |
| Pairs.FirstIsLastIffUnique | index.js:93 | first index equals last index exactly when no other match has that name |
| Pairs.KeepUnambiguousKeepsUnique | index.js:91-94 | a mined pair survives the filter exactly when its name is the name of no other match |
| Pairs.KeepUnambiguousFromInput | index.js:91-94 | every survivor is a mined pair |
| Pairs.KeepUnambiguousNamesDistinct | index.js:91-94 | the survivors' names are distinct |
| Pairs.KeptIndicesIncrease | index.js:91-94 | the filter keeps the survivors in their input order |
| Pairs.MineAll | index.js:85-90 | one mined pair per match, in order |
| Pairs.GetPairs | index.js:80-96 | `getPairs` throws exactly when there is no match, and otherwise returns at most one pair per match |
| Pairs.GetPairsKeepsUnambiguous | index.js:80-96 | on a non-empty match list, a match's pair is kept exactly when its name is unique; kept pairs were mined and have distinct names |
| Pairs.Prune | index.js:97-99 | the filter throws exactly when some pair has no value; otherwise a pair survives exactly when its value is neither `function` nor has `.` second |
| Pairs.PruneKeepsNamesDistinct | index.js:97-99 | distinct names stay distinct through the value filter |
| Pairs.CamelCaseWithoutDots | index.js:101 | a value without `.` is unchanged |
| Pairs.CamelCaseDotFreePrefix | index.js:101 | a dot-free prefix passes through unchanged |
| Pairs.CamelCaseDotStep | index.js:101 | `.` followed by a segment: the dot goes and the segment's first character is upper-cased |
| Pairs.CamelCaseDottedPath | index.js:101 | a dotted path of non-empty segments becomes the first segment followed by the others capitalized (`foo.bar.baz` to `fooBarBaz`) |
| Replacers.CamelCaseValues | index.js:100-102 | every value is camel-cased; names and order are kept |
| Replacers.Candidates | index.js:80-102 | a round throws exactly when there is no match or a surviving pair has no value |
| Replacers.FromEntries | index.js:104 | every pair's name is a key, and every key maps to the value of some pair with that name |
| Replacers.FromEntriesDistinct | index.js:104 | with distinct names each name maps to its own pair's value, so iterating the map visits the pairs |
| Replacers.NewName | index.js:276 | the new name is the value, then `$`, then the name |
| Replacers.NewNameInjective | index.js:276 | with `$`-free values, different pairs get different new names |
| Replacers.CandidatesNamesDistinct | index.js:91-104 | the replacer keys of a successful round are distinct |
| Replacers.CandidateOrigin | index.js:80-102 | each candidate comes from the only match that mines its name, with a value the filter accepts, camel-cased |
| Histograms.BumpTalliesCount | index.js:195-196 | bumping a label raises its tally by exactly one and leaves every other tally alone |
| Histograms.BumpCount | index.js:194-196 | `shortNames[name][label]` rises by exactly one and every other count is unchanged |
| Histograms.BumpTalliesLabels | index.js:195 | existing labels keep their order and a new label is appended |
| Histograms.BumpNames | index.js:194 | existing rows keep their order and a new name is appended |
| Histograms.BumpTotal | index.js:194-196 | every bump records exactly one visit |
| Histograms.BumpRows | index.js:194-196 | each row after a bump is either the row that was there or the named row with the label's tally bumped |
| Histograms.BumpKeepsOtherRows | index.js:194-196 | every row named other than the bumped name is unchanged, at the same index |
| Histograms.BumpWellFormed | index.js:194-196 | a bump keeps one row per name, one tally per label, and only positive counts |
| Rename.RenamedOccurrences | index.js:162-186 | after a call the identifiers are those of the input, in the same order and slots; exactly the safe ones named `oldName` carry `newName` |
| Rename.RenamedSkeleton | index.js:156-228 | renaming keeps the tree's shape and node types |
| Rename.RenameWithoutOldName | index.js:184 | with `oldName` null or empty nothing is renamed |
| Rename.RenameCounts | index.js:184-186 | renaming `x` to a different `y` leaves only the key-position `x`; `y` gains every other `x` |
| Rename.RenameAllCounts | index.js:184-186 | the same counts over an occurrence list |
| Rename.ObserveCounts | index.js:189-197 | a meaningful name becomes `lastName`; otherwise, in a safe position, the count under the current label rises by exactly one and nothing else changes |
| Rename.ObserveAllLastName | index.js:189-190 | after a run of visits `lastName` is the last meaningful name seen, or the old one when there is none |
| Rename.ObserveAllTotal | index.js:192-197 | the histogram gains one count per tracked occurrence, whatever the labels |
| Rename.ObserveAllAppend | index.js:203-227 | visiting two runs of occurrences is visiting one and then the other |
| Rename.ObserveKeepsSane | index.js:189-197 | every visit keeps the histogram well-formed, its rows non-meaningful names and its labels meaningful or `undefined` |
| Rename.ObserveAllKeepsSane | index.js:189-197 | so does every run of visits |
| Rename.Session.constructor | index.js:127-128 | the histogram starts empty and `lastName` unset |
| Rename.Session.RenameIdentifier | index.js:156-228 | the in-place call returns the renamed tree and advances `shortNames`/`lastName` over its occurrences in walk order |
| Rename.Session.RenameChildren | index.js:203-227 | the recursion loop renames the children in key order and advances the profile over them |
| Labels.FilterOrder | index.js:324 | a filter's survivors pass it and are input elements in input order |
| Labels.FilterKeeps | index.js:324 | every element that passes a filter survives it |
| Labels.MaxCountIsMax | index.js:309-316 | the running maximum bounds every count and is attained in a non-empty row |
| Labels.KeysAtCountOrder | index.js:318-322 | the pushed labels have count `x` and come in row order |
| Labels.KeysAtCountKeeps | index.js:318-322 | every label with count `x` is pushed |
| Labels.MaxLengthIsMax | index.js:326 | `Math.max` of the lengths bounds every length and is attained in a non-empty list |
| Labels.StepsKeepOne | index.js:323-333 | none of the three filters empties a non-empty list |
| Labels.FiltersKeepOrder | index.js:323-333 | the three filters keep a non-empty sub-list of a non-empty list, in order |
| Labels.ChooseFromMax | index.js:309-333 | the chosen labels of a non-empty row are non-empty, in row order, and each has the row's maximum count |
| Labels.ChooseCased | index.js:323-325 | if a maximum-count label has an A-Z letter, every chosen label has one |
| Labels.ChooseLongest | index.js:326-327 | all chosen labels share the greatest length among the labels the case rule kept |
| Labels.ChooseDollar | index.js:328-333 | with more than one longest label and one lacking `$`, no chosen label has `$`; several chosen labels either all have `$` or none does |
| Labels.LongNames | index.js:306-336 | one entry per row |
| Labels.LongNamesAt | index.js:306-336 | entry `i` is row `i`'s name with the labels chosen from its tallies |
| Labels.GetLongNames | index.js:306-336 | the nested loops compute `LongNames` |
| Labels.ChooseRow | index.js:309-333 | the body of the outer loop computes the choice for one row |
| Labels.MaxOf | index.js:309-316 | the first inner loop computes the running maximum |
| Labels.PushAtCount | index.js:317-322 | the second inner loop pushes exactly the labels at that count, in order |
| Labels.FinalNameSplits | index.js:341 | the final name ends in `$` and the short name, and the part before splits on `$` back into the chosen labels when none holds a `$` |
| Driver.RenamesKeepKeys | index.js:275-303 | any run of top-level rename calls keeps the tree's shape, slots and property keys |
| Driver.RoundKeepsKeys | index.js:275-277 | a successful round keeps the tree's shape, slots and property keys |
| Driver.UnminifyKeepsKeys | index.js:79-342 | a finished run keeps the input's shape, every member property, every object key other than a computed key of an object pattern, and every non-computed method key; only variable names change |
| Driver.RenamesKeepSane | index.js:275-303 | any run of top-level calls keeps the profile sane |
| Driver.RoundsKeepSane | index.js:275-303 | after three rounds the histogram is well-formed, its rows are short names or `notNames` words, and its labels are meaningful or `undefined` |
| Driver.FinalStepsFromProfile | index.js:338-342 | the final rename targets one row's short name per step, and every label in the new name is meaningful or `undefined` and has that row's maximum count |
| Driver.NoCandidatesNoRenames | index.js:275-303 | when no round finds a candidate, the histogram stays empty and the run prints the unshadowed tree |
| Driver.RunRound | index.js:279-290 | one round as the script runs it: a failure exactly when `Round` fails, otherwise the tree and profile `Round` gives |
| Driver.RenameReplacers | index.js:287-290 | building `replacers` and renaming each key to `replacers[key]$key` in key order is the pair steps in pair order |
| Driver.RunFinal | index.js:340-342 | the final loop performs the choice steps in row order |
| Driver.Run | index.js:275-342 | the script from the unshadowed tree (index.js:79, 106) to the final rename produces `Unminify` |

## Left out

- Reading `target.js`, writing `result.js` and `console.log` (index.js:75-79, 103, 339, 354) are I/O.
- `acorn.parse`, `astring`'s `generate` and `acorn-walk`'s dispatch are foreign code.
  - The tree is a datatype.
  - Printing and re-parsing are taken to give the same tree back.
  - `scan` in `Driver` stands for `generate` followed by the `.match` of index.js:83.
  - Whether acorn-walk dispatches the pipe-joined and `:exit` keys of index.js:16 and 67 is not visible here. The model pushes on entry and pops on exit, as the comments there describe.
- The regular expression of index.js:83 is not run. Its matches are an input. `Pairs.MineMatch` states what mining does to a string of the shape it matches.
- The output fix-ups of index.js:343-352 are regular-expression rewrites of the printed text, and are not modelled.
- JavaScript object quirks are not modelled; frames, counters and histograms are Dafny maps and association lists:
  - a name such as `constructor` finds an inherited property (index.js:28, 58, 195-196); the source then produces `NaN` counts and names like `constructorNaN`;
  - `__proto__` as a label cannot be stored as an own key.
- Case mapping is ASCII only. `toLowerCase`/`toUpperCase` on non-ASCII letters are not modelled.
- Labels.MaxLengthIsMax, Labels.ChooseLongest: `.length` (index.js:326-327) counts UTF-16 code units, while a Dafny string's length counts Unicode scalar values. A label holding a character outside the Basic Multilingual Plane is shorter in the model by one per such character, so the longest label can be chosen differently.
- Object key order is taken as insertion order. Row names and labels are identifier names, never integer-like keys. Replacer keys can be integer-like; see `Driver.Run` below.
- Nodes are renamed in place in the source. The model returns the renamed tree as a new value; the classes keep the scope state and the profile as their fields. Aliasing of nodes is not modelled.
- A computed object key counts as a key, exactly as the source does (index.js:171-175).
- Labels.MaxLength: `Math.max()` of an empty list is `-Infinity`; the model uses -1, which likewise matches no length.
- Labels.GetLongNames: the variable `n` of index.js:309-314 is written but never read, so it is not modelled.
- Shadowing.Deshadow: the composed name `name+k` is not checked against names already in the program (index.js:30), so no global uniqueness of names is claimed.
- Driver.Run: the model assumes that `for (const key in replacers)` (index.js:275, 288, 301) visits the keys in pair order.
  - JavaScript visits integer-like keys first, in ascending order. The pattern of index.js:83 can mine such a key, for example `12` from `, 12 = abcd` inside a string literal.
  - Each `renameIdentifier` call observes the whole tree. With such a key, the calls run in a different order and the profile can differ.
  - `Replacers.CandidatesNamesDistinct` and `Replacers.FromEntriesDistinct` show only that the map's keys are the pair names. They say nothing about order.
- Shadowing.Declare: the whole-program walk (`Deshadow`, `Shadower`, `SolveShadowing`, `Driver`) uses the corrected handler.
  - A declarator whose id is a pattern declares nothing there. The source declares the key "undefined" instead; see Findings.
  - The handler as written, `DeclareAsWritten`, appears only in `Shadowing.DestructuringRenamesUndefined`.
- Shadowing.Enters: the walk recognises pattern positions from the parent's node type and the child's index. Two positions cannot be told apart that way:
  - A named class expression's name (`(class C {})`) is resolved. A class expression's first child may instead be its superclass.
  - A shorthand property's key is resolved together with its value. acorn-walk visits only the value. The printed program holds the value alone, so after re-parsing, key and value agree again.
- The commented-out `renameIdentifier` (index.js:229-273) is dead code.
- `worker.js` is a message-passing wrapper around a function that `index.js` does not define, and is not part of this model.

## Findings

| source | as written | input that shows it | evidently intended | confidence | as-written member | corrected member |
|---|---|---|---|---|---|---|
| index.js:24-32 | the declarator handler reads `node.id.name`, which is `undefined` for a destructuring id, so it records and counts the key "undefined" | `const {a} = o; const {b} = p; undefined;` makes the frame map "undefined" to "undefined1" and rewrites the global `undefined` | a declarator whose id is not an identifier declares nothing | not executed | Shadowing.DestructuringRenamesUndefined | Shadowing.DestructuringDeclaresNothing |
