# UltiSnips snippet parser (`TOParser`) in Dafny

This project models `TOParser`, the part of UltiSnips that turns the token
stream of a snippet body into a tree of text objects, and proves what that
tree looks like. `TOParser.parse(add_ts_zero)` works in five steps, one
after the other:

1. The flattening scan (`_do_parse`). Every token goes into one shared
   list, `all_tokens`, as a `(parent, token)` pair, in document order. An
   explicit tabstop `${n:...}` becomes a TabStop at once. It is registered
   in `seen_ts` under its number and added to its parent's table. The scan
   then continues into the tabstop's initial text, with the new TabStop as
   the parent. The kinds in the `TOKEN2TO` table build their leaf object.
2. Ambiguity resolution (`_resolve_ambiguity`). A bare `$n` becomes a
   TabStop when `n` is not registered yet. Otherwise it becomes a Mirror of
   the registered TabStop.
3. Transformation linking (`_create_objects_with_links_to_tabs`). A
   transformation `${n/.../.../}` becomes a Transformation of the TabStop
   registered under `n`. The parse fails when `n` is not registered.
4. The implicit tabstop 0. When it is asked for and 0 is not registered, a
   zero-width TabStop 0 is added to the parser's object, at the end of the
   last token.
5. Placement (`_replace_initial_texts`). A walk from the parser's object
   calls `overwrite()` on every object, each before its children.

## How the model is built

- **Objects.** The text objects live in an arena, a `seq<Node>`. An object
  is named by its index. Index 0 is the object the parser fills
  (`_parent_to`). Objects are only ever appended, so a child's index is
  larger than its parent's.
- **Node.** A `Node` holds the object's kind, its parent, its children in
  attachment order (`_childs`), its tabstop table (`_tabstops`) and its
  span.
- **Tokens.** A `Token` is a closed datatype. A `TabStopToken` carries its
  initial text, already tokenized.
- **The parser.** `Parser.TOParser` is a class. Its fields are the arena,
  `all_tokens`, `seen_ts` and the trace of `overwrite()` calls. Its methods
  change them in place, with the loops of the source. Each method is
  proved to leave exactly the state that a function of the module
  `ParseSpec` and its passes computes:
  - `FlatteningScan.Scan` for the scan;
  - `Resolution.ResolveFrom` for resolution;
  - `Linking.LinkFrom` for linking;
  - `ParseSpec.AddTabStopZero` for tabstop 0;
  - `Placement.Walk` for placement.

  The lemmas about those functions state what the parse promises.
- **The flattened text.** The lemmas speak of `Preorder(text)`: each token,
  then the tokens of its initial text, then the tokens after it.
- **Tabstop tables.** The module `TabStopTables` describes what the scan
  and resolution leave in each object's table through two reference
  tables. `LastUnder(entries, q)` maps each explicit tabstop number under
  `q` to its last entry. `DefiningBareUnder` maps each bare `$n` under `q`
  that defines its tabstop to its entry.

### Where the code decides differently from the usual description

The parser is often described as "the first occurrence of a number defines
the tabstop, every later one mirrors it". The code does something else, and
the model follows the code:

- **Explicit tabstops.** Every explicit `${n:...}` becomes a TabStop during
  the scan, before any bare `$n` is looked at. Two explicit `${n:...}` give
  two TabStops. `seen_ts` keeps the last one, because line 90 overwrites the
  earlier entry. See `ParseSpec.ScanCreates` and
  `ParseSpec.ScanRegistersLastExplicit`.
- **Bare references.** A bare `$n` is a TabStop only when no explicit
  `${n:...}` exists anywhere in the text, and no bare `$n` comes before it.
  Otherwise it is a Mirror, even when the `${n:...}` comes later. See
  `ParseSpec.BareReference`.
- **Tabstop 0.** The synthetic TabStop 0 is not put into `seen_ts`: line 49
  only calls `_add_tabstop`. It is added when 0 is not registered, so a
  bare `$0` suppresses it as well as an explicit `${0:...}`. See
  `ParseSpec.TabStopZero`.

## Model

| member | source | states |
|---|---|---|
| Parser.TOParser.constructor | plugin/UltiSnips/TextObjects/_parser.py:29-35 | The parser starts on the given object tree and text, with no entries, an empty registry and no `overwrite()` calls yet |
| Parser.TOParser.Parse | plugin/UltiSnips/TextObjects/_parser.py:37-51 | `parse` leaves exactly the objects, `all_tokens` and `seen_ts` of `Final`, and the outcome `ParseResult` describes (success, or the unknown tabstop of a transformation). The objects form a tree. On success the placement pass appends `Walk(objects, 0)` to the trace. On failure nothing is overwritten |
| Parser.TOParser.RunPasses | plugin/UltiSnips/TextObjects/_parser.py:38-49 | The scan, the resolution, the linking and the tabstop 0 leave exactly the state of `Final`, and the outcome is the one `ParseResult` describes |
| Parser.TOParser.ScanText | plugin/UltiSnips/TextObjects/_parser.py:38-41 | A fresh `all_tokens` and `seen_ts`, then `_do_parse` from the parser's object, leave exactly the state `AfterScan` describes |
| Parser.TOParser.AddTabStopZeroAtEnd | plugin/UltiSnips/TextObjects/_parser.py:46-49 | The tabstop 0 is added at the end of the token in the last pair of `all_tokens`, exactly as `AddTabStopZero` describes |
| Parser.TOParser.DoParse | plugin/UltiSnips/TextObjects/_parser.py:82-98 | `_do_parse` of a token sequence under parent `p`, with the nested parse of each tabstop's initial text, changes the state exactly as `Scan` does |
| Parser.TOParser.ResolveAmbiguity | plugin/UltiSnips/TextObjects/_parser.py:56-64 | The loop over `all_tokens` changes the objects and `seen_ts` exactly as `ResolveFrom` does |
| Parser.TOParser.CreateObjectsWithLinksToTabs | plugin/UltiSnips/TextObjects/_parser.py:66-71 | The loop builds the transformations exactly as `LinkFrom` does. It returns `UnknownTabStop(n)` exactly when `LinkFrom` stops at an unregistered `n`, and leaves the objects built so far in place |
| Parser.TOParser.ReplaceInitialTexts | plugin/UltiSnips/TextObjects/_parser.py:73-80 | Placement from the parser's object overwrites the objects in the order `Walk(objects, 0)` |
| Parser.TOParser.PlaceInitialText | plugin/UltiSnips/TextObjects/_parser.py:74-78 | `_place_initial_text(n)` overwrites `n`, then the subtree of each child in order: it appends `Walk(objects, n)` to the trace |
| ParseSpec.ScanFlattens | plugin/UltiSnips/TextObjects/_parser.py:82-94 | The tokens of `all_tokens` after the scan are `Preorder(text)`: a tabstop's initial text comes right after the tabstop and before its next sibling. Each entry's parent is the parser's object at the top level, and inside an initial text the TabStop built for that tabstop token |
| ParseSpec.ScanEndsWithText | plugin/UltiSnips/TextObjects/_parser.py:47 | The last pair of `all_tokens` holds the last token of the outer text, the EndOfText sentinel that line 47 reads |
| ParseSpec.ScanCreates | plugin/UltiSnips/TextObjects/_parser.py:21-27 | During the scan, an entry builds an object if and only if its token is one of the five `TOKEN2TO` kinds or an explicit tabstop. The object has the `TOKEN2TO` kind, or `TabStop(n)`. No other object is built: their number is the count of such tokens |
| ParseSpec.ScanRegistersLastExplicit | plugin/UltiSnips/TextObjects/_parser.py:88-91 | After the scan, `n` is registered if and only if some `${n:...}` occurs in the flattened text. It maps to the TabStop built for the last such token |
| ParseSpec.ScanLeavesReferences | plugin/UltiSnips/TextObjects/_parser.py:95-98 | After the scan, no bare reference and no transformation has an object: only creating tokens built one |
| ParseSpec.ResolveRegistry | plugin/UltiSnips/TextObjects/_parser.py:56-64 | After resolution, `n` is registered if and only if an explicit `${n:...}` or a bare `$n` occurs in the flattened text. An explicit tabstop's registration is still the one the scan made |
| ParseSpec.BareReference | plugin/UltiSnips/TextObjects/_parser.py:56-64 | Each bare `$n` has an object under its entry's parent. It is the TabStop registered under `n` if neither an explicit `${n:...}` (anywhere) nor an earlier bare `$n` exists. Otherwise it is a Mirror of the TabStop registered under `n` |
| ParseSpec.ResolveLeavesTransforms | plugin/UltiSnips/TextObjects/_parser.py:56-64 | Resolution builds no transformation, and it keeps the tree, the registry and the bookkeeping well formed |
| ParseSpec.ParseFails | plugin/UltiSnips/TextObjects/_parser.py:43-44 | `parse` fails if and only if some transformation in the flattened text targets a number that is neither an explicit tabstop nor a bare reference. The reported number is such a number |
| ParseSpec.TransformationLinked | plugin/UltiSnips/TextObjects/_parser.py:66-71 | After a successful parse, each transformation `${n/...}` has an object under its entry's parent: a Transformation of the TabStop registered under `n`, which may come later in the text |
| ParseSpec.TabStopZero | plugin/UltiSnips/TextObjects/_parser.py:46-49 | With `add_ts_zero` set and 0 neither an explicit tabstop nor a bare reference, exactly one object is added: `TabStop(0)`, spanning the empty range at the end of the last token. It is the last child of the parser's object and is entered in its table under 0. Every other object is as the linking pass left it. In every other case the state is the linking pass's |
| ParseSpec.AddTabStopZeroKeepsValid | plugin/UltiSnips/TextObjects/_parser.py:46-49 | Adding the tabstop 0 keeps the state well formed and changes no existing object's kind, parent or span |
| ParseSpec.AddTabStopZero | plugin/UltiSnips/TextObjects/_parser.py:46-49 | The tabstop 0 changes neither `all_tokens`, nor `seen_ts`, nor which entry built which object |
| ParseSpec.ParseResult | plugin/UltiSnips/TextObjects/_parser.py:37-49 | The parse keeps the `all_tokens` the scan made and the `seen_ts` resolution left, and only adds objects after resolution |
| ParseSpec.ScanFillsTables | plugin/UltiSnips/TextObjects/_parser.py:86-98 | After the scan, each object's table is what it was before plus, for every number of an explicit `${n:...}` appended under it, the TabStop built for the last of them. A new object's table holds exactly those |
| ParseSpec.ResolveFillsTables | plugin/UltiSnips/TextObjects/_parser.py:56-64 | After resolution, each object's table is what the scan left plus, for every bare `$n` under it that defines its tabstop, the TabStop built for it |
| ParseSpec.ParseValid | plugin/UltiSnips/TextObjects/_parser.py:37-49 | Whether `parse` succeeds or fails, the objects form a tree whose child lists and parent links agree. Every table entry is a TabStop child with that number. Every Mirror and Transformation is bound to a TabStop. Every registry entry is a TabStop with that number |
| ParseSpec.ParseTree | plugin/UltiSnips/TextObjects/_parser.py:37-51 | The objects `parse` leaves form the tree that the placement pass walks |
| ParseSpec.PlacementOverwritesAll | plugin/UltiSnips/TextObjects/_parser.py:73-80 | After a parse, placement overwrites every object exactly once, and each object before all of its descendants |
| ParseSpec.ScanKnowsParents | plugin/UltiSnips/TextObjects/_parser.py:86 | Every parent recorded in `all_tokens` by the scan is an object of the tree |
| ParseSpec.Start | plugin/UltiSnips/TextObjects/_parser.py:38-39 | A fresh parse, with an empty `seen_ts` and `all_tokens`, starts from a well-formed state when the tree is well formed |
| ParseSpec.AfterScan | plugin/UltiSnips/TextObjects/_parser.py:41 | The state after `_do_parse` of the whole text has at least the objects it started with. What it holds is stated by `ScanFlattens`, `ScanCreates`, `ScanRegistersLastExplicit` and `ScanFillsTables` |
| ParseSpec.AfterResolve | plugin/UltiSnips/TextObjects/_parser.py:43 | Resolution keeps the scan's `all_tokens` and only adds objects. What it adds is stated by `ResolveRegistry`, `BareReference`, `ResolveFillsTables` and `ParseCount` |
| ParseSpec.AfterLink | plugin/UltiSnips/TextObjects/_parser.py:44 | Linking keeps the scan's `all_tokens` and resolution's `seen_ts`, and only adds objects |
| ParseSpec.Final | plugin/UltiSnips/TextObjects/_parser.py:41-49 | The state `parse` leaves keeps the scan's `all_tokens`. After the linking pass the tabstop 0 adds at most one object |
| ParseSpec.ParseCount | plugin/UltiSnips/TextObjects/_parser.py:41-49 | A successful parse adds exactly one object per creating token, per bare `$n` and per transformation of the flattened text, plus one for the tabstop 0 when it is added |
| ParseSpec.ParseTables | plugin/UltiSnips/TextObjects/_parser.py:44-49 | Linking and the tabstop 0 change no table, except that the parser's object gains 0 when the tabstop 0 is added. Every object made after resolution has an empty table. With `ResolveFillsTables` and `ScanFillsTables` this gives every table `parse` leaves |
| ParseSpec.ReferencedBare | plugin/UltiSnips/TextObjects/_parser.py:57-59 | An earlier bare `$n` among the entries is the same as one among the flattened tokens |
| FlatteningScan.EnterShape | plugin/UltiSnips/TextObjects/_parser.py:86-98 | One turn of the scan appends `(p, token)`. A creating token adds one object of its kind under `p`. An explicit tabstop is registered under its number. Other tokens change no object and no registration |
| FlatteningScan.EnterTables | plugin/UltiSnips/TextObjects/_parser.py:86-98 | After one turn of the scan, an explicit tabstop is entered in its parent's table under its number. The new object has an empty table. Every other table is unchanged |
| FlatteningScan.Enter | plugin/UltiSnips/TextObjects/_parser.py:85-98 | One turn of the scan loop, without the nested parse, appends the pair `(p, token)` to `all_tokens`. It adds one object exactly when the token is an explicit tabstop or one of the `TOKEN2TO` kinds |
| FlatteningScan.Nest | plugin/UltiSnips/TextObjects/_parser.py:93-94 | The nested parse of an explicit tabstop's initial text, under the TabStop just built, only adds objects |
| FlatteningScan.Scan | plugin/UltiSnips/TextObjects/_parser.py:82-98 | `_do_parse` of a token sequence under `p`, with the nested parses, only adds objects. What it adds is stated by `ScanAppendsPreorder`, `ScanBuilds`, `ScanRegistry` and `ScanParents` |
| FlatteningScan.Token2To | plugin/UltiSnips/TextObjects/_parser.py:21-27 | The `TOKEN2TO` table maps the five leaf token kinds to leaf objects: never the root, a TabStop, a Mirror or a Transformation |
| FlatteningScan.ScanAppendsPreorder | plugin/UltiSnips/TextObjects/_parser.py:82-94 | The scan appends to `all_tokens` exactly the flattened tokens, in order |
| FlatteningScan.ScanParents | plugin/UltiSnips/TextObjects/_parser.py:86-94 | Each appended entry has as parent its owner: `p` at the top level, or the TabStop built for the tabstop token whose initial text holds it |
| FlatteningScan.ScanBuilds | plugin/UltiSnips/TextObjects/_parser.py:88-98 | The scan builds an object for an entry if and only if its token creates one, with the kind that token calls for |
| FlatteningScan.ScanCount | plugin/UltiSnips/TextObjects/_parser.py:88-98 | The number of objects the scan adds is the number of creating tokens in the flattened text |
| FlatteningScan.ScanRegistry | plugin/UltiSnips/TextObjects/_parser.py:88-91 | The scan registers exactly the numbers of the explicit tabstops, each under the object of the last one. Other registrations are kept |
| FlatteningScan.ScanExtends | plugin/UltiSnips/TextObjects/_parser.py:82-98 | The scan keeps every object's kind, parent and span, every entry and build record, and every registered number. A repeated `${n:...}` may point `seen_ts[n]` at a newer TabStop (line 90), and parents gain children and table entries |
| FlatteningScan.ScanNewKeys | plugin/UltiSnips/TextObjects/_parser.py:82-98 | The scan builds objects only for the entries it appends |
| FlatteningScan.EnterKeepsValid | plugin/UltiSnips/TextObjects/_parser.py:86-98 | One turn of the scan keeps the state well formed |
| FlatteningScan.ScanKeepsValid | plugin/UltiSnips/TextObjects/_parser.py:82-98 | The scan, nested parses included, keeps the state well formed |
| Resolution.ResolveStepShape | plugin/UltiSnips/TextObjects/_parser.py:57-64 | One turn on a bare `$n` adds one object under the entry's parent. With `n` unregistered it is `TabStop(n)` and `n` is registered to it. Otherwise it is a Mirror of `seen_ts[n]`. Any other entry changes nothing |
| Resolution.ResolveStepTables | plugin/UltiSnips/TextObjects/_parser.py:57-64 | After one turn of resolution, a bare reference that defines its tabstop enters it in its parent's table. The new object has an empty table. Every other table is unchanged |
| Resolution.ResolveStep | plugin/UltiSnips/TextObjects/_parser.py:57-64 | One turn of `_resolve_ambiguity` keeps `all_tokens`, only adds objects, and keeps every recorded parent an object of the tree |
| Resolution.ResolveFrom | plugin/UltiSnips/TextObjects/_parser.py:56-64 | The loop from entry `k` on keeps `all_tokens`, only adds objects, and keeps every recorded parent an object of the tree |
| Resolution.ResolveSeen | plugin/UltiSnips/TextObjects/_parser.py:56-64 | After the pass, the registered numbers are those registered before plus those of the bare references met. Earlier registrations keep their TabStop |
| Resolution.ResolveMirror | plugin/UltiSnips/TextObjects/_parser.py:56-64 | Each bare `$n` from entry `k` on becomes a TabStop, registered under `n`, exactly when `n` was not registered and no earlier bare `$n` from `k` on exists. Otherwise it becomes a Mirror of the TabStop registered under `n` |
| Resolution.ResolveExtends | plugin/UltiSnips/TextObjects/_parser.py:56-64 | Resolution keeps every object's kind, parent and span, every entry and build record, and every registered number |
| Resolution.ResolveCount | plugin/UltiSnips/TextObjects/_parser.py:56-64 | Resolution adds exactly one object per bare reference from entry `k` on |
| Resolution.ResolveNewKeys | plugin/UltiSnips/TextObjects/_parser.py:56-64 | Resolution records a built object only for bare reference entries. `ResolveCount` gives the number of objects |
| Resolution.ResolveKeepsValid | plugin/UltiSnips/TextObjects/_parser.py:56-64 | Resolution keeps the state well formed |
| Linking.LinkFails | plugin/UltiSnips/TextObjects/_parser.py:66-71 | The linking pass fails if and only if some transformation from entry `k` on has an unregistered number. The number it reports is unregistered and is the target of a transformation |
| Linking.LinkBinds | plugin/UltiSnips/TextObjects/_parser.py:67-71 | After a successful pass, each transformation has an object under its entry's parent, bound to the TabStop registered under its number |
| Linking.LinkFrom | plugin/UltiSnips/TextObjects/_parser.py:66-71 | The loop of `_create_objects_with_links_to_tabs` from entry `k` on keeps `all_tokens` and `seen_ts`, only adds objects, and keeps every recorded parent an object of the tree, whether it finishes or stops at an unknown tabstop |
| Linking.LinkExtends | plugin/UltiSnips/TextObjects/_parser.py:66-71 | The linking pass keeps every object's kind, parent and span, every entry and build record, and every registered number |
| Linking.LinkKeepsTables | plugin/UltiSnips/TextObjects/_parser.py:66-71 | The linking pass changes no tabstop table, and every object it adds has an empty one, whether it finishes or stops at an unknown tabstop |
| Linking.LinkCount | plugin/UltiSnips/TextObjects/_parser.py:66-71 | A successful linking pass adds exactly one object per transformation from entry `k` on |
| Linking.LinkKeepsValid | plugin/UltiSnips/TextObjects/_parser.py:66-71 | The linking pass keeps the state well formed, including when it stops early |
| Placement.WalkVisitsEveryObjectOnce | plugin/UltiSnips/TextObjects/_parser.py:73-80 | The placement order holds every object of the tree exactly once, and nothing else |
| Placement.WalkCounts | plugin/UltiSnips/TextObjects/_parser.py:74-78 | `_place_initial_text(n)` overwrites each object of the subtree of `n` exactly once, and no other object |
| Placement.WalkParentsFirst | plugin/UltiSnips/TextObjects/_parser.py:74-78 | In the order of `_place_initial_text(n)`, every object comes before all of its descendants |
| Placement.WalkAll | plugin/UltiSnips/TextObjects/_parser.py:77-78 | The walks of the children of `n`, one after the other, hold only objects after `n` in the arena |
| Placement.Walk | plugin/UltiSnips/TextObjects/_parser.py:74-78 | The walk from `n` starts with `n`, and every later object in it has a larger index than `n` |
| Flatten.LastTabStopsMeaning | plugin/UltiSnips/TextObjects/_parser.py:90 | The last-definition table holds exactly the numbers of the explicit tabstops, each mapped to the last index that defines it |
| Flatten.PreorderAppend | plugin/UltiSnips/TextObjects/_parser.py:85-94 | Flattening two token runs one after the other gives their flattenings one after the other |
| Flatten.PreorderLast | plugin/UltiSnips/TextObjects/_parser.py:47 | The last flattened token of a lexed text is its last token, the EndOfText sentinel |
| ParseState.Append | plugin/UltiSnips/TextObjects/_parser.py:86 | `all_tokens.append((parent, token))` adds the pair at the end and changes nothing else |
| ParseState.Build | plugin/UltiSnips/TextObjects/_parser.py:64 | Constructing the object for entry `k` (lines 60, 64, 71, 89 and 98) adds one object, records it for `k`, and keeps `all_tokens` and `seen_ts` |
| ParseState.Register | plugin/UltiSnips/TextObjects/_parser.py:61-62 | `seen_ts[no] = ts` and `_add_tabstop` register `no` to `ts`, keeping the number of objects, `all_tokens` and the build records |
| ParseState.BuildKeepsValid | plugin/UltiSnips/TextObjects/_parser.py:64 | Building an object for an entry with no object yet, bound to an existing TabStop if it is a Mirror or Transformation, keeps the state well formed |
| ParseState.RegisterKeepsValid | plugin/UltiSnips/TextObjects/_parser.py:61-62 | Registering a TabStop and adding it to its parent's table keeps the state well formed |
| TextObjects.Attach | plugin/UltiSnips/TextObjects/_parser.py:89 | Constructing an object appends it to the arena, as a childless object with an empty table, and to the end of its parent's children. The parent's table is unchanged |
| TextObjects.AddTabStop | plugin/UltiSnips/TextObjects/_parser.py:91 | `_add_tabstop` enters the TabStop in the parent's table under its number, keeping the parent's kind and children |
| TextObjects.AttachKeepsArena | plugin/UltiSnips/TextObjects/_parser.py:98 | Constructing an object under an existing parent keeps the tree and its tables and bindings well formed. No existing object's kind, parent or span changes |
| TextObjects.AddTabStopKeepsArena | plugin/UltiSnips/TextObjects/_parser.py:91 | `_add_tabstop` of a TabStop child under its number keeps the tree and its tables well formed |
| TabStopTables.LastUnderMeaning | plugin/UltiSnips/TextObjects/_parser.py:88-91 | The reference table of the scan under `q` holds exactly the numbers of the explicit tabstops appended under `q`, each mapped to the last entry that defines it there |
| TabStopTables.LastUnderWithin | plugin/UltiSnips/TextObjects/_parser.py:88-91 | The last explicit tabstop for a number under `q` comes no later than its last explicit tabstop anywhere (`LastTabStops`), and is that same entry when that one is under `q` |
| TabStopTables.EnterKeepsTables | plugin/UltiSnips/TextObjects/_parser.py:86-98 | One turn of the scan keeps every table equal to its earlier contents plus the last explicit tabstop under it for each number |
| TabStopTables.EnterKeepsTable | plugin/UltiSnips/TextObjects/_parser.py:86-98 | The same for one object `q` |
| TabStopTables.ScanKeepsTables | plugin/UltiSnips/TextObjects/_parser.py:82-98 | The whole scan, nested parses included, keeps that relation between the tables and `all_tokens` |
| TabStopTables.NestKeepsTables | plugin/UltiSnips/TextObjects/_parser.py:93-94 | The nested parse of a tabstop's initial text keeps it too |
| TabStopTables.DefiningBareUnderMeaning | plugin/UltiSnips/TextObjects/_parser.py:57-62 | The reference table of resolution under `q` holds exactly the numbers of the bare references under `q` that define their tabstop, each mapped to that reference's entry |
| TabStopTables.ResolveStepKeepsTable | plugin/UltiSnips/TextObjects/_parser.py:57-64 | One turn of resolution keeps the table of object `q` equal to its earlier contents plus the defining bare references under `q` met so far |
| TabStopTables.ResolveStepKeepsTables | plugin/UltiSnips/TextObjects/_parser.py:57-64 | One turn keeps that for every object, and keeps `seen_ts` equal to its earlier numbers plus those of the bare references met |
| TabStopTables.ResolveKeepsTables | plugin/UltiSnips/TextObjects/_parser.py:56-64 | The whole resolution loop keeps both relations |

## Left out

- The lexer (`tokenize`, line 83) is not part of this model. The text
  arrives as a token sequence, and a tabstop's initial text is already
  tokenized inside its token. The `indent` and the parent's start position
  passed to `tokenize` are therefore not modelled.
- `Parser.TOParser.Parse` requires that the outer token sequence end with
  the EndOfText sentinel, as the lexer guarantees and line 47 relies on. It
  also requires that the object tree it is given be well formed.
- What `overwrite()` writes into the buffer, and how it moves positions, is
  not modelled. A call is recorded as the object's index appended to a
  trace.
- Positions are opaque values, carried from a token to the object built for
  it. The copy `m1` of `mark` at line 48 is the same value.
- What the PythonCode, VimLCode and ShellCode objects compute (script and
  shell execution) is not modelled. Only the leaf object is created and
  attached.
- The constructors of the text objects are not part of this model.
  Constructing an object is modelled as appending it to the arena and to
  its parent's children. `_add_tabstop` also enters it in the parent's
  table.
- The `RuntimeError` of line 70 becomes the outcome `UnknownTabStop(n)`.
  The message text is not modelled. As in the source, the objects built
  before the error stay in place.
- The nested `TOParser` of line 93 is modelled as a recursive call of
  `DoParse` on the same parser object, with the new TabStop as parent and
  its initial text as tokens. This is what the nested parser shares with
  the outer one: `all_tokens`, `seen_ts` and the object tree.
- Python object identity is modelled by arena indices.
- Parser.TOParser.Parse: its postcondition states that the objects form a
  tree, not the full well-formedness of the state. The rest follows from
  `ParseSpec.ParseValid`, because the state equals `Final`'s.
- FlatteningScan.Scan: its own contract only says that objects are added.
  What the scan appends, builds, registers and enters in the tables is
  stated by `ScanAppendsPreorder`, `ScanBuilds`, `ScanRegistry`,
  `ScanParents` and `ScanKeepsTables`, so that these facts are not unfolded
  wherever the function is called.
- FlatteningScan.Nest: the same holds, through the `Nest` lemmas paired with
  each of those.
- Resolution.ResolveStep: its contract states the frame (`all_tokens`
  kept, objects only added). What one turn builds is stated by
  `ResolveStepShape` and `ResolveStepTables`.
- Resolution.ResolveFrom: the same holds. What the loop builds is stated by
  `ResolveMirror`, `ResolveSeen` and `ResolveKeepsTables`.
- Linking.LinkFrom: the same holds. What the loop builds is stated by
  `LinkFails` and `LinkBinds`.
- ParseSpec.AfterScan: its own contract only says that objects are added,
  for the reason given for `FlatteningScan.Scan`. The scan lemmas of
  `ParseSpec` state what it holds.
- ParseSpec.AfterResolve: its contract states the frame only. What
  resolution adds is stated by `ResolveRegistry`, `BareReference`,
  `ResolveFillsTables` and `ParseCount`.
- ParseSpec.AfterLink: its contract states the frame only. What linking
  adds is stated by `ParseFails`, `TransformationLinked`, `ParseCount` and
  `ParseTables`.
