/** `TOParser.parse` as a composition of its passes: the flattening scan
    from the parser's own object (index 0), the resolution of bare
    references, the linking of transformations, and the optional tabstop 0.
    The lemmas state what the whole parse promises in terms of the
    flattened token list `Preorder(text)`. */
module ParseSpec {
  import opened Lexer
  import opened TextObjects
  import opened Flatten
  import opened ParseState
  import opened FlatteningScan
  import opened Resolution
  import opened Linking
  import opened Placement
  import opened TabStopTables

  /** How `parse` ends: normally, or with the `RuntimeError` of a
      transformation whose tabstop is unknown. */
  datatype Outcome = Done | UnknownTabStop(no: int)

  datatype Parsed = Parsed(state: State, outcome: Outcome)

  /** `if add_ts_zero and 0 not in seen_ts`: a TabStop 0 spanning the empty
      range at `mark` is attached to the parser's object and added to its
      table. It is not put into `seen_ts`. */
  function AddTabStopZero(s: State, addTsZero: bool, mark: Position): (r: State)
    requires 0 < |s.objs|
    ensures r.entries == s.entries && r.seen == s.seen && r.built == s.built
  {
    if addTsZero && 0 !in s.seen then
      s.(objs := AddTabStop(Attach(s.objs, 0, TabStop(0), mark, mark), 0, |s.objs|, 0))
    else s
  }

  /** A fresh `parse`: no pairs in `all_tokens`, nothing in `seen_ts`.
      Over a well-formed tree it is a well-formed state. */
  function Start(objs: seq<Node>): (r: State)
    ensures Arena(objs) ==> Valid(r) && BuiltBelow(r)
  {
    State(objs, [], map[], map[])
  }

  /** The state after `_do_parse` of the whole text (line 41). */
  function AfterScan(objs: seq<Node>, text: seq<Token>): (r: State)
    requires 0 < |objs|
    ensures |objs| <= |r.objs|
  {
    Scan(Start(objs), 0, text)
  }

  /** The state after `_resolve_ambiguity` (line 43). */
  function AfterResolve(objs: seq<Node>, text: seq<Token>): (r: State)
    requires Arena(objs)
    ensures r.entries == AfterScan(objs, text).entries && |AfterScan(objs, text).objs| <= |r.objs|
  {
    ScanKnowsParents(objs, text);
    ResolveFrom(AfterScan(objs, text), 0)
  }

  lemma ScanKnowsParents(objs: seq<Node>, text: seq<Token>)
    requires Arena(objs)
    ensures ParentsKnown(AfterScan(objs, text))
  {
    ScanKeepsValid(Start(objs), 0, text);
  }

  /** The state after `_create_objects_with_links_to_tabs` (line 44),
      and whether it stopped at an unknown tabstop. */
  function AfterLink(objs: seq<Node>, text: seq<Token>): (r: LinkResult)
    requires Arena(objs)
    ensures r.state.entries == AfterScan(objs, text).entries && r.state.seen == AfterResolve(objs, text).seen
    ensures |AfterResolve(objs, text).objs| <= |r.state.objs|
  {
    LinkFrom(AfterResolve(objs, text), 0)
  }

  /** The whole of `parse(add_ts_zero)` up to the placement pass; the
      tabstop 0 goes at the end of the last token, which the lexer makes the
      EndOfText sentinel. */
  function ParseResult(objs: seq<Node>, text: seq<Token>, addTsZero: bool): (r: Parsed)
    requires Arena(objs) && EndsWithEndOfText(text)
    ensures r.state.entries == AfterScan(objs, text).entries
    ensures r.state.seen == AfterResolve(objs, text).seen
    ensures |AfterResolve(objs, text).objs| <= |r.state.objs|
  {
    var l := AfterLink(objs, text);
    if l.Unknown? then Parsed(l.state, UnknownTabStop(l.no))
    else Parsed(AddTabStopZero(l.state, addTsZero, text[|text| - 1].end), Done)
  }

  /** The state a parse leaves, whether it succeeds or fails: after the
      linking pass, the tabstop 0 adds at most one object. */
  function Final(objs: seq<Node>, text: seq<Token>, addTsZero: bool): (r: State)
    requires Arena(objs) && EndsWithEndOfText(text)
    ensures r.entries == AfterScan(objs, text).entries
    ensures |AfterLink(objs, text).state.objs| <= |r.objs| <= |AfterLink(objs, text).state.objs| + 1
  {
    ParseResult(objs, text, addTsZero).state
  }

  /** Some `${n:...}` in the flattened text. */
  ghost predicate Explicit(flat: seq<Token>, n: int)
  {
    exists j :: 0 <= j < |flat| && Defines(flat[j], n)
  }

  /** Some bare `$n` among the first `j` flattened tokens. */
  ghost predicate Bare(flat: seq<Token>, j: nat, n: int)
  {
    exists i :: 0 <= i < j && i < |flat| && Refers(flat[i], n)
  }

  /** A number the parse registers: an explicit tabstop or a bare reference. */
  ghost predicate Registered(flat: seq<Token>, n: int)
  {
    Explicit(flat, n) || Bare(flat, |flat|, n)
  }

  /** The registry maps `n` to the object built for the last `${n:...}`. */
  ghost predicate LastDefinition(r: State, flat: seq<Token>, n: int)
    requires n in r.seen
  {
    exists j :: 0 <= j < |flat| && Defines(flat[j], n) && j in r.built && r.seen[n] == r.built[j] &&
      forall i :: j < i < |flat| ==> !Defines(flat[i], n)
  }

  lemma AddTabStopZeroKeepsValid(s: State, addTsZero: bool, mark: Position)
    requires Valid(s)
    ensures Valid(AddTabStopZero(s, addTsZero, mark)) && Grown(s.objs, AddTabStopZero(s, addTsZero, mark).objs)
  {
    if addTsZero && 0 !in s.seen {
      var o1 := Attach(s.objs, 0, TabStop(0), mark, mark);
      var o2 := AddTabStop(o1, 0, |s.objs|, 0);
      AttachKeepsArena(s.objs, 0, TabStop(0), mark, mark);
      AttachAt(s.objs, 0, TabStop(0), mark, mark);
      assert o1[0].children[|s.objs[0].children|] == |s.objs|;
      AddTabStopKeepsArena(o1, 0, |s.objs|, 0);
      GrownTransitive(s.objs, o1, o2);
      GrowKeepsValid(s, o2);
    }
  }

  /** The scan lists every token of the text in document order, each with
      its owning parent: the parser's object at the top level, and inside a
      tabstop's initial text the TabStop built for it. */
  lemma ScanFlattens(objs: seq<Node>, text: seq<Token>)
    requires Arena(objs)
    ensures Tokens(AfterScan(objs, text).entries) == Preorder(text)
    ensures Parents(AfterScan(objs, text), 0, 0, Owners(text, -1, 0))
  {
    ScanAppendsPreorder(Start(objs), 0, text);
    ScanParents(Start(objs), 0, text, -1);
  }

  /** The last pair of `all_tokens` holds the last token of the text, the
      EndOfText sentinel. */
  lemma ScanEndsWithText(objs: seq<Node>, text: seq<Token>)
    requires Arena(objs) && EndsWithEndOfText(text)
    ensures |AfterScan(objs, text).entries| > 0
    ensures AfterScan(objs, text).entries[|AfterScan(objs, text).entries| - 1].token == text[|text| - 1]
  {
    ScanFlattens(objs, text);
    PreorderLast(text);
  }

  /** During the scan exactly the TOKEN2TO tokens and the explicit tabstops
      make an object, one each, of the matching kind. */
  lemma ScanCreates(objs: seq<Node>, text: seq<Token>)
    requires Arena(objs)
    ensures Builds(AfterScan(objs, text), 0, |objs|, Preorder(text))
    ensures |AfterScan(objs, text).objs| == |objs| + CountCreating(Preorder(text))
  {
    ScanBuilds(Start(objs), 0, text);
    ScanCount(Start(objs), 0, text);
  }

  /** After the scan, the registry holds exactly the numbers of the explicit
      tabstops, each mapped to the TabStop of the last one. */
  lemma ScanRegistersLastExplicit(objs: seq<Node>, text: seq<Token>)
    requires Arena(objs)
    ensures forall n :: n in AfterScan(objs, text).seen <==> Explicit(Preorder(text), n)
    ensures forall n :: n in AfterScan(objs, text).seen ==> LastDefinition(AfterScan(objs, text), Preorder(text), n)
  {
    var flat, r := Preorder(text), AfterScan(objs, text);
    ScanRegistry(Start(objs), 0, text);
    LastTabStopsMeaning(flat);
    forall n | n in r.seen ensures LastDefinition(r, flat, n) {
      var j := LastTabStops(flat)[n];
      assert Defines(flat[j], n) && j in r.built && r.seen[n] == r.built[j];
    }
  }

  /** Entries whose tokens are the flattened text see the same bare
      references. */
  lemma ReferencedBare(es: seq<Entry>, flat: seq<Token>, j: nat, n: int)
    requires Tokens(es) == flat
    ensures Referenced(es, 0, j, n) <==> Bare(flat, j, n)
  {
    if Referenced(es, 0, j, n) {
      var i :| 0 <= i < j && i < |es| && Refers(es[i].token, n);
      assert Refers(flat[i], n);
    }
    if Bare(flat, j, n) {
      var i :| 0 <= i < j && i < |flat| && Refers(flat[i], n);
      assert Refers(es[i].token, n);
    }
  }

  /** No bare reference and no transformation has an object after the scan. */
  lemma ScanLeavesReferences(objs: seq<Node>, text: seq<Token>)
    requires Arena(objs)
    ensures RefsUnbuilt(AfterScan(objs, text), 0)
    ensures forall j :: j in AfterScan(objs, text).built ==>
              j < |AfterScan(objs, text).entries| && Creates(AfterScan(objs, text).entries[j].token)
  {
    var s := AfterScan(objs, text);
    ScanFlattens(objs, text);
    ScanCreates(objs, text);
    ScanExtends(Start(objs), 0, text);
    forall j | j in s.built ensures j < |s.entries| && Creates(s.entries[j].token) {
      assert BuildsAt(s, 0, |objs|, Preorder(text), j);
    }
  }

  /** After the scan, each object's tabstop table is the one it had before
      plus, for every number of an explicit tabstop appended under it, the
      TabStop built for the last of them (`LastUnderMeaning` says which
      entries those are); a new object's table holds exactly those. */
  lemma ScanFillsTables(objs: seq<Node>, text: seq<Token>)
    requires Arena(objs)
    ensures forall q :: 0 <= q < |AfterScan(objs, text).objs| ==>
              TableIs(AfterScan(objs, text).objs[q].tabstops, Base(objs, q),
                      LastUnder(AfterScan(objs, text).entries, q), AfterScan(objs, text).built)
  {
    var s := Start(objs);
    assert ScanTablesHold(s, objs) by {
      forall q | 0 <= q < |s.objs|
        ensures TableIs(s.objs[q].tabstops, Base(objs, q), LastUnder(s.entries, q), s.built)
      {
      }
    }
    ScanKeepsTables(s, 0, text, objs);
  }

  /** After resolution, each table is the one the scan left plus, for every
      bare `$n` under that object which defines its tabstop (no `${n:...}`
      registered and no bare `$n` before it), the TabStop built for it
      (`DefiningBareUnderMeaning` says which entries those are). */
  lemma ResolveFillsTables(objs: seq<Node>, text: seq<Token>)
    requires Arena(objs)
    ensures forall q :: 0 <= q < |AfterResolve(objs, text).objs| ==>
              TableIs(AfterResolve(objs, text).objs[q].tabstops, Base(AfterScan(objs, text).objs, q),
                      DefiningBareUnder(AfterScan(objs, text).entries, AfterScan(objs, text).seen, q,
                                        |AfterScan(objs, text).entries|),
                      AfterResolve(objs, text).built)
  {
    var s := AfterScan(objs, text);
    ScanKnowsParents(objs, text);
    assert ResolveTablesHold(s, s.seen, s.objs, 0) by {
      forall q | 0 <= q < |s.objs|
        ensures TableIs(s.objs[q].tabstops, Base(s.objs, q), DefiningBareUnder(s.entries, s.seen, q, 0), s.built)
      {
      }
    }
    ResolveKeepsTables(s, 0, s.seen, s.objs);
  }

  /** After resolution, the registered numbers are those of the explicit
      tabstops and of the bare references, and an explicit tabstop's
      registration is the one the scan made. */
  lemma ResolveRegistry(objs: seq<Node>, text: seq<Token>)
    requires Arena(objs)
    ensures forall n :: n in AfterResolve(objs, text).seen <==> Registered(Preorder(text), n)
    ensures forall n :: Explicit(Preorder(text), n) ==>
              n in AfterScan(objs, text).seen && n in AfterResolve(objs, text).seen &&
              AfterResolve(objs, text).seen[n] == AfterScan(objs, text).seen[n]
  {
    var s, flat := AfterScan(objs, text), Preorder(text);
    ScanKeepsValid(Start(objs), 0, text);
    ResolveSeen(s, 0);
    ScanFlattens(objs, text);
    ScanRegistersLastExplicit(objs, text);
    forall n ensures Referenced(s.entries, 0, |s.entries|, n) <==> Bare(flat, |flat|, n) {
      ReferencedBare(s.entries, flat, |s.entries|, n);
    }
  }

  /** A bare `$n` becomes a TabStop (the one registered under `n`) exactly
      when no `${n:...}` exists anywhere and no bare `$n` comes before it;
      otherwise it becomes a Mirror of the registered TabStop. Either way
      its object hangs under the entry's parent. */
  lemma BareReference(objs: seq<Node>, text: seq<Token>, j: nat, n: int)
    requires Arena(objs) && j < |Preorder(text)| && Refers(Preorder(text)[j], n)
    ensures j < |AfterScan(objs, text).entries|
    ensures j in AfterResolve(objs, text).built && n in AfterResolve(objs, text).seen
    ensures AfterResolve(objs, text).built[j] < |AfterResolve(objs, text).objs|
    ensures AfterResolve(objs, text).objs[AfterResolve(objs, text).built[j]].parent == AfterScan(objs, text).entries[j].parent
    ensures !Explicit(Preorder(text), n) && !Bare(Preorder(text), j, n) ==>
              AfterResolve(objs, text).objs[AfterResolve(objs, text).built[j]].kind == TabStop(n) &&
              AfterResolve(objs, text).seen[n] == AfterResolve(objs, text).built[j]
    ensures Explicit(Preorder(text), n) || Bare(Preorder(text), j, n) ==>
              AfterResolve(objs, text).objs[AfterResolve(objs, text).built[j]].kind == Mirror(AfterResolve(objs, text).seen[n])
  {
    var s := AfterScan(objs, text);
    ScanKeepsValid(Start(objs), 0, text);
    ScanFlattens(objs, text);
    ScanLeavesReferences(objs, text);
    ScanRegistersLastExplicit(objs, text);
    ResolveMirror(s, 0, j);
    ReferencedBare(s.entries, Preorder(text), j, n);
  }

  /** No transformation has an object when the linking pass starts. */
  lemma ResolveLeavesTransforms(objs: seq<Node>, text: seq<Token>)
    requires Arena(objs)
    ensures TransformsUnbuilt(AfterResolve(objs, text), 0) && Valid(AfterResolve(objs, text))
  {
    var s, r := AfterScan(objs, text), AfterResolve(objs, text);
    ScanLeavesReferences(objs, text);
    assert TransformsUnbuilt(r, 0) by {
      ScanKnowsParents(objs, text);
      ResolveNewKeys(s, 0);
    }
    assert Valid(r) by {
      ScanKeepsValid(Start(objs), 0, text);
      ResolveKeepsValid(s, 0);
    }
  }

  /** The parse fails exactly when a transformation targets a number that
      is neither an explicit tabstop nor a bare reference, and then it
      reports such a number. */
  lemma ParseFails(objs: seq<Node>, text: seq<Token>, addTsZero: bool)
    requires Arena(objs) && EndsWithEndOfText(text)
    ensures ParseResult(objs, text, addTsZero).outcome.UnknownTabStop? <==>
      exists j :: 0 <= j < |Preorder(text)| && Preorder(text)[j].TransformationToken? &&
        !Registered(Preorder(text), Preorder(text)[j].no)
    ensures ParseResult(objs, text, addTsZero).outcome.UnknownTabStop? ==>
      !Registered(Preorder(text), ParseResult(objs, text, addTsZero).outcome.no) &&
      exists j :: 0 <= j < |Preorder(text)| && Transforms(Preorder(text)[j], ParseResult(objs, text, addTsZero).outcome.no)
  {
    var r, flat := AfterResolve(objs, text), Preorder(text);
    ScanFlattens(objs, text);
    ResolveRegistry(objs, text);
    LinkFails(r, 0);
    assert Tokens(r.entries) == flat;
  }

  /** After a successful parse, every transformation has its object under
      the entry's parent, bound to the TabStop registered under its number. */
  lemma TransformationLinked(objs: seq<Node>, text: seq<Token>, addTsZero: bool, j: nat, n: int)
    requires Arena(objs) && EndsWithEndOfText(text) && ParseResult(objs, text, addTsZero).outcome.Done?
    requires j < |Preorder(text)| && Transforms(Preorder(text)[j], n)
    ensures Registered(Preorder(text), n) && n in Final(objs, text, addTsZero).seen
    ensures j in Final(objs, text, addTsZero).built && j < |Final(objs, text, addTsZero).entries|
    ensures Final(objs, text, addTsZero).built[j] < |Final(objs, text, addTsZero).objs|
    ensures Final(objs, text, addTsZero).objs[Final(objs, text, addTsZero).built[j]].kind ==
      Transformation(Final(objs, text, addTsZero).seen[n])
    ensures Final(objs, text, addTsZero).objs[Final(objs, text, addTsZero).built[j]].parent ==
      Final(objs, text, addTsZero).entries[j].parent
  {
    var r, flat := AfterResolve(objs, text), Preorder(text);
    var l := AfterLink(objs, text).state;
    ScanFlattens(objs, text);
    ResolveRegistry(objs, text);
    ResolveLeavesTransforms(objs, text);
    assert Tokens(r.entries) == flat;
    LinkBinds(r, 0, j);
    LinkKeepsValid(r, 0);
    AddTabStopZeroKeepsValid(l, addTsZero, text[|text| - 1].end);
  }

  /** The TabStop 0 is added exactly when asked for and 0 is not registered:
      an empty TabStop at the end of the last token, attached last to the
      parser's object and entered in its table; otherwise the linking
      pass's state is the result. */
  lemma TabStopZero(objs: seq<Node>, text: seq<Token>, addTsZero: bool)
    requires Arena(objs) && EndsWithEndOfText(text) && ParseResult(objs, text, addTsZero).outcome.Done?
    ensures addTsZero && !Registered(Preorder(text), 0) ==>
      && |Final(objs, text, addTsZero).objs| == |AfterLink(objs, text).state.objs| + 1
      && Final(objs, text, addTsZero).objs[|AfterLink(objs, text).state.objs|] ==
           Node(TabStop(0), 0, [], map[], text[|text| - 1].end, text[|text| - 1].end)
      && Final(objs, text, addTsZero).objs[0].children ==
           AfterLink(objs, text).state.objs[0].children + [|AfterLink(objs, text).state.objs|]
      && Final(objs, text, addTsZero).objs[0].tabstops ==
           AfterLink(objs, text).state.objs[0].tabstops[0 := |AfterLink(objs, text).state.objs|]
      && forall i :: 0 < i < |AfterLink(objs, text).state.objs| ==>
           Final(objs, text, addTsZero).objs[i] == AfterLink(objs, text).state.objs[i]
    ensures !(addTsZero && !Registered(Preorder(text), 0)) ==>
      Final(objs, text, addTsZero) == AfterLink(objs, text).state
  {
    var l := AfterLink(objs, text).state;
    var mark := text[|text| - 1].end;
    ResolveRegistry(objs, text);
    AttachAt(l.objs, 0, TabStop(0), mark, mark);
  }

  /** A successful parse adds one object for each creating token, each bare
      reference and each transformation of the flattened text, and one more
      for the tabstop 0 when it is added. */
  lemma ParseCount(objs: seq<Node>, text: seq<Token>, addTsZero: bool)
    requires Arena(objs) && EndsWithEndOfText(text) && ParseResult(objs, text, addTsZero).outcome.Done?
    ensures |Final(objs, text, addTsZero).objs| ==
      |objs| + CountCreating(Preorder(text)) + CountRefs(Preorder(text)) + CountTransforms(Preorder(text)) +
      (if addTsZero && !Registered(Preorder(text), 0) then 1 else 0)
  {
    var s, r := AfterScan(objs, text), AfterResolve(objs, text);
    ScanFlattens(objs, text);
    ScanCreates(objs, text);
    ScanKnowsParents(objs, text);
    ResolveCount(s, 0);
    assert Tokens(s.entries)[0..] == Tokens(r.entries);
    LinkCount(r, 0);
    TabStopZero(objs, text, addTsZero);
  }

  /** Linking and the tabstop 0 leave the tables as resolution left them,
      except that the parser's object gains the tabstop 0 when it is added;
      every object made after resolution has an empty table. */
  lemma ParseTables(objs: seq<Node>, text: seq<Token>, addTsZero: bool)
    requires Arena(objs) && EndsWithEndOfText(text)
    ensures forall q :: 0 <= q < |Final(objs, text, addTsZero).objs| ==>
      Final(objs, text, addTsZero).objs[q].tabstops ==
        if q >= |AfterResolve(objs, text).objs| then map[]
        else if q == 0 && ParseResult(objs, text, addTsZero).outcome.Done? && addTsZero && !Registered(Preorder(text), 0)
        then AfterResolve(objs, text).objs[0].tabstops[0 := |AfterLink(objs, text).state.objs|]
        else AfterResolve(objs, text).objs[q].tabstops
  {
    var r, l := AfterResolve(objs, text), AfterLink(objs, text).state;
    ScanKnowsParents(objs, text);
    LinkKeepsTables(r, 0);
    if ParseResult(objs, text, addTsZero).outcome.Done? {
      TabStopZero(objs, text, addTsZero);
    }
  }

  /** The parse leaves a well-formed tree whose registry and bookkeeping
      point at the right objects, whether it succeeds or fails. */
  lemma ParseValid(objs: seq<Node>, text: seq<Token>, addTsZero: bool)
    requires Arena(objs) && EndsWithEndOfText(text)
    ensures Valid(Final(objs, text, addTsZero))
  {
    var r := AfterResolve(objs, text);
    ResolveLeavesTransforms(objs, text);
    LinkKeepsValid(r, 0);
    AddTabStopZeroKeepsValid(AfterLink(objs, text).state, addTsZero, text[|text| - 1].end);
  }

  /** The stages of `parse` one after the other, as the parser's method
      meets them: the last entry of `all_tokens` holds the EndOfText
      sentinel through every pass. */
  lemma ParseStages(objs: seq<Node>, text: seq<Token>, addTsZero: bool)
    requires Arena(objs) && EndsWithEndOfText(text)
    ensures ParentsKnown(AfterScan(objs, text)) && AfterResolve(objs, text) == ResolveFrom(AfterScan(objs, text), 0)
    ensures ParentsKnown(AfterResolve(objs, text)) && AfterLink(objs, text) == LinkFrom(AfterResolve(objs, text), 0)
    ensures var l := AfterLink(objs, text).state;
      && 0 < |l.objs| && 0 < |l.entries| && l.entries[|l.entries| - 1].token.end == text[|text| - 1].end
      && ParseResult(objs, text, addTsZero) ==
           if AfterLink(objs, text).Unknown? then Parsed(l, UnknownTabStop(AfterLink(objs, text).no))
           else Parsed(AddTabStopZero(l, addTsZero, l.entries[|l.entries| - 1].token.end), Done)
  {
    ScanKnowsParents(objs, text);
    ScanEndsWithText(objs, text);
  }

  /** In particular the objects form a tree, which the placement pass
      needs. */
  lemma ParseTree(objs: seq<Node>, text: seq<Token>, addTsZero: bool)
    requires Arena(objs) && EndsWithEndOfText(text)
    ensures Tree(Final(objs, text, addTsZero).objs)
  {
    ParseValid(objs, text, addTsZero);
  }

  /** After a successful parse, the placement pass overwrites every object
      of the tree exactly once, each before all of its descendants. */
  lemma PlacementOverwritesAll(objs: seq<Node>, text: seq<Token>, addTsZero: bool)
    requires Arena(objs) && EndsWithEndOfText(text)
    ensures Tree(Final(objs, text, addTsZero).objs)
    ensures forall m: nat :: multiset(Walk(Final(objs, text, addTsZero).objs, 0))[m] ==
              if m < |Final(objs, text, addTsZero).objs| then 1 else 0
    ensures ParentsFirst(Final(objs, text, addTsZero).objs, Walk(Final(objs, text, addTsZero).objs, 0))
  {
    var f := Final(objs, text, addTsZero).objs;
    ParseValid(objs, text, addTsZero);
    WalkVisitsEveryObjectOnce(f);
    WalkParentsFirst(f, 0);
  }
}
