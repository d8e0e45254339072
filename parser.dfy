/** The parser itself, `TOParser` in `_parser.py`: its methods change the
    object tree, the `all_tokens` list and the `seen_ts` registry in place.
    Each method is proved to do what the matching function of the passes
    describes, so the lemmas about those functions are lemmas about the
    parser. */
module Parser {
  import opened Lexer
  import opened TextObjects
  import opened Flatten
  import opened ParseState
  import opened FlatteningScan
  import opened Resolution
  import opened Linking
  import opened Placement
  import opened ParseSpec

  class TOParser {
    /** The object tree the parser builds into; index 0 is `_parent_to`. */
    var objects: seq<Node>
    /** `_text`, as the lexer tokenizes it. */
    const text: seq<Token>
    /** The `all_tokens` list of one `parse` call. */
    var allTokens: seq<Entry>
    /** The `seen_ts` registry of one `parse` call. */
    var seenTs: map<int, nat>
    /** Which entry of `allTokens` built which object. */
    ghost var built: map<nat, nat>
    /** The objects `overwrite()` was called on, in order. */
    var overwrites: seq<nat>

    ghost function Snapshot(): State
      reads this`objects, this`allTokens, this`seenTs, this`built
    {
      State(objects, allTokens, seenTs, built)
    }

    /** `TOParser(parent_to, text, indent)`, with `parent_to` the object 0
        of `tree`. */
    constructor (tree: seq<Node>, text: seq<Token>)
      ensures objects == tree && this.text == text && overwrites == []
      ensures allTokens == [] && seenTs == map[] && built == map[]
    {
      objects, this.text, overwrites := tree, text, [];
      allTokens, seenTs, built := [], map[], map[];
    }

    /** `parse(add_ts_zero)`: the passes one after the other. A
        transformation of an unknown tabstop ends it with `UnknownTabStop`
        before the tabstop 0 and the placement pass. The state it leaves is
        `Final`'s, so the lemmas of `ParseSpec` describe it; the
        placement pass overwrites the objects in the order `Walk` lists
        them. */
    method Parse(addTsZero: bool := false) returns (outcome: Outcome)
      requires Arena(objects) && EndsWithEndOfText(text)
      modifies this
      ensures Snapshot() == Final(old(objects), text, addTsZero)
      ensures outcome == ParseResult(old(objects), text, addTsZero).outcome
      ensures Tree(objects)
      ensures outcome.Done? ==> overwrites == old(overwrites) + Walk(objects, 0)
      ensures outcome.UnknownTabStop? ==> overwrites == old(overwrites)
    {
      ParseTree(objects, text, addTsZero);
      outcome := RunPasses(addTsZero);
      if outcome.Done? {
        ReplaceInitialTexts();
      }
    }

    /** Lines 38-49 of `parse`: the scan, the resolution, the linking and
        the tabstop 0. */
    method RunPasses(addTsZero: bool) returns (outcome: Outcome)
      requires Arena(objects) && EndsWithEndOfText(text)
      modifies this`objects, this`allTokens, this`seenTs, this`built
      ensures Snapshot() == Final(old(objects), text, addTsZero)
      ensures outcome == ParseResult(old(objects), text, addTsZero).outcome
    {
      ghost var objs0 := objects;
      ScanText();
      ParseStages(objs0, text, addTsZero);
      ResolveAmbiguity();
      outcome := CreateObjectsWithLinksToTabs();
      if outcome.Done? {
        AddTabStopZeroAtEnd(addTsZero);
      }
    }

    /** Lines 38-40 of `parse`: a fresh `all_tokens` and `seen_ts`, then
        `_do_parse` of the whole text under the parser's object. */
    method ScanText()
      requires 0 < |objects|
      modifies this`objects, this`allTokens, this`seenTs, this`built
      ensures Snapshot() == AfterScan(old(objects), text)
    {
      allTokens, seenTs, built := [], map[], map[];
      assert Snapshot() == Start(objects);
      DoParse(0, text);
    }

    /** Lines 46-49 of `parse`: the tabstop 0 at the end of the last token
        of `all_tokens`, which is always the EndOfText sentinel. */
    method AddTabStopZeroAtEnd(addTsZero: bool)
      requires 0 < |objects| && 0 < |allTokens|
      modifies this`objects
      ensures Snapshot() == AddTabStopZero(old(Snapshot()), addTsZero, allTokens[|allTokens| - 1].token.end)
    {
      if addTsZero && 0 !in seenTs {
        var mark := allTokens[|allTokens| - 1].token.end;
        objects := AddTabStop(Attach(objects, 0, TabStop(0), mark, mark), 0, |objects|, 0);
      }
    }

    /** `_do_parse`: the tokens `tokens` under the parent `p`. The nested
        `TOParser` for a tabstop's initial text shares `all_tokens` and
        `seen_ts`, so it is a recursive call with the new TabStop as
        parent. */
    method DoParse(p: nat, tokens: seq<Token>)
      requires p < |objects|
      modifies this`objects, this`allTokens, this`seenTs, this`built
      ensures Snapshot() == Scan(old(Snapshot()), p, tokens)
      decreases tokens
    {
      for i := 0 to |tokens|
        invariant p < |objects|
        invariant Scan(Snapshot(), p, tokens[i..]) == Scan(old(Snapshot()), p, tokens)
      {
        ghost var s := Snapshot();
        var token := tokens[i];
        allTokens := allTokens + [Entry(p, token)];
        if token.TabStopToken? {
          var ts := |objects|;
          objects := Attach(objects, p, TabStop(token.no), token.start, token.end);
          built := built[|allTokens| - 1 := ts];
          seenTs := seenTs[token.no := ts];
          objects := AddTabStop(objects, p, ts, token.no);
          assert Snapshot() == Enter(s, p, token);
          DoParse(ts, token.initialText);
        } else if IsLeaf(token) {
          built := built[|allTokens| - 1 := |objects|];
          objects := Attach(objects, p, Token2To(token), token.start, token.end);
          assert Snapshot() == Enter(s, p, token);
        } else {
          assert Snapshot() == Enter(s, p, token);
        }
        ScanUnfold(s, p, tokens[i..]);
        assert tokens[i..][1..] == tokens[i + 1..];
      }
    }

    /** `_resolve_ambiguity`. */
    method ResolveAmbiguity()
      requires ParentsKnown(Snapshot())
      modifies this`objects, this`seenTs, this`built
      ensures Snapshot() == ResolveFrom(old(Snapshot()), 0)
    {
      for i := 0 to |allTokens|
        invariant ParentsKnown(Snapshot())
        invariant ResolveFrom(Snapshot(), i) == ResolveFrom(old(Snapshot()), 0)
      {
        ghost var s := Snapshot();
        var e := allTokens[i];
        if e.token.MirrorToken? {
          if e.token.no !in seenTs {
            var ts := |objects|;
            objects := Attach(objects, e.parent, TabStop(e.token.no), e.token.start, e.token.end);
            built := built[i := ts];
            seenTs := seenTs[e.token.no := ts];
            objects := AddTabStop(objects, e.parent, ts, e.token.no);
          } else {
            built := built[i := |objects|];
            objects := Attach(objects, e.parent, Mirror(seenTs[e.token.no]), e.token.start, e.token.end);
          }
        }
        assert Snapshot() == ResolveStep(s, i);
      }
    }

    /** `_create_objects_with_links_to_tabs`; the `RuntimeError` becomes
        the outcome `UnknownTabStop`. */
    method CreateObjectsWithLinksToTabs() returns (outcome: Outcome)
      requires ParentsKnown(Snapshot())
      modifies this`objects, this`built
      ensures Snapshot() == LinkFrom(old(Snapshot()), 0).state
      ensures outcome == if LinkFrom(old(Snapshot()), 0).Unknown?
                         then UnknownTabStop(LinkFrom(old(Snapshot()), 0).no) else Done
    {
      for i := 0 to |allTokens|
        invariant ParentsKnown(Snapshot())
        invariant LinkFrom(Snapshot(), i) == LinkFrom(old(Snapshot()), 0)
      {
        ghost var s := Snapshot();
        var e := allTokens[i];
        if e.token.TransformationToken? {
          if e.token.no !in seenTs {
            return UnknownTabStop(e.token.no);
          }
          built := built[i := |objects|];
          objects := Attach(objects, e.parent, Transformation(seenTs[e.token.no]), e.token.start, e.token.end);
          assert Snapshot() == Build(s, i, Transformation(s.seen[e.token.no]));
        }
      }
      return Done;
    }

    /** `_replace_initial_texts`. */
    method ReplaceInitialTexts()
      requires Tree(objects)
      modifies this`overwrites
      ensures overwrites == old(overwrites) + Walk(objects, 0)
    {
      PlaceInitialText(0);
    }

    /** `_place_initial_text(obj)`: overwrite the object, then place each of
        its children in order. */
    method PlaceInitialText(n: nat)
      requires Tree(objects) && n < |objects|
      modifies this`overwrites
      ensures overwrites == old(overwrites) + Walk(objects, n)
      decreases |objects| - n
    {
      overwrites := overwrites + [n];
      ghost var before, placed := overwrites, [];
      var cs := objects[n].children;
      ChildrenAbove(objects, n);
      for i := 0 to |cs|
        invariant overwrites == before + placed && placed == WalkAll(objects, cs[..i], n)
      {
        PlaceInitialText(cs[i]);
        AppendAssoc(before, placed, Walk(objects, cs[i]));
        WalkAllSnoc(objects, cs, i, n);
        placed := placed + Walk(objects, cs[i]);
      }
      assert cs[..|cs|] == cs;
      AppendAssoc(old(overwrites), [n], placed);
    }
  }

  /** Regrouping the trace; stated once so that the loop of
      `PlaceInitialText` does not reason about sequence equality itself. */
  lemma AppendAssoc(a: seq<nat>, b: seq<nat>, c: seq<nat>)
    ensures a + b + c == a + (b + c)
  {
  }
}
