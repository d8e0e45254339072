/** What one `TOParser.parse` call works on: the text objects, the flat
    `all_tokens` list of (parent, token) pairs, the `seen_ts` registry, and,
    as proof bookkeeping, which entry of `all_tokens` each object was built
    from. */
module ParseState {
  import opened Lexer
  import opened TextObjects

  /** One `(parent, token)` pair of `all_tokens`. */
  datatype Entry = Entry(parent: nat, token: Token)

  /** The tokens of a run of `all_tokens`, without their parents. */
  function Tokens(es: seq<Entry>): (ts: seq<Token>)
    ensures |ts| == |es| && forall k :: 0 <= k < |es| ==> ts[k] == es[k].token
  {
    seq(|es|, k requires 0 <= k < |es| => es[k].token)
  }

  lemma TokensAppend(a: seq<Entry>, b: seq<Entry>)
    ensures Tokens(a + b) == Tokens(a) + Tokens(b)
  {
  }

  datatype State = State(objs: seq<Node>, entries: seq<Entry>, seen: map<int, nat>, built: map<nat, nat>)

  /** Every pair of `all_tokens` names an object of the arena as parent. */
  ghost predicate ParentsKnown(s: State)
  {
    forall k :: 0 <= k < |s.entries| ==> s.entries[k].parent < |s.objs|
  }

  /** `seen_ts` maps each number to a tabstop object with that number. */
  ghost predicate SeenBound(s: State)
  {
    forall n :: n in s.seen ==> 0 < s.seen[n] < |s.objs| && s.objs[s.seen[n]].kind == TabStop(n)
  }

  /** Each object built for an entry hangs under that entry's parent, and no
      object was built for two entries. */
  ghost predicate BuiltBound(s: State)
  {
    && (forall k :: k in s.built ==>
          k < |s.entries| && 0 < s.built[k] < |s.objs| && s.objs[s.built[k]].parent == s.entries[k].parent)
    && (forall k1, k2 :: k1 in s.built && k2 in s.built && k1 != k2 ==> s.built[k1] != s.built[k2])
  }

  ghost predicate Valid(s: State)
  {
    Arena(s.objs) && ParentsKnown(s) && SeenBound(s) && BuiltBound(s)
  }

  /** Only entries already in `all_tokens` have built an object, and only
      objects of the arena were built. */
  ghost predicate BuiltBelow(s: State)
  {
    forall k :: k in s.built ==> k < |s.entries| && s.built[k] < |s.objs|
  }

  /** `r` was reached from `s` by adding: every object keeps its kind,
      parent and span, every entry and build record is kept, and every
      registered number stays registered (possibly to another TabStop). */
  ghost predicate Extends(s: State, r: State)
  {
    && Grown(s.objs, r.objs)
    && |s.entries| <= |r.entries|
    && (forall k :: 0 <= k < |s.entries| ==> r.entries[k] == s.entries[k])
    && (forall k :: k in s.built ==> k in r.built && r.built[k] == s.built[k])
    && s.seen.Keys <= r.seen.Keys
  }

  lemma ExtendsTransitive(s: State, t: State, r: State)
    requires Extends(s, t) && Extends(t, r)
    ensures Extends(s, r)
  {
  }

  /** `all_tokens.append((parent, token))`. */
  function Append(s: State, p: nat, t: Token): (r: State)
    ensures r.entries == s.entries + [Entry(p, t)]
    ensures r.objs == s.objs && r.seen == s.seen && r.built == s.built
  {
    s.(entries := s.entries + [Entry(p, t)])
  }

  /** The object for entry `k` of `all_tokens` is constructed: attached to
      the entry's parent, spanning the entry's token. */
  function Build(s: State, k: nat, kind: Kind): (r: State)
    requires k < |s.entries| && s.entries[k].parent < |s.objs|
    ensures r.entries == s.entries && r.seen == s.seen && r.built == s.built[k := |s.objs|]
    ensures |r.objs| == |s.objs| + 1
  {
    var e := s.entries[k];
    AttachAt(s.objs, e.parent, kind, e.token.start, e.token.end);
    s.(objs := Attach(s.objs, e.parent, kind, e.token.start, e.token.end), built := s.built[k := |s.objs|])
  }

  /** `seen_ts[no] = ts` followed by `parent._add_tabstop(ts)`. */
  function Register(s: State, parent: nat, ts: nat, no: int): (r: State)
    requires parent < |s.objs|
    ensures r.entries == s.entries && r.built == s.built && |r.objs| == |s.objs|
    ensures r.seen == s.seen[no := ts]
  {
    s.(seen := s.seen[no := ts], objs := AddTabStop(s.objs, parent, ts, no))
  }

  lemma AppendExtends(s: State, p: nat, t: Token)
    ensures Extends(s, Append(s, p, t))
  {
  }

  /** The new object is the last of the arena, of the given kind, under the
      entry's parent and spanning its token. */
  lemma BuildFacts(s: State, k: nat, kind: Kind)
    requires k < |s.entries| && s.entries[k].parent < |s.objs|
    ensures Build(s, k, kind).objs[|s.objs|] ==
      Node(kind, s.entries[k].parent, [], map[], s.entries[k].token.start, s.entries[k].token.end)
  {
    var e := s.entries[k];
    AttachAt(s.objs, e.parent, kind, e.token.start, e.token.end);
  }

  /** Building for an entry that has no object yet loses nothing. */
  lemma BuildExtends(s: State, k: nat, kind: Kind)
    requires k < |s.entries| && s.entries[k].parent < |s.objs| && k !in s.built
    ensures Extends(s, Build(s, k, kind))
  {
    var e := s.entries[k];
    AttachAt(s.objs, e.parent, kind, e.token.start, e.token.end);
  }

  lemma RegisterExtends(s: State, parent: nat, ts: nat, no: int)
    requires parent < |s.objs|
    ensures Extends(s, Register(s, parent, ts, no))
  {
  }

  lemma AppendKeepsValid(s: State, p: nat, t: Token)
    requires Valid(s) && p < |s.objs|
    ensures Valid(Append(s, p, t))
  {
  }

  lemma BuildKeepsValid(s: State, k: nat, kind: Kind)
    requires Valid(s) && k < |s.entries| && k !in s.built && Bindable(s.objs, kind)
    ensures Valid(Build(s, k, kind))
  {
    var e, r := s.entries[k], Build(s, k, kind);
    assert Arena(r.objs) && Grown(s.objs, r.objs) by {
      AttachKeepsArena(s.objs, e.parent, kind, e.token.start, e.token.end);
    }
    assert r.objs[|s.objs|].parent == e.parent && Extends(s, r) by {
      BuildFacts(s, k, kind);
      BuildExtends(s, k, kind);
    }
    assert ParentsKnown(r);
    assert SeenBound(r);
    assert BuiltBound(r) by {
      BuildKeepsBuiltBound(s, r, k, e.parent);
    }
  }

  lemma BuildKeepsBuiltBound(s: State, r: State, k: nat, p: nat)
    requires BuiltBound(s) && BuiltBelow(s) && 0 < |s.objs| && k < |s.entries| && k !in s.built
    requires s.entries[k].parent == p
    requires r.entries == s.entries && r.built == s.built[k := |s.objs|] && |r.objs| == |s.objs| + 1
    requires Grown(s.objs, r.objs) && r.objs[|s.objs|].parent == p
    ensures BuiltBound(r)
  {
    forall k1 | k1 in r.built
      ensures k1 < |r.entries| && 0 < r.built[k1] < |r.objs| && r.objs[r.built[k1]].parent == r.entries[k1].parent
    {
      if k1 != k {
        assert r.built[k1] == s.built[k1];
      }
    }
  }

  /** Objects may be added and tables grown under a valid state without
      breaking it, as long as the arena stays one. */
  lemma GrowKeepsValid(s: State, objs: seq<Node>)
    requires Valid(s) && Arena(objs) && Grown(s.objs, objs)
    ensures Valid(s.(objs := objs))
  {
    var r := s.(objs := objs);
    forall k | k in r.built
      ensures r.objs[r.built[k]].parent == r.entries[k].parent
    {
      assert s.objs[s.built[k]].parent == s.entries[k].parent;
    }
  }

  lemma RegisterKeepsValid(s: State, ts: nat, no: int)
    requires Valid(s) && 0 < ts < |s.objs| && s.objs[ts].kind == TabStop(no)
    ensures Valid(Register(s, s.objs[ts].parent, ts, no))
  {
    var p := s.objs[ts].parent;
    assert ts in s.objs[p].children;
    AddTabStopKeepsArena(s.objs, p, ts, no);
  }
}
