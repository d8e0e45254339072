/** The flattening scan, `_do_parse`: every token goes into `all_tokens`
    with its parent; an explicit tabstop is built, registered and scanned
    into at once; the TOKEN2TO kinds build their object; bare references,
    transformations and the end-of-text sentinel build nothing yet. */
module FlatteningScan {
  import opened Lexer
  import opened TextObjects
  import opened Flatten
  import opened ParseState

  /** The TOKEN2TO table. */
  function Token2To(t: Token): (k: Kind)
    requires IsLeaf(t)
    ensures !k.Root? && !k.TabStop? && !k.Mirror? && !k.Transformation?
  {
    match t
    case EscapeCharToken(_, _) => EscapedChar
    case VisualToken(_, _) => Visual
    case ShellCodeToken(_, _) => ShellCode
    case PythonCodeToken(_, _) => PythonCode
    case VimLCodeToken(_, _) => VimLCode
  }

  /** The kind of object the scan builds for a token that creates one. */
  function ScanKind(t: Token): Kind
    requires Creates(t)
  {
    if t.TabStopToken? then TabStop(t.no) else Token2To(t)
  }

  /** One turn of the loop of `_do_parse`, without the recursion into a
      tabstop's initial text. */
  function Enter(s: State, p: nat, t: Token): (r: State)
    requires p < |s.objs|
    ensures r.entries == s.entries + [Entry(p, t)]
    ensures |r.objs| == |s.objs| + (if Creates(t) then 1 else 0)
  {
    var k := |s.entries|;
    var s1 := Append(s, p, t);
    if t.TabStopToken? then
      var s2 := Build(s1, k, TabStop(t.no));
      Register(s2, p, |s.objs|, t.no)
    else if IsLeaf(t) then
      Build(s1, k, Token2To(t))
    else s1
  }

  /** The recursive `_do_parse` into the initial text of a tabstop token,
      under the tabstop `q` just built for it; nothing for other tokens. */
  function Nest(s1: State, q: nat, t: Token): (r: State)
    requires t.TabStopToken? ==> q < |s1.objs|
    ensures |s1.objs| <= |r.objs|
    decreases t, 0
  {
    if t.TabStopToken? then Scan(s1, q, t.initialText) else s1
  }

  /** `_do_parse` of the tokens `ts` under parent `p`, sharing the state. */
  function Scan(s: State, p: nat, ts: seq<Token>): (r: State)
    requires p < |s.objs|
    ensures |s.objs| <= |r.objs|
    decreases ts, 1
  {
    if ts == [] then s else Scan(Nest(Enter(s, p, ts[0]), |s.objs|, ts[0]), p, ts[1..])
  }

  /** What one turn of the loop changes: the pair is appended, a creating
      token builds its object under `p`, and an explicit tabstop is
      registered under its number. */
  lemma EnterShape(s: State, p: nat, t: Token, r: State)
    requires p < |s.objs| && r == Enter(s, p, t)
    ensures && r.entries == s.entries + [Entry(p, t)]
      && (Creates(t) ==> |r.objs| == |s.objs| + 1 && r.built == s.built[|s.entries| := |s.objs|])
      && (Creates(t) ==> r.objs[|s.objs|].kind == ScanKind(t) && r.objs[|s.objs|].parent == p)
      && (!Creates(t) ==> r.objs == s.objs && r.built == s.built)
      && (t.TabStopToken? ==> r.seen == s.seen[t.no := |s.objs|])
      && (!t.TabStopToken? ==> r.seen == s.seen)
  {
    var s1 := Append(s, p, t);
    if t.TabStopToken? {
      BuildFacts(s1, |s.entries|, TabStop(t.no));
    } else if IsLeaf(t) {
      BuildFacts(s1, |s.entries|, Token2To(t));
    }
  }

  /** The tabstop tables after one turn: an explicit tabstop is entered in
      its parent's table under its number (`_add_tabstop`), a new object
      has an empty table, and every other table is left alone. */
  lemma EnterTables(s: State, p: nat, t: Token, q: nat)
    requires p < |s.objs| && q < |Enter(s, p, t).objs|
    ensures Enter(s, p, t).objs[q].tabstops ==
      if q == |s.objs| then map[]
      else if q == p && t.TabStopToken? then s.objs[p].tabstops[t.no := |s.objs|]
      else s.objs[q].tabstops
  {
    if t.TabStopToken? {
      AttachAt(s.objs, p, TabStop(t.no), t.start, t.end);
    } else if IsLeaf(t) {
      AttachAt(s.objs, p, Token2To(t), t.start, t.end);
    }
  }

  /** One turn of the loop loses nothing and keeps the bookkeeping within
      the state. */
  lemma EnterExtends(s: State, p: nat, t: Token, r: State)
    requires BuiltBelow(s) && p < |s.objs| && r == Enter(s, p, t)
    ensures Extends(s, r) && BuiltBelow(r)
  {
    var s1 := Append(s, p, t);
    EnterShape(s, p, t, r);
    AppendExtends(s, p, t);
    if t.TabStopToken? {
      var s2 := Build(s1, |s.entries|, TabStop(t.no));
      BuildExtends(s1, |s.entries|, TabStop(t.no));
      RegisterExtends(s2, p, |s.objs|, t.no);
      ExtendsTransitive(s, s1, s2);
      ExtendsTransitive(s, s2, r);
    } else if IsLeaf(t) {
      BuildExtends(s1, |s.entries|, Token2To(t));
      ExtendsTransitive(s, s1, r);
    }
  }

  lemma {:induction false} ScanExtends(s: State, p: nat, ts: seq<Token>)
    requires BuiltBelow(s) && p < |s.objs|
    ensures Extends(s, Scan(s, p, ts)) && BuiltBelow(Scan(s, p, ts))
    decreases ts, 1
  {
    if ts != [] {
      var s1 := Enter(s, p, ts[0]);
      var s2 := Nest(s1, |s.objs|, ts[0]);
      StepExtends(s, p, ts[0], s1, s2);
      ScanExtends(s2, p, ts[1..]);
      ExtendsTransitive(s, s2, Scan(s2, p, ts[1..]));
    }
  }

  lemma {:induction false} NestExtends(s1: State, q: nat, t: Token)
    requires BuiltBelow(s1) && (t.TabStopToken? ==> q < |s1.objs|)
    ensures Extends(s1, Nest(s1, q, t)) && BuiltBelow(Nest(s1, q, t))
    decreases t, 0
  {
    if t.TabStopToken? {
      ScanExtends(s1, q, t.initialText);
    }
  }

  /** One turn of the loop with the scan of a tabstop's initial text. */
  lemma {:induction false} StepExtends(s: State, p: nat, t: Token, s1: State, s2: State)
    requires BuiltBelow(s) && p < |s.objs| && s1 == Enter(s, p, t) && s2 == Nest(s1, |s.objs|, t)
    ensures BuiltBelow(s1) && BuiltBelow(s2) && Extends(s, s2)
    decreases t, 1
  {
    EnterExtends(s, p, t, s1);
    NestExtends(s1, |s.objs|, t);
    ExtendsTransitive(s, s1, s2);
  }

  /** One turn of the loop of `_do_parse`, then the rest of the tokens. */
  lemma ScanUnfold(s: State, p: nat, ts: seq<Token>)
    requires p < |s.objs| && ts != []
    ensures Scan(s, p, ts) == Scan(Nest(Enter(s, p, ts[0]), |s.objs|, ts[0]), p, ts[1..])
  {
  }

  /** One turn of the loop appends exactly the current token. */
  lemma EnterTokens(s: State, p: nat, t: Token)
    requires p < |s.objs|
    ensures Tokens(Enter(s, p, t).entries) == Tokens(s.entries) + [t]
  {
    EnterShape(s, p, t, Enter(s, p, t));
    TokensAppend(s.entries, [Entry(p, t)]);
  }

  /** Regrouping the three pieces the scan appends for one token. */
  lemma Regroup(x: seq<Token>, y: seq<Token>, z: seq<Token>, a: seq<Token>, t: Token, i: seq<Token>, b: seq<Token>)
    requires z == a + [t] && y == z + i && x == y + b
    ensures x == a + ([t] + i + b)
  {
  }

  lemma {:induction false} ScanAppendsPreorder(s: State, p: nat, ts: seq<Token>)
    requires p < |s.objs|
    ensures Tokens(Scan(s, p, ts).entries) == Tokens(s.entries) + Preorder(ts)
    decreases ts, 1
  {
    if ts == [] {
      assert Tokens(s.entries) + [] == Tokens(s.entries);
    } else {
      var t := ts[0];
      var s1 := Enter(s, p, t);
      var s2 := Nest(s1, |s.objs|, t);
      var r := Scan(s2, p, ts[1..]);
      ScanUnfold(s, p, ts);
      EnterTokens(s, p, t);
      NestAppendsPreorder(s1, |s.objs|, t);
      ScanAppendsPreorder(s2, p, ts[1..]);
      PreorderUnfold(ts);
      Regroup(Tokens(r.entries), Tokens(s2.entries), Tokens(s1.entries), Tokens(s.entries), t, Inner(t), Preorder(ts[1..]));
    }
  }

  lemma {:induction false} NestAppendsPreorder(s1: State, q: nat, t: Token)
    requires t.TabStopToken? ==> q < |s1.objs|
    ensures Tokens(Nest(s1, q, t).entries) == Tokens(s1.entries) + Inner(t)
    ensures |Nest(s1, q, t).entries| == |s1.entries| + |Inner(t)|
    decreases t, 0
  {
    if t.TabStopToken? {
      ScanAppendsPreorder(s1, q, t.initialText);
    } else {
      assert Tokens(s1.entries) + [] == Tokens(s1.entries);
    }
  }

  /** The entries `B..B+|flat|` of `r.entries` built an object exactly when
      their token creates one, of the kind `TOKEN2TO` (or TabStop) gives,
      and each such object was appended at index `o` or later. */
  ghost predicate Builds(r: State, B: nat, o: nat, flat: seq<Token>)
  {
    forall j :: 0 <= j < |flat| ==> BuildsAt(r, B, o, flat, j)
  }

  /** `y` built objects only for entries that `x` had built or from `K` on. */
  ghost predicate NewKeysFrom(x: State, y: State, K: nat)
  {
    forall k :: k in y.built ==> k in x.built || K <= k
  }

  lemma BuildsConcat(x: State, y: State, B: nat, o: nat, f1: seq<Token>, o2: nat, f2: seq<Token>)
    requires Builds(x, B, o, f1) && Builds(y, B + |f1|, o2, f2) && Extends(x, y) && o <= o2
    requires NewKeysFrom(x, y, B + |f1|)
    ensures Builds(y, B, o, f1 + f2)
  {
    forall j | 0 <= j < |f1 + f2| ensures BuildsAt(y, B, o, f1 + f2, j) {
      if j < |f1| {
        BuildsKept(x, y, B, o, f1, j);
      } else {
        BuildsShifted(y, B, o2, o, f1, f2, j);
      }
    }
  }

  ghost predicate BuildsAt(r: State, B: nat, o: nat, flat: seq<Token>, j: nat)
    requires j < |flat|
  {
    && (B + j in r.built <==> Creates(flat[j]))
    && (B + j in r.built ==>
          o <= r.built[B + j] < |r.objs| && Creates(flat[j]) &&
          r.objs[r.built[B + j]].kind == ScanKind(flat[j]))
  }

  lemma BuildsKept(x: State, y: State, B: nat, o: nat, f1: seq<Token>, j: nat)
    requires Builds(x, B, o, f1) && Extends(x, y) && NewKeysFrom(x, y, B + |f1|)
    requires j < |f1|
    ensures forall f2 :: BuildsAt(y, B, o, f1 + f2, j)
  {
    assert BuildsAt(x, B, o, f1, j);
    forall f2 ensures BuildsAt(y, B, o, f1 + f2, j) {
      assert (f1 + f2)[j] == f1[j];
    }
  }

  lemma BuildsShifted(y: State, B: nat, o2: nat, o: nat, f1: seq<Token>, f2: seq<Token>, j: nat)
    requires Builds(y, B + |f1|, o2, f2) && o <= o2
    requires |f1| <= j < |f1| + |f2|
    ensures BuildsAt(y, B, o, f1 + f2, j)
  {
    assert BuildsAt(y, B + |f1|, o2, f2, j - |f1|);
    assert (f1 + f2)[j] == f2[j - |f1|];
  }

  /** The scan builds one object for each flattened token that creates one
      (the TOKEN2TO kinds and explicit tabstops), of the matching kind. */
  lemma {:induction false} ScanBuilds(s: State, p: nat, ts: seq<Token>)
    requires BuiltBelow(s) && p < |s.objs|
    ensures Builds(Scan(s, p, ts), |s.entries|, |s.objs|, Preorder(ts))
    decreases ts, 1
  {
    if ts != [] {
      var t := ts[0];
      ScanBuildsFirst(s, p, t);
      ScanBuildsRest(Nest(Enter(s, p, t), |s.objs|, t), p, ts, |s.entries|, |s.objs|, [t] + Inner(t));
      PreorderUnfold(ts);
      ScanUnfold(s, p, ts);
    }
  }

  /** The first token and its initial text. */
  lemma {:induction false} ScanBuildsFirst(s: State, p: nat, t: Token)
    requires BuiltBelow(s) && p < |s.objs|
    ensures Builds(Nest(Enter(s, p, t), |s.objs|, t), |s.entries|, |s.objs|, [t] + Inner(t))
    ensures |Nest(Enter(s, p, t), |s.objs|, t).entries| == |s.entries| + |[t] + Inner(t)|
    ensures BuiltBelow(Nest(Enter(s, p, t), |s.objs|, t))
    decreases t, 2
  {
    var s1 := Enter(s, p, t);
    StepExtends(s, p, t, s1, Nest(s1, |s.objs|, t));
    EnterBuilds(s, p, t);
    NestBuilds(s1, |s.objs|, t);
  }

  /** The tokens after the first continue from the state reached after the
      first token and its initial text. */
  lemma {:induction false} ScanBuildsRest(s2: State, p: nat, ts: seq<Token>, B: nat, O: nat, f1: seq<Token>)
    requires BuiltBelow(s2) && p < |s2.objs| && ts != [] && O <= |s2.objs|
    requires Builds(s2, B, O, f1) && |s2.entries| == B + |f1|
    ensures Builds(Scan(s2, p, ts[1..]), B, O, f1 + Preorder(ts[1..]))
    decreases ts, 0
  {
    var r := Scan(s2, p, ts[1..]);
    ScanBuilds(s2, p, ts[1..]);
    ScanNewKeys(s2, p, ts[1..]);
    ScanExtends(s2, p, ts[1..]);
    BuildsConcat(s2, r, B, O, f1, |s2.objs|, Preorder(ts[1..]));
  }

  lemma EnterBuilds(s: State, p: nat, t: Token)
    requires BuiltBelow(s) && p < |s.objs|
    ensures Builds(Enter(s, p, t), |s.entries|, |s.objs|, [t])
    ensures |Enter(s, p, t).entries| == |s.entries| + 1
  {
    EnterShape(s, p, t, Enter(s, p, t));
  }

  /** The objects built for a token and for its initial text. */
  lemma {:induction false} NestBuilds(s1: State, q: nat, t: Token)
    requires BuiltBelow(s1) && (t.TabStopToken? ==> q < |s1.objs|) && |s1.entries| > 0
    requires Builds(s1, |s1.entries| - 1, q, [t])
    ensures Builds(Nest(s1, q, t), |s1.entries| - 1, q, [t] + Inner(t))
    ensures |Nest(s1, q, t).entries| == |s1.entries| + |Inner(t)|
    decreases t, 0
  {
    NestAppendsPreorder(s1, q, t);
    if t.TabStopToken? {
      var s2 := Nest(s1, q, t);
      ScanBuilds(s1, q, t.initialText);
      ScanNewKeys(s1, q, t.initialText);
      ScanExtends(s1, q, t.initialText);
      BuildsConcat(s1, s2, |s1.entries| - 1, q, [t], |s1.objs|, Inner(t));
    } else {
      assert [t] + Inner(t) == [t];
    }
  }

  /** The scan builds objects only for the entries it appends. */
  lemma {:induction false} ScanNewKeys(s: State, p: nat, ts: seq<Token>)
    requires BuiltBelow(s) && p < |s.objs|
    ensures NewKeysFrom(s, Scan(s, p, ts), |s.entries|)
    decreases ts, 1
  {
    if ts != [] {
      var t := ts[0];
      var s1 := Enter(s, p, t);
      var s2 := Nest(s1, |s.objs|, t);
      ScanUnfold(s, p, ts);
      EnterShape(s, p, t, s1);
      StepExtends(s, p, t, s1, s2);
      NestNewKeys(s1, |s.objs|, t);
      NestExtends(s1, |s.objs|, t);
      ScanNewKeys(s2, p, ts[1..]);
      ScanExtends(s2, p, ts[1..]);
    }
  }

  lemma {:induction false} NestNewKeys(s1: State, q: nat, t: Token)
    requires BuiltBelow(s1) && (t.TabStopToken? ==> q < |s1.objs|)
    ensures NewKeysFrom(s1, Nest(s1, q, t), |s1.entries|)
    decreases t, 0
  {
    if t.TabStopToken? {
      ScanNewKeys(s1, q, t.initialText);
    }
  }

  /** No object is built besides those of `Builds`. */
  lemma {:induction false} ScanCount(s: State, p: nat, ts: seq<Token>)
    requires p < |s.objs|
    ensures |Scan(s, p, ts).objs| == |s.objs| + CountCreating(Preorder(ts))
    decreases ts, 1
  {
    if ts != [] {
      var t := ts[0];
      var s1 := Enter(s, p, t);
      var s2 := Nest(s1, |s.objs|, t);
      ScanUnfold(s, p, ts);
      PreorderUnfold(ts);
      EnterShape(s, p, t, s1);
      NestCount(s1, |s.objs|, t);
      ScanCount(s2, p, ts[1..]);
      CountCreatingAppend([t] + Inner(t), Preorder(ts[1..]));
      CountCreatingAppend([t], Inner(t));
      assert CountCreating([t]) == if Creates(t) then 1 else 0 by {
        assert [t][..0] == [];
      }
    }
  }

  lemma {:induction false} NestCount(s1: State, q: nat, t: Token)
    requires t.TabStopToken? ==> q < |s1.objs|
    ensures |Nest(s1, q, t).objs| == |s1.objs| + CountCreating(Inner(t))
    decreases t, 0
  {
    if t.TabStopToken? {
      ScanCount(s1, q, t.initialText);
    }
  }

  /** Between `s` and `r`, the registry gained exactly the numbers of the
      explicit tabstops among the entries `B..B+|flat|`, each mapped to the
      object built for the last of them; other numbers kept their object. */
  ghost predicate Registers(s: State, r: State, B: nat, flat: seq<Token>)
  {
    var L := LastTabStops(flat);
    && (forall n :: n in r.seen <==> n in s.seen || n in L)
    && (forall n :: n in L ==> B + L[n] in r.built && r.seen[n] == r.built[B + L[n]])
    && (forall n :: n in s.seen && n !in L ==> r.seen[n] == s.seen[n])
  }

  lemma RegistersConcat(x: State, y: State, z: State, B: nat, f1: seq<Token>, f2: seq<Token>)
    requires Registers(x, y, B, f1) && Registers(y, z, B + |f1|, f2) && Extends(y, z)
    ensures Registers(x, z, B, f1 + f2)
  {
    var L1, L2, L := LastTabStops(f1), LastTabStops(f2), LastTabStops(f1 + f2);
    forall n
      ensures n in z.seen <==> n in x.seen || n in L
      ensures n in L ==> B + L[n] in z.built && z.seen[n] == z.built[B + L[n]]
      ensures n in x.seen && n !in L ==> z.seen[n] == x.seen[n]
    {
      LastTabStopsAppend(f1, f2, n);
    }
  }

  lemma EnterRegisters(s: State, p: nat, t: Token)
    requires p < |s.objs|
    ensures Registers(s, Enter(s, p, t), |s.entries|, [t])
  {
    EnterShape(s, p, t, Enter(s, p, t));
    assert [t][..0] == [];
  }

  lemma {:induction false} ScanRegistry(s: State, p: nat, ts: seq<Token>)
    requires BuiltBelow(s) && p < |s.objs|
    ensures Registers(s, Scan(s, p, ts), |s.entries|, Preorder(ts))
    decreases ts, 1
  {
    if ts == [] {
      assert LastTabStops([]) == map[];
    } else {
      var t := ts[0];
      ScanRegistryFirst(s, p, t);
      ScanRegistryRest(s, Nest(Enter(s, p, t), |s.objs|, t), p, ts, |s.entries|, [t] + Inner(t));
      PreorderUnfold(ts);
      ScanUnfold(s, p, ts);
    }
  }

  /** The first token and its initial text. */
  lemma {:induction false} ScanRegistryFirst(s: State, p: nat, t: Token)
    requires BuiltBelow(s) && p < |s.objs|
    ensures Registers(s, Nest(Enter(s, p, t), |s.objs|, t), |s.entries|, [t] + Inner(t))
    ensures |Nest(Enter(s, p, t), |s.objs|, t).entries| == |s.entries| + |[t] + Inner(t)|
    ensures BuiltBelow(Nest(Enter(s, p, t), |s.objs|, t))
    decreases t, 2
  {
    var s1 := Enter(s, p, t);
    StepExtends(s, p, t, s1, Nest(s1, |s.objs|, t));
    EnterRegisters(s, p, t);
    EnterShape(s, p, t, s1);
    NestRegistry(s, s1, |s.objs|, t);
    NestAppendsPreorder(s1, |s.objs|, t);
  }

  /** The tokens after the first continue from the state reached after the
      first token and its initial text. */
  lemma {:induction false} ScanRegistryRest(s: State, s2: State, p: nat, ts: seq<Token>, B: nat, f1: seq<Token>)
    requires BuiltBelow(s2) && p < |s2.objs| && ts != []
    requires Registers(s, s2, B, f1) && |s2.entries| == B + |f1|
    ensures Registers(s, Scan(s2, p, ts[1..]), B, f1 + Preorder(ts[1..]))
    decreases ts, 0
  {
    var r := Scan(s2, p, ts[1..]);
    ScanRegistry(s2, p, ts[1..]);
    ScanExtends(s2, p, ts[1..]);
    RegistersConcat(s, s2, r, B, f1, Preorder(ts[1..]));
  }

  lemma {:induction false} NestRegistry(s: State, s1: State, q: nat, t: Token)
    requires BuiltBelow(s1) && (t.TabStopToken? ==> q < |s1.objs|) && |s1.entries| > 0
    requires Registers(s, s1, |s1.entries| - 1, [t])
    ensures Registers(s, Nest(s1, q, t), |s1.entries| - 1, [t] + Inner(t))
    decreases t, 0
  {
    if t.TabStopToken? {
      ScanRegistry(s1, q, t.initialText);
      ScanExtends(s1, q, t.initialText);
      RegistersConcat(s, s1, Nest(s1, q, t), |s1.entries| - 1, [t], Inner(t));
    } else {
      assert [t] + Inner(t) == [t];
    }
  }

  /** Entry `B + j` was appended under `p` when its owner `os[j]` lies
      before `B` (the top level), and otherwise under the object built for
      entry `os[j]`, the tabstop whose initial text holds it. */
  ghost predicate ParentAt(r: State, B: nat, p: nat, os: seq<int>, j: nat)
    requires j < |os| && B + j < |r.entries|
  {
    if os[j] < B then r.entries[B + j].parent == p
    else os[j] as nat in r.built && r.entries[B + j].parent == r.built[os[j] as nat]
  }

  ghost predicate Parents(r: State, B: nat, p: nat, os: seq<int>)
  {
    B + |os| <= |r.entries| && forall j :: 0 <= j < |os| ==> ParentAt(r, B, p, os, j)
  }

  lemma ParentsConcat(x: State, y: State, B: nat, p: nat, owner: int, o1: seq<int>, o2: seq<int>)
    requires Parents(x, B, p, o1) && Parents(y, B + |o1|, p, o2) && Extends(x, y)
    requires owner < B && OwnedBefore(o2, owner, B + |o1|)
    ensures Parents(y, B, p, o1 + o2)
  {
    forall j | 0 <= j < |o1 + o2| ensures ParentAt(y, B, p, o1 + o2, j) {
      if j < |o1| {
        assert ParentAt(x, B, p, o1, j);
        assert (o1 + o2)[j] == o1[j];
      } else {
        assert ParentAt(y, B + |o1|, p, o2, j - |o1|);
        assert (o1 + o2)[j] == o2[j - |o1|];
      }
    }
  }

  lemma ParentsNest(x: State, y: State, B: nat, p: nat, q: nat, owner: int, oi: seq<int>)
    requires B < |x.entries| && x.entries[B].parent == p && owner < B
    requires B in y.built && y.built[B] == q
    requires Parents(y, B + 1, q, oi) && Extends(x, y)
    requires OwnedBefore(oi, B, B + 1)
    ensures Parents(y, B, p, [owner] + oi)
  {
    forall j | 0 <= j < |[owner] + oi| ensures ParentAt(y, B, p, [owner] + oi, j) {
      if j > 0 {
        assert ParentAt(y, B + 1, q, oi, j - 1);
        assert ([owner] + oi)[j] == oi[j - 1];
      }
    }
  }

  /** Each token is appended with its owning parent: `p` at the top level,
      and inside a tabstop's initial text the TabStop built for it. */
  lemma {:induction false} ScanParents(s: State, p: nat, ts: seq<Token>, owner: int)
    requires BuiltBelow(s) && p < |s.objs| && owner < |s.entries|
    ensures Parents(Scan(s, p, ts), |s.entries|, p, Owners(ts, owner, |s.entries|))
    decreases ts, 1
  {
    if ts == [] {
      assert Owners(ts, owner, |s.entries|) == [];
    } else {
      var B, t := |s.entries|, ts[0];
      var s2 := Nest(Enter(s, p, t), |s.objs|, t);
      ScanParentsFirst(s, p, t, owner);
      ScanParentsRest(s2, p, ts, owner, B, [owner] + InnerOwners(t, B), B + 1 + |InnerOwners(t, B)|);
      OwnersUnfold(ts, owner, B);
      ScanUnfold(s, p, ts);
    }
  }

  /** The first token and its initial text. */
  lemma {:induction false} ScanParentsFirst(s: State, p: nat, t: Token, owner: int)
    requires BuiltBelow(s) && p < |s.objs| && owner < |s.entries|
    ensures Parents(Nest(Enter(s, p, t), |s.objs|, t), |s.entries|, p, [owner] + InnerOwners(t, |s.entries|))
    ensures |Nest(Enter(s, p, t), |s.objs|, t).entries| == |s.entries| + 1 + |InnerOwners(t, |s.entries|)|
    ensures BuiltBelow(Nest(Enter(s, p, t), |s.objs|, t))
    decreases t, 2
  {
    var s1 := Enter(s, p, t);
    StepExtends(s, p, t, s1, Nest(s1, |s.objs|, t));
    EnterShape(s, p, t, s1);
    NestParents(s1, |s.objs|, t, p, owner, |s.entries|);
  }

  /** The tokens after the first continue from the state reached after the
      first token and its initial text. */
  lemma {:induction false} ScanParentsRest(s2: State, p: nat, ts: seq<Token>, owner: int, B: nat, pre: seq<int>, base: nat)
    requires BuiltBelow(s2) && p < |s2.objs| && owner < B && ts != []
    requires Parents(s2, B, p, pre) && |s2.entries| == base && base == B + |pre|
    ensures Parents(Scan(s2, p, ts[1..]), B, p, pre + Owners(ts[1..], owner, base))
    decreases ts, 0
  {
    var r, o2 := Scan(s2, p, ts[1..]), Owners(ts[1..], owner, base);
    ScanParents(s2, p, ts[1..], owner);
    ScanExtends(s2, p, ts[1..]);
    OwnersRange(ts[1..], owner, base);
    ParentsConcat(s2, r, B, p, owner, pre, o2);
  }

  lemma {:induction false} NestParents(s1: State, q: nat, t: Token, p: nat, owner: int, B: nat)
    requires BuiltBelow(s1) && B + 1 == |s1.entries| && owner < B
    requires s1.entries[B] == Entry(p, t)
    requires t.TabStopToken? ==> q < |s1.objs| && B in s1.built && s1.built[B] == q
    ensures Parents(Nest(s1, q, t), B, p, [owner] + InnerOwners(t, B))
    ensures |Nest(s1, q, t).entries| == B + 1 + |InnerOwners(t, B)|
    decreases t, 0
  {
    if t.TabStopToken? {
      var s2 := Nest(s1, q, t);
      ScanParents(s1, q, t.initialText, B);
      ScanExtends(s1, q, t.initialText);
      NestAppendsPreorder(s1, q, t);
      OwnersRange(t.initialText, B, B + 1);
      OwnersLength(t.initialText, B, B + 1);
      ParentsNest(s1, s2, B, p, q, owner, Owners(t.initialText, B, B + 1));
    } else {
      assert ParentAt(s1, B, p, [owner], 0);
      assert [owner] + [] == [owner];
    }
  }

  /** One turn of the loop keeps the arena a well-formed tree whose
      registry and bookkeeping point at the right objects. */
  lemma EnterKeepsValid(s: State, p: nat, t: Token)
    requires Valid(s) && p < |s.objs|
    ensures Valid(Enter(s, p, t))
  {
    var k, s1 := |s.entries|, Append(s, p, t);
    AppendKeepsValid(s, p, t);
    if t.TabStopToken? {
      var s2 := Build(s1, k, TabStop(t.no));
      BuildKeepsValid(s1, k, TabStop(t.no));
      BuildFacts(s1, k, TabStop(t.no));
      RegisterKeepsValid(s2, |s.objs|, t.no);
    } else if IsLeaf(t) {
      BuildKeepsValid(s1, k, Token2To(t));
    }
  }

  lemma {:induction false} ScanKeepsValid(s: State, p: nat, ts: seq<Token>)
    requires Valid(s) && p < |s.objs|
    ensures Valid(Scan(s, p, ts))
    decreases ts, 1
  {
    if ts != [] {
      var s1 := Enter(s, p, ts[0]);
      EnterKeepsValid(s, p, ts[0]);
      NestKeepsValid(s1, |s.objs|, ts[0]);
      ScanKeepsValid(Nest(s1, |s.objs|, ts[0]), p, ts[1..]);
    }
  }

  lemma {:induction false} NestKeepsValid(s1: State, q: nat, t: Token)
    requires Valid(s1) && (t.TabStopToken? ==> q < |s1.objs|)
    ensures Valid(Nest(s1, q, t))
    decreases t, 0
  {
    if t.TabStopToken? {
      ScanKeepsValid(s1, q, t.initialText);
    }
  }
}
