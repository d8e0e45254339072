/** `_resolve_ambiguity`: a pass over `all_tokens` in order. A bare `$n`
    whose number is not registered yet becomes a TabStop, registered and
    added to its parent; one whose number is registered becomes a Mirror of
    the registered TabStop. Other entries are left alone. */
module Resolution {
  import opened Lexer
  import opened TextObjects
  import opened Flatten
  import opened ParseState

  /** One turn of the loop of `_resolve_ambiguity`, on entry `k`. */
  function ResolveStep(s: State, k: nat): (r: State)
    requires k < |s.entries| && ParentsKnown(s)
    ensures r.entries == s.entries && |s.objs| <= |r.objs| && ParentsKnown(r)
  {
    var e := s.entries[k];
    if e.token.MirrorToken? then
      if e.token.no !in s.seen then
        Register(Build(s, k, TabStop(e.token.no)), e.parent, |s.objs|, e.token.no)
      else
        Build(s, k, Mirror(s.seen[e.token.no]))
    else s
  }

  /** The loop of `_resolve_ambiguity` from entry `k` on. */
  function ResolveFrom(s: State, k: nat): (r: State)
    requires k <= |s.entries| && ParentsKnown(s)
    ensures r.entries == s.entries && |s.objs| <= |r.objs| && ParentsKnown(r)
    decreases |s.entries| - k
  {
    if k == |s.entries| then s else ResolveFrom(ResolveStep(s, k), k + 1)
  }

  /** Some bare `$n` among the entries `lo..hi`. */
  ghost predicate Referenced(es: seq<Entry>, lo: nat, hi: nat, n: int)
  {
    exists i :: lo <= i < hi && i < |es| && Refers(es[i].token, n)
  }

  /** No bare reference from entry `k` on has an object yet. */
  ghost predicate RefsUnbuilt(s: State, k: nat)
  {
    forall j :: k <= j < |s.entries| && s.entries[j].token.MirrorToken? ==> j !in s.built
  }

  /** The registry of `r` is that of `s` plus the numbers of the bare
      references among the entries from `k` on; registered numbers keep
      their TabStop. */
  ghost predicate SeenGrows(s: State, r: State, k: nat)
  {
    && (forall n :: n in r.seen <==> n in s.seen || Referenced(s.entries, k, |s.entries|, n))
    && (forall n :: n in s.seen ==> r.seen[n] == s.seen[n])
  }

  /** What one turn of the loop does to the state. */
  lemma ResolveStepShape(s: State, k: nat, e: Entry, r: State)
    requires k < |s.entries| && ParentsKnown(s) && e == s.entries[k] && r == ResolveStep(s, k)
    ensures e.token.MirrorToken? ==>
      && |r.objs| == |s.objs| + 1 && r.built == s.built[k := |s.objs|]
      && r.objs[|s.objs|].parent == e.parent
      && r.objs[|s.objs|].kind == (if e.token.no !in s.seen then TabStop(e.token.no) else Mirror(s.seen[e.token.no]))
      && r.seen == (if e.token.no !in s.seen then s.seen[e.token.no := |s.objs|] else s.seen)
    ensures !e.token.MirrorToken? ==> r == s
  {
    if e.token.MirrorToken? {
      if e.token.no !in s.seen {
        BuildFacts(s, k, TabStop(e.token.no));
      } else {
        BuildFacts(s, k, Mirror(s.seen[e.token.no]));
      }
    }
  }

  /** The tabstop tables after one turn: a bare reference that defines its
      tabstop enters it in its parent's table under its number
      (`_add_tabstop`), a new object has an empty table, and every other
      table is left alone. */
  lemma ResolveStepTables(s: State, k: nat, q: nat)
    requires k < |s.entries| && ParentsKnown(s) && q < |ResolveStep(s, k).objs|
    ensures ResolveStep(s, k).objs[q].tabstops ==
      if q == |s.objs| then map[]
      else if s.entries[k].token.MirrorToken? && s.entries[k].token.no !in s.seen && q == s.entries[k].parent
      then s.objs[q].tabstops[s.entries[k].token.no := |s.objs|]
      else s.objs[q].tabstops
  {
    var e := s.entries[k];
    if e.token.MirrorToken? {
      var kind := if e.token.no !in s.seen then TabStop(e.token.no) else Mirror(s.seen[e.token.no]);
      AttachAt(s.objs, e.parent, kind, e.token.start, e.token.end);
    }
  }

  /** One turn of the loop loses nothing when its entry has no object yet. */
  lemma ResolveStepExtends(s: State, k: nat)
    requires k < |s.entries| && ParentsKnown(s) && RefsUnbuilt(s, k)
    ensures Extends(s, ResolveStep(s, k)) && RefsUnbuilt(ResolveStep(s, k), k + 1)
  {
    var e := s.entries[k];
    if e.token.MirrorToken? {
      var kind := if e.token.no !in s.seen then TabStop(e.token.no) else Mirror(s.seen[e.token.no]);
      var b := Build(s, k, kind);
      BuildExtends(s, k, kind);
      if e.token.no !in s.seen {
        RegisterExtends(b, e.parent, |s.objs|, e.token.no);
        ExtendsTransitive(s, b, ResolveStep(s, k));
      }
    }
  }

  lemma {:induction false} ResolveExtends(s: State, k: nat)
    requires k <= |s.entries| && ParentsKnown(s) && RefsUnbuilt(s, k)
    ensures Extends(s, ResolveFrom(s, k))
    decreases |s.entries| - k
  {
    if k < |s.entries| {
      var s1 := ResolveStep(s, k);
      ResolveStepExtends(s, k);
      ResolveExtends(s1, k + 1);
      ExtendsTransitive(s, s1, ResolveFrom(s1, k + 1));
    }
  }

  /** After the pass, the registered numbers are those registered before
      and those of the bare references met; a registered number keeps its
      TabStop. */
  lemma {:induction false} ResolveSeen(s: State, k: nat)
    requires k <= |s.entries| && ParentsKnown(s)
    ensures SeenGrows(s, ResolveFrom(s, k), k)
    decreases |s.entries| - k
  {
    if k < |s.entries| {
      var s1 := ResolveStep(s, k);
      assert ResolveFrom(s, k) == ResolveFrom(s1, k + 1);
      ResolveSeen(s1, k + 1);
      SeenGrowsStep(s, s1, ResolveFrom(s1, k + 1), k);
    }
  }

  lemma SeenGrowsStep(s: State, s1: State, r: State, k: nat)
    requires k < |s.entries| && ParentsKnown(s) && s1 == ResolveStep(s, k)
    requires SeenGrows(s1, r, k + 1)
    ensures SeenGrows(s, r, k)
  {
    ResolveStepShape(s, k, s.entries[k], s1);
    forall n ensures n in r.seen <==> n in s.seen || Referenced(s.entries, k, |s.entries|, n) {
      if Referenced(s.entries, k, |s.entries|, n) && !Referenced(s.entries, k + 1, |s.entries|, n) {
        assert Refers(s.entries[k].token, n);
      }
      if Referenced(s1.entries, k + 1, |s.entries|, n) {
        var i :| k + 1 <= i < |s.entries| && Refers(s.entries[i].token, n);
        assert k <= i;
      }
    }
  }

  /** The bare reference at entry `j` has its object in `r`, under the
      entry's parent: a TabStop when its number was neither registered in
      `s` nor referenced by a bare reference from entry `k` on before `j`
      (and then it is the TabStop registered under its number in `r`), and
      otherwise a Mirror of the TabStop its number is registered to in `r`. */
  ghost predicate Resolved(s: State, k: nat, j: nat, r: State)
    requires j < |s.entries| && s.entries[j].token.MirrorToken?
  {
    var e := s.entries[j];
    && j in r.built && r.built[j] < |r.objs| && r.objs[r.built[j]].parent == e.parent
    && e.token.no in r.seen
    && if e.token.no !in s.seen && !Referenced(s.entries, k, j, e.token.no)
       then r.objs[r.built[j]].kind == TabStop(e.token.no) && r.seen[e.token.no] == r.built[j]
       else r.objs[r.built[j]].kind == Mirror(r.seen[e.token.no])
  }

  /** The pass turns every bare reference from entry `k` on into a TabStop
      or a Mirror as `Resolved` says. */
  lemma {:induction false} ResolveMirror(s: State, k: nat, j: nat)
    requires k <= j < |s.entries| && ParentsKnown(s) && RefsUnbuilt(s, k)
    requires s.entries[j].token.MirrorToken?
    ensures Resolved(s, k, j, ResolveFrom(s, k))
    decreases |s.entries| - k
  {
    var s1 := ResolveStep(s, k);
    assert ResolveFrom(s, k) == ResolveFrom(s1, k + 1);
    if j == k {
      ResolveMirrorHere(s, k, s1, ResolveFrom(s1, k + 1));
    } else {
      ResolveStepShape(s, k, s.entries[k], s1);
      ResolveStepExtends(s, k);
      ResolveMirror(s1, k + 1, j);
      ResolveMirrorLater(s, s1, ResolveFrom(s1, k + 1), k, j);
    }
  }

  lemma ResolveMirrorHere(s: State, k: nat, s1: State, r: State)
    requires k < |s.entries| && ParentsKnown(s) && RefsUnbuilt(s, k)
    requires s.entries[k].token.MirrorToken?
    requires s1 == ResolveStep(s, k) && r == ResolveFrom(s1, k + 1)
    ensures Resolved(s, k, k, r)
  {
    var n := s.entries[k].token.no;
    ResolveStepShape(s, k, s.entries[k], s1);
    ResolveStepExtends(s, k);
    assert Extends(s1, r) by {
      ResolveExtends(s1, k + 1);
    }
    assert SeenGrows(s1, r, k + 1) by {
      ResolveSeen(s1, k + 1);
    }
    assert !Referenced(s.entries, k, k, n);
    assert k in s1.built && s1.built[k] == |s.objs|;
  }

  lemma ResolveMirrorLater(s: State, s1: State, r: State, k: nat, j: nat)
    requires k < j < |s.entries| && ParentsKnown(s) && s1 == ResolveStep(s, k)
    requires s.entries[j].token.MirrorToken?
    requires Resolved(s1, k + 1, j, r)
    ensures Resolved(s, k, j, r)
  {
    var n := s.entries[j].token.no;
    ResolveStepShape(s, k, s.entries[k], s1);
    if !Refers(s.entries[k].token, n) {
      assert n in s1.seen <==> n in s.seen;
      if Referenced(s.entries, k, j, n) {
        var i :| k <= i < j && i < |s.entries| && Refers(s.entries[i].token, n);
        assert i != k;
      }
      assert Referenced(s.entries, k, j, n) <==> Referenced(s1.entries, k + 1, j, n);
    } else {
      assert Referenced(s.entries, k, j, n);
    }
  }

  /** The pass builds objects only for the bare references from entry `k`
      on. */
  ghost predicate NewKeysMirror(s: State, r: State, k: nat)
  {
    forall j :: j in r.built ==> j in s.built || (k <= j < |s.entries| && s.entries[j].token.MirrorToken?)
  }

  lemma {:induction false} ResolveNewKeys(s: State, k: nat)
    requires k <= |s.entries| && ParentsKnown(s)
    ensures NewKeysMirror(s, ResolveFrom(s, k), k)
    decreases |s.entries| - k
  {
    if k < |s.entries| {
      var s1 := ResolveStep(s, k);
      ResolveStepShape(s, k, s.entries[k], s1);
      ResolveNewKeys(s1, k + 1);
    }
  }

  /** The pass adds one object for each bare reference from entry `k` on,
      and no other. */
  lemma {:induction false} ResolveCount(s: State, k: nat)
    requires k <= |s.entries| && ParentsKnown(s)
    ensures |ResolveFrom(s, k).objs| == |s.objs| + CountRefs(Tokens(s.entries)[k..])
    decreases |s.entries| - k
  {
    var ts := Tokens(s.entries);
    if k < |s.entries| {
      var s1 := ResolveStep(s, k);
      ResolveStepShape(s, k, s.entries[k], s1);
      ResolveCount(s1, k + 1);
      assert ts[k..][1..] == ts[k + 1..];
    } else {
      assert ts[k..] == [];
    }
  }

  lemma ResolveStepKeepsValid(s: State, k: nat)
    requires Valid(s) && k < |s.entries| && RefsUnbuilt(s, k)
    ensures Valid(ResolveStep(s, k))
  {
    var e := s.entries[k];
    if e.token.MirrorToken? {
      if e.token.no !in s.seen {
        var b := Build(s, k, TabStop(e.token.no));
        BuildKeepsValid(s, k, TabStop(e.token.no));
        BuildFacts(s, k, TabStop(e.token.no));
        RegisterKeepsValid(b, |s.objs|, e.token.no);
      } else {
        BuildKeepsValid(s, k, Mirror(s.seen[e.token.no]));
      }
    }
  }

  lemma {:induction false} ResolveKeepsValid(s: State, k: nat)
    requires Valid(s) && k <= |s.entries| && RefsUnbuilt(s, k)
    ensures Valid(ResolveFrom(s, k))
    decreases |s.entries| - k
  {
    if k < |s.entries| {
      ResolveStepKeepsValid(s, k);
      ResolveStepExtends(s, k);
      ResolveKeepsValid(ResolveStep(s, k), k + 1);
    }
  }
}
