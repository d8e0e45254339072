/** `_create_objects_with_links_to_tabs`: a second pass over `all_tokens`.
    A transformation `${n/.../.../}` becomes a Transformation of the TabStop
    registered under `n`; if `n` is not registered, the pass stops with an
    error, leaving the objects built so far in place. */
module Linking {
  import opened Lexer
  import opened TextObjects
  import opened Flatten
  import opened ParseState

  /** How the pass ends: after the last entry, or at a transformation whose
      number is not registered (the `RuntimeError`). Either way, the state
      it leaves behind. */
  datatype LinkResult = Linked(state: State) | Unknown(no: int, state: State)

  /** The loop of `_create_objects_with_links_to_tabs` from entry `k` on. */
  function LinkFrom(s: State, k: nat): (r: LinkResult)
    requires k <= |s.entries| && ParentsKnown(s)
    ensures r.state.entries == s.entries && r.state.seen == s.seen
    ensures |s.objs| <= |r.state.objs| && ParentsKnown(r.state)
    decreases |s.entries| - k
  {
    if k == |s.entries| then Linked(s)
    else
      var e := s.entries[k];
      if e.token.TransformationToken? then
        if e.token.no !in s.seen then Unknown(e.token.no, s)
        else LinkFrom(Build(s, k, Transformation(s.seen[e.token.no])), k + 1)
      else LinkFrom(s, k + 1)
  }

  /** Some transformation among the entries from `k` on targets a number
      that `seen` does not hold. */
  ghost predicate Dangling(es: seq<Entry>, seen: map<int, nat>, k: nat)
  {
    exists j :: k <= j < |es| && es[j].token.TransformationToken? && es[j].token.no !in seen
  }

  /** No transformation from entry `k` on has an object yet. */
  ghost predicate TransformsUnbuilt(s: State, k: nat)
  {
    forall j :: k <= j < |s.entries| && s.entries[j].token.TransformationToken? ==> j !in s.built
  }

  /** The pass fails exactly when some transformation's number is not
      registered, and then it reports such a number. */
  lemma {:induction false} LinkFails(s: State, k: nat)
    requires k <= |s.entries| && ParentsKnown(s)
    ensures LinkFrom(s, k).Unknown? <==> Dangling(s.entries, s.seen, k)
    ensures LinkFrom(s, k).Unknown? ==>
      LinkFrom(s, k).no !in s.seen &&
      exists j :: k <= j < |s.entries| && Transforms(s.entries[j].token, LinkFrom(s, k).no)
    decreases |s.entries| - k
  {
    if k < |s.entries| {
      var e := s.entries[k];
      if e.token.TransformationToken? && e.token.no !in s.seen {
        assert Transforms(s.entries[k].token, e.token.no);
      } else {
        var s1 := if e.token.TransformationToken? then Build(s, k, Transformation(s.seen[e.token.no])) else s;
        assert LinkFrom(s, k) == LinkFrom(s1, k + 1);
        LinkFails(s1, k + 1);
        if Dangling(s.entries, s.seen, k) {
          var j :| k <= j < |s.entries| && s.entries[j].token.TransformationToken? && s.entries[j].token.no !in s.seen;
          assert j != k;
        }
        if LinkFrom(s, k).Unknown? {
          var j :| k + 1 <= j < |s.entries| && Transforms(s.entries[j].token, LinkFrom(s, k).no);
          assert k <= j;
        }
      }
    }
  }

  /** A successful pass loses nothing of the state it started from. */
  lemma {:induction false} LinkExtends(s: State, k: nat)
    requires k <= |s.entries| && ParentsKnown(s) && TransformsUnbuilt(s, k)
    ensures Extends(s, LinkFrom(s, k).state)
    decreases |s.entries| - k
  {
    if k < |s.entries| {
      var e := s.entries[k];
      if e.token.TransformationToken? && e.token.no in s.seen {
        var s1 := Build(s, k, Transformation(s.seen[e.token.no]));
        BuildExtends(s, k, Transformation(s.seen[e.token.no]));
        LinkExtends(s1, k + 1);
        ExtendsTransitive(s, s1, LinkFrom(s1, k + 1).state);
      } else if !e.token.TransformationToken? {
        LinkExtends(s, k + 1);
      }
    }
  }

  /** The pass touches no tabstop table: the objects it had keep theirs, and
      every object it adds has an empty one. */
  lemma {:induction false} LinkKeepsTables(s: State, k: nat)
    requires k <= |s.entries| && ParentsKnown(s)
    ensures forall q :: 0 <= q < |LinkFrom(s, k).state.objs| ==>
              LinkFrom(s, k).state.objs[q].tabstops == if q < |s.objs| then s.objs[q].tabstops else map[]
    decreases |s.entries| - k
  {
    if k < |s.entries| {
      var e := s.entries[k];
      if e.token.TransformationToken? && e.token.no in s.seen {
        var s1 := Build(s, k, Transformation(s.seen[e.token.no]));
        AttachAt(s.objs, e.parent, Transformation(s.seen[e.token.no]), e.token.start, e.token.end);
        LinkKeepsTables(s1, k + 1);
      } else if !e.token.TransformationToken? {
        LinkKeepsTables(s, k + 1);
      }
    }
  }

  /** A successful pass adds one object for each transformation from entry
      `k` on, and no other. */
  lemma {:induction false} LinkCount(s: State, k: nat)
    requires k <= |s.entries| && ParentsKnown(s)
    ensures LinkFrom(s, k).Linked? ==>
              |LinkFrom(s, k).state.objs| == |s.objs| + CountTransforms(Tokens(s.entries)[k..])
    decreases |s.entries| - k
  {
    var ts := Tokens(s.entries);
    if k < |s.entries| {
      var e := s.entries[k];
      assert ts[k..][1..] == ts[k + 1..];
      if e.token.TransformationToken? && e.token.no in s.seen {
        LinkCount(Build(s, k, Transformation(s.seen[e.token.no])), k + 1);
      } else if !e.token.TransformationToken? {
        LinkCount(s, k + 1);
      }
    } else {
      assert ts[k..] == [];
    }
  }

  /** After a successful pass, every transformation from entry `k` on has
      its object under the entry's parent, bound to the TabStop registered
      under its number. */
  lemma {:induction false} LinkBinds(s: State, k: nat, j: nat)
    requires k <= j < |s.entries| && ParentsKnown(s) && TransformsUnbuilt(s, k)
    requires s.entries[j].token.TransformationToken? && LinkFrom(s, k).Linked?
    ensures s.entries[j].token.no in s.seen
    ensures j in LinkFrom(s, k).state.built && LinkFrom(s, k).state.built[j] < |LinkFrom(s, k).state.objs|
    ensures LinkFrom(s, k).state.objs[LinkFrom(s, k).state.built[j]].parent == s.entries[j].parent
    ensures LinkFrom(s, k).state.objs[LinkFrom(s, k).state.built[j]].kind ==
      Transformation(s.seen[s.entries[j].token.no])
    decreases |s.entries| - k
  {
    var e := s.entries[k];
    if e.token.TransformationToken? {
      var kind := Transformation(s.seen[e.token.no]);
      var s1 := Build(s, k, kind);
      assert LinkFrom(s, k) == LinkFrom(s1, k + 1);
      if j == k {
        BuildFacts(s, k, kind);
        BuildExtends(s, k, kind);
        LinkExtends(s1, k + 1);
      } else {
        LinkBinds(s1, k + 1, j);
      }
    } else {
      LinkBinds(s, k + 1, j);
    }
  }

  lemma {:induction false} LinkKeepsValid(s: State, k: nat)
    requires Valid(s) && k <= |s.entries| && TransformsUnbuilt(s, k)
    ensures Valid(LinkFrom(s, k).state)
    decreases |s.entries| - k
  {
    if k < |s.entries| {
      var e := s.entries[k];
      if e.token.TransformationToken? && e.token.no in s.seen {
        var s1 := Build(s, k, Transformation(s.seen[e.token.no]));
        BuildKeepsValid(s, k, Transformation(s.seen[e.token.no]));
        LinkKeepsValid(s1, k + 1);
      } else if !e.token.TransformationToken? {
        LinkKeepsValid(s, k + 1);
      }
    }
  }
}
