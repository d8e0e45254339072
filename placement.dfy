/** The placement pass (`_replace_initial_texts`): a recursive walk from the
    root that overwrites each object and then walks its children in order.
    `Walk` is the order of the `overwrite()` calls; the lemmas show that it
    lists every object of the tree exactly once and each object before all
    of its descendants. */
module Placement {
  import opened TextObjects

  /** The objects `_place_initial_text(n)` overwrites, in order. */
  function Walk(objs: seq<Node>, n: nat): (w: seq<nat>)
    requires Tree(objs) && n < |objs|
    ensures |w| > 0 && w[0] == n && forall j :: 0 < j < |w| ==> n < w[j] < |objs|
    decreases |objs| - n, 1, 0
  {
    [n] + WalkAll(objs, objs[n].children, n)
  }

  /** The walks of the children `cs` of `n`, one after the other. */
  function WalkAll(objs: seq<Node>, cs: seq<nat>, n: nat): (w: seq<nat>)
    requires Tree(objs) && n < |objs|
    requires forall j :: 0 <= j < |cs| ==> n < cs[j] < |objs|
    ensures forall j :: 0 <= j < |w| ==> n < w[j] < |objs|
    decreases |objs| - n, 0, |cs|
  {
    if cs == [] then [] else WalkAll(objs, cs[..|cs| - 1], n) + Walk(objs, cs[|cs| - 1])
  }

  /** The children of `n` come after it in the arena. */
  lemma ChildrenAbove(objs: seq<Node>, n: nat)
    requires Tree(objs) && n < |objs|
    ensures forall j :: 0 <= j < |objs[n].children| ==> n < objs[n].children[j] < |objs|
  {
  }

  /** Walking one more child appends that child's walk. */
  lemma WalkAllSnoc(objs: seq<Node>, cs: seq<nat>, i: nat, n: nat)
    requires Tree(objs) && n < |objs| && i < |cs|
    requires forall j :: 0 <= j < |cs| ==> n < cs[j] < |objs|
    ensures WalkAll(objs, cs[..i + 1], n) == WalkAll(objs, cs[..i], n) + Walk(objs, cs[i])
  {
    assert cs[..i + 1][..i] == cs[..i];
  }

  /** `m` is `a` or lies in the subtree of `a`, following parent links. */
  ghost predicate Descends(objs: seq<Node>, m: nat, a: nat)
    requires ParentsBelow(objs) && m < |objs|
    ensures Descends(objs, m, a) ==> a <= m
    decreases m
  {
    m == a || (a < m && Descends(objs, objs[m].parent, a))
  }

  /** `m` lies in the subtree of `a` and is not `a`. */
  ghost predicate StrictlyBelow(objs: seq<Node>, m: nat, a: nat)
    requires ParentsBelow(objs)
  {
    m < |objs| && m != a && Descends(objs, m, a)
  }

  /** The child of `n` whose subtree holds `m`. */
  ghost function Up(objs: seq<Node>, m: nat, n: nat): (c: nat)
    requires Tree(objs) && StrictlyBelow(objs, m, n)
    ensures n < c <= m && objs[c].parent == n
    decreases m
  {
    if objs[m].parent == n then m else Up(objs, objs[m].parent, n)
  }

  lemma {:induction false} DescendsTransitive(objs: seq<Node>, m: nat, b: nat, a: nat)
    requires ParentsBelow(objs) && m < |objs| && b < |objs|
    requires Descends(objs, m, b) && Descends(objs, b, a)
    ensures Descends(objs, m, a)
    decreases m
  {
    if m != b {
      DescendsTransitive(objs, objs[m].parent, b, a);
      DescendsAbove(objs, objs[m].parent, a);
    }
  }

  lemma {:induction false} DescendsAbove(objs: seq<Node>, m: nat, a: nat)
    requires ParentsBelow(objs) && m < |objs| && Descends(objs, m, a)
    ensures a <= m
  {
  }

  lemma {:induction false} DescendsFromRoot(objs: seq<Node>, m: nat)
    requires ParentsBelow(objs) && m < |objs|
    ensures Descends(objs, m, 0)
    decreases m
  {
    if m != 0 {
      DescendsFromRoot(objs, objs[m].parent);
    }
  }

  /** A child `c` of `n` holds in its subtree exactly the objects below `n`
      whose way up passes through `c`. */
  lemma {:induction false} UpChild(objs: seq<Node>, m: nat, n: nat, c: nat)
    requires Tree(objs) && m < |objs| && n < c < |objs| && objs[c].parent == n
    ensures Descends(objs, m, c) <==> StrictlyBelow(objs, m, n) && Up(objs, m, n) == c
    decreases m
  {
    if m == c {
      assert Descends(objs, objs[c].parent, n);
    } else if m < c {
      if StrictlyBelow(objs, m, n) {
        assert Up(objs, m, n) <= m;
      }
    } else {
      var p := objs[m].parent;
      UpChild(objs, p, n, c);
      if Descends(objs, m, c) {
        assert Descends(objs, p, c);
        DescendsAbove(objs, p, c);
        assert p != n;
      } else if StrictlyBelow(objs, m, n) && p != n {
        assert Descends(objs, p, n);
      }
    }
  }

  /** `multiset(Walk(objs, n))` holds each object of the subtree of `n` once
      and nothing else. */
  lemma {:induction false} WalkCounts(objs: seq<Node>, n: nat)
    requires Tree(objs) && n < |objs|
    ensures forall m: nat :: multiset(Walk(objs, n))[m] == if m < |objs| && Descends(objs, m, n) then 1 else 0
    decreases |objs| - n, 1, 0
  {
    var cs := objs[n].children;
    WalkAllCounts(objs, cs, n);
    forall m: nat ensures multiset(Walk(objs, n))[m] == if m < |objs| && Descends(objs, m, n) then 1 else 0 {
      if StrictlyBelow(objs, m, n) {
        var c := Up(objs, m, n);
        assert c in cs;
      }
    }
  }

  lemma {:induction false} WalkAllCounts(objs: seq<Node>, cs: seq<nat>, n: nat)
    requires Tree(objs) && n < |objs|
    requires forall j :: 0 <= j < |cs| ==> n < cs[j] < |objs| && objs[cs[j]].parent == n
    requires forall j1, j2 :: 0 <= j1 < j2 < |cs| ==> cs[j1] < cs[j2]
    ensures forall m: nat :: multiset(WalkAll(objs, cs, n))[m] ==
              if StrictlyBelow(objs, m, n) && Up(objs, m, n) in cs then 1 else 0
    decreases |objs| - n, 0, |cs|
  {
    if cs != [] {
      var pre, c := cs[..|cs| - 1], cs[|cs| - 1];
      WalkAllCounts(objs, pre, n);
      WalkCounts(objs, c);
      assert c !in pre by {
        forall j | 0 <= j < |pre| ensures pre[j] != c {
          assert cs[j] < cs[|cs| - 1];
        }
      }
      assert forall x :: x in cs <==> x in pre || x == c by {
        assert cs == pre + [c];
      }
      WalkAllCountsStep(objs, n, cs, pre, c, WalkAll(objs, pre, n), Walk(objs, c));
    }
  }

  /** Counts in the walks of the children `pre` followed by the walk of the
      child `c`. */
  lemma WalkAllCountsStep(objs: seq<Node>, n: nat, cs: seq<nat>, pre: seq<nat>, c: nat, a: seq<nat>, b: seq<nat>)
    requires Tree(objs) && n < c < |objs| && objs[c].parent == n && c !in pre
    requires forall x :: x in cs <==> x in pre || x == c
    requires forall m: nat :: multiset(a)[m] == if StrictlyBelow(objs, m, n) && Up(objs, m, n) in pre then 1 else 0
    requires forall m: nat :: multiset(b)[m] == if m < |objs| && Descends(objs, m, c) then 1 else 0
    ensures forall m: nat :: multiset(a + b)[m] == if StrictlyBelow(objs, m, n) && Up(objs, m, n) in cs then 1 else 0
  {
    forall m: nat ensures multiset(a + b)[m] == if StrictlyBelow(objs, m, n) && Up(objs, m, n) in cs then 1 else 0 {
      if m < |objs| {
        UpChild(objs, m, n, c);
      }
    }
  }

  /** Every object of the tree is overwritten exactly once. */
  lemma WalkVisitsEveryObjectOnce(objs: seq<Node>)
    requires Tree(objs)
    ensures forall m: nat :: multiset(Walk(objs, 0))[m] == if m < |objs| then 1 else 0
  {
    WalkCounts(objs, 0);
    forall m: nat | m < |objs| ensures Descends(objs, m, 0) {
      DescendsFromRoot(objs, m);
    }
  }

  /** In `w`, every object comes before all of its descendants. */
  ghost predicate ParentsFirst(objs: seq<Node>, w: seq<nat>)
    requires ParentsBelow(objs)
  {
    forall i, j :: 0 <= i < |w| && 0 <= j < |w| && StrictlyBelow(objs, w[i], w[j]) ==> j < i
  }

  lemma {:induction false} WalkParentsFirst(objs: seq<Node>, n: nat)
    requires Tree(objs) && n < |objs|
    ensures ParentsFirst(objs, Walk(objs, n))
    decreases |objs| - n, 1, 0
  {
    WalkAllParentsFirst(objs, objs[n].children, n);
    ParentsFirstCons(objs, n, WalkAll(objs, objs[n].children, n));
  }

  /** An object put before objects of larger index keeps parents first: none
      of those can be its ancestor. */
  lemma ParentsFirstCons(objs: seq<Node>, n: nat, rest: seq<nat>)
    requires ParentsBelow(objs) && n < |objs|
    requires forall j :: 0 <= j < |rest| ==> n < rest[j] < |objs|
    requires ParentsFirst(objs, rest)
    ensures ParentsFirst(objs, [n] + rest)
  {
    var w := [n] + rest;
    forall i, j | 0 <= i < |w| && 0 <= j < |w| && StrictlyBelow(objs, w[i], w[j]) ensures j < i {
      if i > 0 && j > 0 {
        assert w[i] == rest[i - 1] && w[j] == rest[j - 1];
      }
    }
  }

  lemma {:induction false} WalkAllParentsFirst(objs: seq<Node>, cs: seq<nat>, n: nat)
    requires Tree(objs) && n < |objs|
    requires forall j :: 0 <= j < |cs| ==> n < cs[j] < |objs| && objs[cs[j]].parent == n
    requires forall j1, j2 :: 0 <= j1 < j2 < |cs| ==> cs[j1] < cs[j2]
    ensures ParentsFirst(objs, WalkAll(objs, cs, n))
    decreases |objs| - n, 0, |cs|
  {
    if cs != [] {
      var pre, c := cs[..|cs| - 1], cs[|cs| - 1];
      var a, b := WalkAll(objs, pre, n), Walk(objs, c);
      WalkAllParentsFirst(objs, pre, n);
      WalkParentsFirst(objs, c);
      WalkAllCounts(objs, pre, n);
      WalkCounts(objs, c);
      assert c !in pre by {
        forall j | 0 <= j < |pre| ensures pre[j] != c {
          assert cs[j] < cs[|cs| - 1];
        }
      }
      forall i | 0 <= i < |a| ensures !Descends(objs, a[i], c) {
        assert multiset(a)[a[i]] > 0;
        UpChild(objs, a[i], n, c);
      }
      forall j | 0 <= j < |b| ensures Descends(objs, b[j], c) {
        assert multiset(b)[b[j]] > 0;
      }
      ParentsFirstAppend(objs, a, b, c);
    }
  }

  /** Two walks one after the other keep parents first when nothing of the
      first lies under the root `c` of the second. */
  lemma ParentsFirstAppend(objs: seq<Node>, a: seq<nat>, b: seq<nat>, c: nat)
    requires ParentsBelow(objs) && c < |objs|
    requires ParentsFirst(objs, a) && ParentsFirst(objs, b)
    requires forall i :: 0 <= i < |a| ==> a[i] < |objs| && !Descends(objs, a[i], c)
    requires forall j :: 0 <= j < |b| ==> b[j] < |objs| && Descends(objs, b[j], c)
    ensures ParentsFirst(objs, a + b)
  {
    var w := a + b;
    forall i, j | 0 <= i < |w| && 0 <= j < |w| && StrictlyBelow(objs, w[i], w[j]) ensures j < i {
      if i < |a| && j >= |a| {
        assert w[i] == a[i] && w[j] == b[j - |a|];
        DescendsTransitive(objs, a[i], b[j - |a|], c);
        assert false;
      } else if i >= |a| && j >= |a| {
        assert w[i] == b[i - |a|] && w[j] == b[j - |a|];
      } else if i < |a| && j < |a| {
        assert w[i] == a[i] && w[j] == a[j];
      }
    }
  }
}
