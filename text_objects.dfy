/** The text objects the parser builds, kept in an arena: an object is named
    by its index, and index 0 is the object the parser was given (its
    `_parent_to`). Objects are only ever appended, so a child's index is
    always larger than its parent's. */
module TextObjects {
  import opened Lexer

  datatype Kind =
    | Root
    | EscapedChar | Visual | ShellCode | PythonCode | VimLCode
    | TabStop(no: int)
    | Mirror(tabstop: nat)
    | Transformation(tabstop: nat)

  /** One text object: what it is, its parent, its children in the order they
      were attached (`_childs`), its table of tabstops by number
      (`_tabstops`) and its span. */
  datatype Node = Node(kind: Kind, parent: nat, children: seq<nat>,
                       tabstops: map<int, nat>, start: Position, end: Position)

  ghost predicate ParentsBelow(objs: seq<Node>)
  {
    forall i :: 0 < i < |objs| ==> objs[i].parent < i
  }

  ghost predicate ChildrenLinked(objs: seq<Node>)
  {
    forall p, j :: 0 <= p < |objs| && 0 <= j < |objs[p].children| ==>
      p < objs[p].children[j] < |objs| && objs[objs[p].children[j]].parent == p
  }

  ghost predicate ParentsLinked(objs: seq<Node>)
  {
    forall i :: 0 < i < |objs| ==> objs[i].parent < |objs| && i in objs[objs[i].parent].children
  }

  ghost predicate ChildrenSorted(objs: seq<Node>)
  {
    forall p, j1, j2 :: 0 <= p < |objs| && 0 <= j1 < j2 < |objs[p].children| ==>
      objs[p].children[j1] < objs[p].children[j2]
  }

  /** The arena is a tree rooted at 0 whose child lists and parent links agree. */
  ghost predicate Tree(objs: seq<Node>)
  {
    |objs| > 0 && ParentsBelow(objs) && ChildrenLinked(objs) && ParentsLinked(objs) && ChildrenSorted(objs)
  }

  /** Tabstop tables point at tabstop children of their owner. */
  ghost predicate TablesBound(objs: seq<Node>)
  {
    forall p, n :: 0 <= p < |objs| && n in objs[p].tabstops ==>
      objs[p].tabstops[n] in objs[p].children &&
      objs[p].tabstops[n] < |objs| &&
      objs[objs[p].tabstops[n]].kind == TabStop(n)
  }

  /** Mirrors and transformations are bound to tabstops of the arena. */
  ghost predicate BindingsBound(objs: seq<Node>)
  {
    forall i :: 0 <= i < |objs| ==> Bindable(objs, objs[i].kind)
  }

  ghost predicate Bound(objs: seq<Node>)
  {
    TablesBound(objs) && BindingsBound(objs)
  }

  ghost predicate Arena(objs: seq<Node>)
  {
    Tree(objs) && Bound(objs)
  }

  /** A kind that may be given to a new object of `objs`: a mirror or a
      transformation must be bound to an existing tabstop. */
  ghost predicate Bindable(objs: seq<Node>, kind: Kind)
  {
    (kind.Mirror? || kind.Transformation?) ==>
      kind.tabstop < |objs| && objs[kind.tabstop].kind.TabStop?
  }

  /** Constructing a text object: it is appended to the arena and to the end
      of its parent's children. */
  function Attach(objs: seq<Node>, parent: nat, kind: Kind, start: Position, end: Position): (r: seq<Node>)
    requires parent < |objs|
    ensures |r| == |objs| + 1 && r[|objs|] == Node(kind, parent, [], map[], start, end)
    ensures r[parent].children == objs[parent].children + [|objs|] && r[parent].tabstops == objs[parent].tabstops
  {
    objs[parent := objs[parent].(children := objs[parent].children + [|objs|])]
      + [Node(kind, parent, [], map[], start, end)]
  }

  /** `_add_tabstop`: the parent records the tabstop under its number. */
  function AddTabStop(objs: seq<Node>, parent: nat, ts: nat, no: int): (r: seq<Node>)
    requires parent < |objs|
    ensures |r| == |objs| && r[parent].tabstops == objs[parent].tabstops[no := ts]
    ensures r[parent].kind == objs[parent].kind && r[parent].children == objs[parent].children
  {
    objs[parent := objs[parent].(tabstops := objs[parent].tabstops[no := ts])]
  }

  /** No object is lost, and every object keeps its kind, parent and span.
      Children and tables may grow. */
  predicate Grown(objs: seq<Node>, objs': seq<Node>)
  {
    && |objs| <= |objs'|
    && (forall i :: 0 <= i < |objs| ==>
          objs'[i].kind == objs[i].kind && objs'[i].parent == objs[i].parent &&
          objs'[i].start == objs[i].start && objs'[i].end == objs[i].end)
  }

  lemma GrownTransitive(a: seq<Node>, b: seq<Node>, c: seq<Node>)
    requires Grown(a, b) && Grown(b, c)
    ensures Grown(a, c)
  {
  }

  lemma AttachAt(objs: seq<Node>, parent: nat, kind: Kind, start: Position, end: Position)
    requires parent < |objs|
    ensures var r := Attach(objs, parent, kind, start, end);
      && |r| == |objs| + 1
      && r[|objs|] == Node(kind, parent, [], map[], start, end)
      && r[parent] == objs[parent].(children := objs[parent].children + [|objs|])
      && (forall i :: 0 <= i < |objs| && i != parent ==> r[i] == objs[i])
  {
  }

  lemma AttachKeepsParentsLinked(objs: seq<Node>, parent: nat, kind: Kind, start: Position, end: Position)
    requires Tree(objs) && parent < |objs|
    ensures ParentsBelow(Attach(objs, parent, kind, start, end))
    ensures ParentsLinked(Attach(objs, parent, kind, start, end))
  {
    var r := Attach(objs, parent, kind, start, end);
    AttachAt(objs, parent, kind, start, end);
    forall i | 0 < i < |r| ensures r[i].parent < |r| && i in r[r[i].parent].children {
      if i < |objs| {
        assert i in objs[objs[i].parent].children;
      } else {
        assert r[parent].children[|objs[parent].children|] == i;
      }
    }
  }

  lemma AttachKeepsChildrenLinked(objs: seq<Node>, parent: nat, kind: Kind, start: Position, end: Position)
    requires Tree(objs) && parent < |objs|
    ensures ChildrenLinked(Attach(objs, parent, kind, start, end))
  {
    var r := Attach(objs, parent, kind, start, end);
    AttachAt(objs, parent, kind, start, end);
    forall p, j | 0 <= p < |r| && 0 <= j < |r[p].children|
      ensures p < r[p].children[j] < |r| && r[r[p].children[j]].parent == p
    {
      if p != parent || j != |objs[p].children| {
        assert r[p].children[j] == objs[p].children[j];
      }
    }
  }

  lemma AttachKeepsChildrenSorted(objs: seq<Node>, parent: nat, kind: Kind, start: Position, end: Position)
    requires Tree(objs) && parent < |objs|
    ensures ChildrenSorted(Attach(objs, parent, kind, start, end))
  {
    var r := Attach(objs, parent, kind, start, end);
    AttachAt(objs, parent, kind, start, end);
    forall p, j1, j2 | 0 <= p < |r| && 0 <= j1 < j2 < |r[p].children|
      ensures r[p].children[j1] < r[p].children[j2]
    {
      if p == parent && j2 == |objs[p].children| {
        assert objs[p].children[j1] < |objs|;
      } else {
        assert r[p].children[j1] == objs[p].children[j1] && r[p].children[j2] == objs[p].children[j2];
      }
    }
  }

  lemma AttachKeepsTree(objs: seq<Node>, parent: nat, kind: Kind, start: Position, end: Position)
    requires Tree(objs) && parent < |objs|
    ensures Tree(Attach(objs, parent, kind, start, end))
  {
    AttachKeepsParentsLinked(objs, parent, kind, start, end);
    AttachKeepsChildrenLinked(objs, parent, kind, start, end);
    AttachKeepsChildrenSorted(objs, parent, kind, start, end);
  }

  lemma AttachKeepsBound(objs: seq<Node>, parent: nat, kind: Kind, start: Position, end: Position)
    requires Tree(objs) && Bound(objs) && parent < |objs| && Bindable(objs, kind)
    ensures Bound(Attach(objs, parent, kind, start, end))
  {
    var r := Attach(objs, parent, kind, start, end);
    AttachAt(objs, parent, kind, start, end);
    forall p, n | 0 <= p < |r| && n in r[p].tabstops
      ensures r[p].tabstops[n] in r[p].children && r[p].tabstops[n] < |r|
      ensures r[r[p].tabstops[n]].kind == TabStop(n)
    {
      assert r[p].tabstops == objs[p].tabstops;
      assert objs[p].tabstops[n] in objs[p].children;
    }
    forall i | 0 <= i < |r| ensures Bindable(r, r[i].kind) {
      if i < |objs| {
        assert Bindable(objs, objs[i].kind);
      }
    }
  }

  lemma AttachKeepsArena(objs: seq<Node>, parent: nat, kind: Kind, start: Position, end: Position)
    requires Arena(objs) && parent < |objs| && Bindable(objs, kind)
    ensures Arena(Attach(objs, parent, kind, start, end))
    ensures Grown(objs, Attach(objs, parent, kind, start, end))
    ensures |Attach(objs, parent, kind, start, end)| == |objs| + 1
  {
    AttachKeepsTree(objs, parent, kind, start, end);
    AttachKeepsBound(objs, parent, kind, start, end);
    AttachAt(objs, parent, kind, start, end);
  }

  lemma AddTabStopKeepsTree(objs: seq<Node>, parent: nat, ts: nat, no: int)
    requires Tree(objs) && parent < |objs|
    ensures Tree(AddTabStop(objs, parent, ts, no))
  {
    var r := AddTabStop(objs, parent, ts, no);
    assert forall i :: 0 <= i < |objs| ==> r[i].children == objs[i].children && r[i].parent == objs[i].parent;
    assert ParentsBelow(r);
    assert ChildrenLinked(r);
    assert ParentsLinked(r);
    assert ChildrenSorted(r);
  }

  lemma AddTabStopKeepsBound(objs: seq<Node>, parent: nat, ts: nat, no: int)
    requires Tree(objs) && Bound(objs) && parent < |objs|
    requires ts in objs[parent].children && objs[ts].kind == TabStop(no)
    ensures Bound(AddTabStop(objs, parent, ts, no))
  {
    var r := AddTabStop(objs, parent, ts, no);
    var j :| 0 <= j < |objs[parent].children| && objs[parent].children[j] == ts;
    assert ts < |objs|;
    forall p, n | 0 <= p < |r| && n in r[p].tabstops
      ensures r[p].tabstops[n] in r[p].children && r[p].tabstops[n] < |r|
      ensures r[r[p].tabstops[n]].kind == TabStop(n)
    {
      AddTabStopEntry(objs, parent, ts, no, p, n);
    }
    forall i | 0 <= i < |r| ensures Bindable(r, r[i].kind) {
      assert Bindable(objs, objs[i].kind);
    }
  }

  /** One entry of a table after `_add_tabstop`: the new one, or one that
      was there before. */
  lemma AddTabStopEntry(objs: seq<Node>, parent: nat, ts: nat, no: int, p: nat, n: int)
    requires TablesBound(objs) && parent < |objs| && ts < |objs|
    requires ts in objs[parent].children && objs[ts].kind == TabStop(no)
    requires p < |objs| && n in AddTabStop(objs, parent, ts, no)[p].tabstops
    ensures var r := AddTabStop(objs, parent, ts, no);
      r[p].tabstops[n] in r[p].children && r[p].tabstops[n] < |r| && r[r[p].tabstops[n]].kind == TabStop(n)
  {
    if p != parent || n != no {
      assert n in objs[p].tabstops;
    }
  }

  lemma AddTabStopKeepsArena(objs: seq<Node>, parent: nat, ts: nat, no: int)
    requires Arena(objs) && parent < |objs|
    requires ts in objs[parent].children && objs[ts].kind == TabStop(no)
    ensures Arena(AddTabStop(objs, parent, ts, no))
    ensures Grown(objs, AddTabStop(objs, parent, ts, no))
    ensures |AddTabStop(objs, parent, ts, no)| == |objs|
  {
    AddTabStopKeepsTree(objs, parent, ts, no);
    AddTabStopKeepsBound(objs, parent, ts, no);
  }
}
