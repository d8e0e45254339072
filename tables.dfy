/** The tabstop tables (`_tabstops`) the two passes fill through
    `_add_tabstop`. After the scan, each object's table maps the number of
    every explicit tabstop `${n:...}` among its entries to the TabStop built
    for the last of them. After resolution, it also maps the number of each
    bare `$n` that defined its tabstop to the TabStop built for it. */
module TabStopTables {
  import opened Lexer
  import opened TextObjects
  import opened Flatten
  import opened ParseState
  import opened FlatteningScan
  import opened Resolution

  /** The table object `q` had before a pass: its table in `o0`, or an
      empty one for an object the pass creates. */
  function Base(o0: seq<Node>, q: nat): (t: map<int, nat>)
    ensures q >= |o0| ==> t == map[]
  {
    if q < |o0| then o0[q].tabstops else map[]
  }

  /** `tab` is `base` with each number `n` of `L` mapped to the object
      built for the entry `L[n]`. */
  ghost predicate TableIs(tab: map<int, nat>, base: map<int, nat>, L: map<int, nat>, built: map<nat, nat>)
  {
    && (forall n :: n in tab <==> n in base || n in L)
    && (forall n :: n in L ==> L[n] in built && tab[n] == built[L[n]])
    && (forall n :: n in base && n !in L ==> tab[n] == base[n])
  }

  /** An explicit tabstop `${n:...}` appended under the parent `q`. */
  predicate DefinesUnder(e: Entry, q: nat, n: int)
  {
    e.parent == q && Defines(e.token, n)
  }

  /** For each number, the last entry that is an explicit tabstop with that
      number under the parent `q`. */
  function LastUnder(es: seq<Entry>, q: nat): map<int, nat>
  {
    if es == [] then map[]
    else
      var m := LastUnder(es[..|es| - 1], q);
      var e := es[|es| - 1];
      if e.parent == q && e.token.TabStopToken? then m[e.token.no := |es| - 1] else m
  }

  /** `LastUnder` holds exactly the numbers of the explicit tabstops under
      `q`, each mapped to the last entry defining it there. */
  lemma {:induction false} LastUnderMeaning(es: seq<Entry>, q: nat)
    ensures forall n :: n in LastUnder(es, q) <==> exists j :: 0 <= j < |es| && DefinesUnder(es[j], q, n)
    ensures forall n :: n in LastUnder(es, q) ==>
              LastUnder(es, q)[n] < |es| && DefinesUnder(es[LastUnder(es, q)[n]], q, n) &&
              forall j :: LastUnder(es, q)[n] < j < |es| ==> !DefinesUnder(es[j], q, n)
  {
    if es != [] {
      var pre, last := es[..|es| - 1], |es| - 1;
      var m, mp := LastUnder(es, q), LastUnder(pre, q);
      LastUnderMeaning(pre, q);
      forall n ensures n in m <==> exists j :: 0 <= j < |es| && DefinesUnder(es[j], q, n) {
        if n in mp {
          assert DefinesUnder(es[mp[n]], q, n);
        }
        if j :| 0 <= j < |es| && DefinesUnder(es[j], q, n) {
          if j < last {
            assert DefinesUnder(pre[j], q, n);
          }
        }
      }
      forall n | n in m
        ensures m[n] < |es| && DefinesUnder(es[m[n]], q, n)
        ensures forall j :: m[n] < j < |es| ==> !DefinesUnder(es[j], q, n)
      {
        if !DefinesUnder(es[last], q, n) {
          assert m[n] == mp[n];
          forall j | m[n] < j < |es| ensures !DefinesUnder(es[j], q, n) {
            if j < last {
              assert es[j] == pre[j];
            }
          }
        }
      }
    }
  }

  /** `LastUnder` is `LastTabStops` of the flattened tokens restricted to
      one parent: a number's last tabstop under `q` comes no later than its
      last tabstop anywhere, and the two are the same entry when that last
      one is under `q`. */
  lemma LastUnderWithin(es: seq<Entry>, q: nat)
    ensures forall n :: n in LastUnder(es, q) ==>
              n in LastTabStops(Tokens(es)) && LastUnder(es, q)[n] <= LastTabStops(Tokens(es))[n]
    ensures forall n ::
              (n in LastTabStops(Tokens(es)) && LastTabStops(Tokens(es))[n] < |es| &&
               es[LastTabStops(Tokens(es))[n]].parent == q) ==>
              n in LastUnder(es, q) && LastUnder(es, q)[n] == LastTabStops(Tokens(es))[n]
  {
    var flat := Tokens(es);
    LastTabStopsMeaning(flat);
    LastUnderMeaning(es, q);
    forall n | n in LastUnder(es, q)
      ensures n in LastTabStops(flat) && LastUnder(es, q)[n] <= LastTabStops(flat)[n]
    {
      var j := LastUnder(es, q)[n];
      assert Defines(flat[j], n);
    }
    forall n | n in LastTabStops(flat) && LastTabStops(flat)[n] < |es| && es[LastTabStops(flat)[n]].parent == q
      ensures n in LastUnder(es, q) && LastUnder(es, q)[n] == LastTabStops(flat)[n]
    {
      var j := LastTabStops(flat)[n];
      assert DefinesUnder(es[j], q, n);
      var i := LastUnder(es, q)[n];
      assert Defines(flat[i], n);
    }
  }

  /** No entry under `q`, no explicit tabstop under `q`. */
  lemma LastUnderNone(es: seq<Entry>, q: nat)
    requires forall j :: 0 <= j < |es| ==> es[j].parent != q
    ensures LastUnder(es, q) == map[]
  {
    LastUnderMeaning(es, q);
    assert forall n :: n !in LastUnder(es, q);
  }

  lemma LastUnderSnoc(es: seq<Entry>, e: Entry, q: nat)
    ensures LastUnder(es + [e], q) ==
      if e.parent == q && e.token.TabStopToken? then LastUnder(es, q)[e.token.no := |es|] else LastUnder(es, q)
  {
    assert (es + [e])[..|es|] == es;
  }

  /** Every object's table is its table in `o0` plus the explicit tabstops
      appended under it, as `TableIs` says. */
  ghost predicate ScanTablesHold(s: State, o0: seq<Node>)
  {
    forall q :: 0 <= q < |s.objs| ==> TableIs(s.objs[q].tabstops, Base(o0, q), LastUnder(s.entries, q), s.built)
  }

  /** One turn of the scan on the table of object `q`. */
  lemma EnterKeepsTable(s: State, p: nat, t: Token, o0: seq<Node>, q: nat)
    requires p < |s.objs| && ParentsKnown(s) && |o0| <= |s.objs| && q < |Enter(s, p, t).objs|
    requires q < |s.objs| ==> TableIs(s.objs[q].tabstops, Base(o0, q), LastUnder(s.entries, q), s.built)
    ensures TableIs(Enter(s, p, t).objs[q].tabstops, Base(o0, q), LastUnder(Enter(s, p, t).entries, q), Enter(s, p, t).built)
  {
    var r, k := Enter(s, p, t), |s.entries|;
    var L := LastUnder(s.entries, q);
    EnterShape(s, p, t, r);
    EnterTables(s, p, t, q);
    LastUnderSnoc(s.entries, Entry(p, t), q);
    LastUnderMeaning(s.entries, q);
    if q == |s.objs| {
      LastUnderNone(s.entries, q);
      assert TableIs(map[], map[], map[], r.built);
    } else if !Creates(t) {
    } else if q == p && t.TabStopToken? {
      TableIsAdd(s.objs[q].tabstops, Base(o0, q), L, s.built, k, |s.objs|, t.no);
    } else {
      TableIsBuilt(s.objs[q].tabstops, Base(o0, q), L, s.built, k, |s.objs|);
    }
  }

  /** One turn of the scan keeps the tables as `ScanTablesHold` says. */
  lemma EnterKeepsTables(s: State, p: nat, t: Token, o0: seq<Node>)
    requires p < |s.objs| && ParentsKnown(s) && |o0| <= |s.objs| && ScanTablesHold(s, o0)
    ensures ScanTablesHold(Enter(s, p, t), o0) && ParentsKnown(Enter(s, p, t))
  {
    var r := Enter(s, p, t);
    EnterShape(s, p, t, r);
    forall q | 0 <= q < |r.objs|
      ensures TableIs(r.objs[q].tabstops, Base(o0, q), LastUnder(r.entries, q), r.built)
    {
      EnterKeepsTable(s, p, t, o0, q);
    }
  }

  lemma {:induction false} ScanKeepsTables(s: State, p: nat, ts: seq<Token>, o0: seq<Node>)
    requires p < |s.objs| && ParentsKnown(s) && |o0| <= |s.objs| && ScanTablesHold(s, o0)
    ensures ScanTablesHold(Scan(s, p, ts), o0) && ParentsKnown(Scan(s, p, ts))
    decreases ts, 1
  {
    if ts != [] {
      var s1 := Enter(s, p, ts[0]);
      EnterKeepsTables(s, p, ts[0], o0);
      NestKeepsTables(s1, |s.objs|, ts[0], o0);
      ScanKeepsTables(Nest(s1, |s.objs|, ts[0]), p, ts[1..], o0);
    }
  }

  lemma {:induction false} NestKeepsTables(s1: State, q: nat, t: Token, o0: seq<Node>)
    requires (t.TabStopToken? ==> q < |s1.objs|) && ParentsKnown(s1) && |o0| <= |s1.objs| && ScanTablesHold(s1, o0)
    ensures ScanTablesHold(Nest(s1, q, t), o0) && ParentsKnown(Nest(s1, q, t))
    decreases t, 0
  {
    if t.TabStopToken? {
      ScanKeepsTables(s1, q, t.initialText, o0);
    }
  }

  /** For each number, the bare reference `$n` under the parent `q` among
      the first `hi` entries that defines its tabstop: `n` is not in the
      registry `seen0` the scan left and no bare `$n` comes before it. */
  ghost function DefiningBareUnder(es: seq<Entry>, seen0: map<int, nat>, q: nat, hi: nat): map<int, nat>
    requires hi <= |es|
  {
    if hi == 0 then map[]
    else
      var m := DefiningBareUnder(es, seen0, q, hi - 1);
      var e := es[hi - 1];
      if e.parent == q && e.token.MirrorToken? && e.token.no !in seen0 && !Referenced(es, 0, hi - 1, e.token.no)
      then m[e.token.no := hi - 1] else m
  }

  /** The bare reference at entry `j` is under `q` and defines its
      tabstop. */
  ghost predicate DefinesBareUnder(es: seq<Entry>, seen0: map<int, nat>, q: nat, j: nat, n: int)
    requires j < |es|
  {
    es[j].parent == q && Refers(es[j].token, n) && n !in seen0 && !Referenced(es, 0, j, n)
  }

  /** `DefiningBareUnder` holds exactly the numbers of the defining bare
      references under `q`, each mapped to that reference's entry. */
  lemma {:induction false} DefiningBareUnderMeaning(es: seq<Entry>, seen0: map<int, nat>, q: nat, hi: nat)
    requires hi <= |es|
    ensures forall n :: n in DefiningBareUnder(es, seen0, q, hi) <==>
              exists j :: 0 <= j < hi && DefinesBareUnder(es, seen0, q, j, n)
    ensures forall n :: n in DefiningBareUnder(es, seen0, q, hi) ==>
              DefiningBareUnder(es, seen0, q, hi)[n] < hi &&
              DefinesBareUnder(es, seen0, q, DefiningBareUnder(es, seen0, q, hi)[n], n)
  {
    if hi > 0 {
      var m, mp := DefiningBareUnder(es, seen0, q, hi), DefiningBareUnder(es, seen0, q, hi - 1);
      DefiningBareUnderMeaning(es, seen0, q, hi - 1);
      forall n ensures n in m <==> exists j :: 0 <= j < hi && DefinesBareUnder(es, seen0, q, j, n) {
        if n in mp {
          assert DefinesBareUnder(es, seen0, q, mp[n], n);
        }
        if DefinesBareUnder(es, seen0, q, hi - 1, n) {
          assert n in m;
        }
      }
    }
  }

  /** The first bare reference found defines; a later one does not. */
  lemma ReferencedSnoc(es: seq<Entry>, k: nat, n: int)
    requires k < |es|
    ensures Referenced(es, 0, k + 1, n) <==> Referenced(es, 0, k, n) || Refers(es[k].token, n)
  {
    if Referenced(es, 0, k + 1, n) && !Refers(es[k].token, n) {
      var i :| 0 <= i < k + 1 && i < |es| && Refers(es[i].token, n);
      assert i < k;
    }
  }

  /** Resolution has passed the first `k` entries: the registry is the
      scan's plus the bare numbers met, and every table is its table in
      `o0` plus the defining bare references met under it. */
  ghost predicate ResolveTablesHold(s: State, seen0: map<int, nat>, o0: seq<Node>, k: nat)
    requires k <= |s.entries|
  {
    && (forall n :: n in s.seen <==> n in seen0 || Referenced(s.entries, 0, k, n))
    && (forall q :: 0 <= q < |s.objs| ==>
          TableIs(s.objs[q].tabstops, Base(o0, q), DefiningBareUnder(s.entries, seen0, q, k), s.built))
  }

  /** A new object recorded for entry `k`, which no number of `L` names,
      leaves a table as it was. */
  lemma TableIsBuilt(tab: map<int, nat>, base: map<int, nat>, L: map<int, nat>, built: map<nat, nat>, k: nat, v: nat)
    requires TableIs(tab, base, L, built) && forall n :: n in L ==> L[n] != k
    ensures TableIs(tab, base, L, built[k := v])
  {
  }

  /** Entering `no` for the object `v` built for entry `k`. */
  lemma TableIsAdd(tab: map<int, nat>, base: map<int, nat>, L: map<int, nat>, built: map<nat, nat>, k: nat, v: nat, no: int)
    requires TableIs(tab, base, L, built) && forall n :: n in L ==> L[n] != k
    ensures TableIs(tab[no := v], base, L[no := k], built[k := v])
  {
  }

  /** One more entry under the same registry: the entry defines under `q`
      exactly when it is a bare reference under `q` whose number the
      registry does not hold yet. */
  lemma DefiningBareUnderStep(s: State, k: nat, seen0: map<int, nat>, q: nat)
    requires k < |s.entries|
    requires forall n :: n in s.seen <==> n in seen0 || Referenced(s.entries, 0, k, n)
    ensures DefiningBareUnder(s.entries, seen0, q, k + 1) ==
      var e := s.entries[k];
      if e.parent == q && e.token.MirrorToken? && e.token.no !in s.seen
      then DefiningBareUnder(s.entries, seen0, q, k)[e.token.no := k]
      else DefiningBareUnder(s.entries, seen0, q, k)
  {
  }

  /** One turn of resolution on the table of object `q`. */
  lemma ResolveStepKeepsTable(s: State, k: nat, seen0: map<int, nat>, o0: seq<Node>, q: nat)
    requires k < |s.entries| && ParentsKnown(s) && |o0| <= |s.objs| && q < |ResolveStep(s, k).objs|
    requires forall n :: n in s.seen <==> n in seen0 || Referenced(s.entries, 0, k, n)
    requires q < |s.objs| ==>
      TableIs(s.objs[q].tabstops, Base(o0, q), DefiningBareUnder(s.entries, seen0, q, k), s.built)
    ensures TableIs(ResolveStep(s, k).objs[q].tabstops, Base(o0, q),
                    DefiningBareUnder(s.entries, seen0, q, k + 1), ResolveStep(s, k).built)
  {
    var r, e := ResolveStep(s, k), s.entries[k];
    var d := DefiningBareUnder(s.entries, seen0, q, k);
    ResolveStepShape(s, k, e, r);
    ResolveStepTables(s, k, q);
    DefiningBareUnderStep(s, k, seen0, q);
    DefiningBareUnderMeaning(s.entries, seen0, q, k);
    if !e.token.MirrorToken? {
    } else if q == |s.objs| {
      forall n | n in d ensures false {}
      assert TableIs(map[], map[], map[], r.built);
    } else if e.parent == q && e.token.no !in s.seen {
      TableIsAdd(s.objs[q].tabstops, Base(o0, q), d, s.built, k, |s.objs|, e.token.no);
    } else {
      TableIsBuilt(s.objs[q].tabstops, Base(o0, q), d, s.built, k, |s.objs|);
    }
  }

  lemma ResolveStepKeepsTables(s: State, k: nat, seen0: map<int, nat>, o0: seq<Node>)
    requires k < |s.entries| && ParentsKnown(s) && |o0| <= |s.objs| && ResolveTablesHold(s, seen0, o0, k)
    ensures ResolveTablesHold(ResolveStep(s, k), seen0, o0, k + 1)
  {
    var r, e := ResolveStep(s, k), s.entries[k];
    ResolveStepShape(s, k, e, r);
    forall n ensures n in r.seen <==> n in seen0 || Referenced(s.entries, 0, k + 1, n) {
      ReferencedSnoc(s.entries, k, n);
    }
    forall q | 0 <= q < |r.objs|
      ensures TableIs(r.objs[q].tabstops, Base(o0, q), DefiningBareUnder(r.entries, seen0, q, k + 1), r.built)
    {
      ResolveStepKeepsTable(s, k, seen0, o0, q);
    }
  }

  lemma {:induction false} ResolveKeepsTables(s: State, k: nat, seen0: map<int, nat>, o0: seq<Node>)
    requires k <= |s.entries| && ParentsKnown(s) && |o0| <= |s.objs| && ResolveTablesHold(s, seen0, o0, k)
    ensures ResolveTablesHold(ResolveFrom(s, k), seen0, o0, |s.entries|)
    decreases |s.entries| - k
  {
    if k < |s.entries| {
      ResolveStepKeepsTables(s, k, seen0, o0);
      ResolveKeepsTables(ResolveStep(s, k), k + 1, seen0, o0);
    }
  }
}
