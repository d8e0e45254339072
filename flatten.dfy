/** Reference definitions over the flattened token list: the order in which
    the scan appends tokens, which tabstop token owns each of them, and the
    numbered tokens the two later passes look for. */
module Flatten {
  import opened Lexer

  /** `${n:...}` with number `n`. */
  predicate Defines(t: Token, n: int)
  {
    t.TabStopToken? && t.no == n
  }

  /** A bare `$n`. */
  predicate Refers(t: Token, n: int)
  {
    t.MirrorToken? && t.no == n
  }

  /** `${n/.../.../}`. */
  predicate Transforms(t: Token, n: int)
  {
    t.TransformationToken? && t.no == n
  }

  /** Document order across nesting: each token, then the tokens of its
      initial text if it is a tabstop, then the tokens after it. */
  function Preorder(ts: seq<Token>): seq<Token>
    decreases ts, 1
  {
    if ts == [] then [] else [ts[0]] + Inner(ts[0]) + Preorder(ts[1..])
  }

  /** The tokens of a tabstop's initial text, as flattened. */
  function Inner(t: Token): seq<Token>
    decreases t, 0
  {
    if t.TabStopToken? then Preorder(t.initialText) else []
  }

  /** For each token of `Preorder(ts)`, the flat index of the tabstop token
      whose initial text it comes from, or `owner` at the top level; the
      flat list of `ts` starts at index `base`. */
  function Owners(ts: seq<Token>, owner: int, base: int): seq<int>
    decreases ts, 1
  {
    if ts == [] then []
    else
      var inner := InnerOwners(ts[0], base);
      [owner] + inner + Owners(ts[1..], owner, base + 1 + |inner|)
  }

  /** The owners of the initial text of the token at flat index `base`. */
  function InnerOwners(t: Token, base: int): seq<int>
    decreases t, 0
  {
    if t.TabStopToken? then Owners(t.initialText, base, base + 1) else []
  }

  /** There is one owner for each flattened token. */
  lemma {:induction false} OwnersLength(ts: seq<Token>, owner: int, base: int)
    ensures |Owners(ts, owner, base)| == |Preorder(ts)|
    decreases ts
  {
    if ts != [] {
      if ts[0].TabStopToken? {
        OwnersLength(ts[0].initialText, base, base + 1);
      }
      var inner := InnerOwners(ts[0], base);
      OwnersLength(ts[1..], owner, base + 1 + |inner|);
    }
  }

  /** Each owner in `os` is `owner` or an index from `base` on that lies
      before the token it owns. */
  ghost predicate OwnedBefore(os: seq<int>, owner: int, base: int)
  {
    forall j :: 0 <= j < |os| ==> os[j] == owner || base <= os[j] < base + j
  }

  /** A token's owner is the top-level `owner` or a token before it. */
  lemma {:induction false} OwnersRange(ts: seq<Token>, owner: int, base: int)
    requires owner < base
    ensures OwnedBefore(Owners(ts, owner, base), owner, base)
    decreases ts
  {
    if ts != [] {
      var inner := InnerOwners(ts[0], base);
      var rest := Owners(ts[1..], owner, base + 1 + |inner|);
      assert OwnedBefore(inner, base, base + 1) by {
        if ts[0].TabStopToken? {
          OwnersRange(ts[0].initialText, base, base + 1);
        }
      }
      assert OwnedBefore(rest, owner, base + 1 + |inner|) by {
        OwnersRange(ts[1..], owner, base + 1 + |inner|);
      }
      OwnersUnfold(ts, owner, base);
      OwnersJoin(owner, base, inner, rest, Owners(ts, owner, base));
    }
  }

  lemma OwnersUnfold(ts: seq<Token>, owner: int, base: int)
    requires ts != []
    ensures Owners(ts, owner, base) ==
      [owner] + InnerOwners(ts[0], base) + Owners(ts[1..], owner, base + 1 + |InnerOwners(ts[0], base)|)
  {
  }

  lemma OwnersJoin(owner: int, base: int, inner: seq<int>, rest: seq<int>, os: seq<int>)
    requires owner < base && os == [owner] + inner + rest
    requires OwnedBefore(inner, base, base + 1)
    requires OwnedBefore(rest, owner, base + 1 + |inner|)
    ensures OwnedBefore(os, owner, base)
  {
    forall j | 0 <= j < |os| ensures os[j] == owner || base <= os[j] < base + j {
      if 1 <= j < 1 + |inner| {
        assert os[j] == inner[j - 1];
      } else if j >= 1 + |inner| {
        assert os[j] == rest[j - 1 - |inner|];
      }
    }
  }

  lemma PreorderUnfold(ts: seq<Token>)
    requires ts != []
    ensures Preorder(ts) == [ts[0]] + Inner(ts[0]) + Preorder(ts[1..])
  {
  }

  /** Flattening distributes over concatenation: the tokens of a tabstop's
      initial text sit between the tabstop token and its next sibling. */
  lemma {:induction false} PreorderAppend(a: seq<Token>, b: seq<Token>)
    ensures Preorder(a + b) == Preorder(a) + Preorder(b)
  {
    if a != [] {
      assert (a + b)[1..] == a[1..] + b;
      PreorderAppend(a[1..], b);
    } else {
      assert a + b == b;
    }
  }

  lemma PreorderSingle(t: Token)
    ensures Preorder([t]) == [t] + Inner(t)
  {
    assert [t][1..] == [];
  }

  /** The last token of a lexed sequence is also the last flattened token. */
  lemma PreorderLast(ts: seq<Token>)
    requires EndsWithEndOfText(ts)
    ensures |Preorder(ts)| > 0 && Preorder(ts)[|Preorder(ts)| - 1] == ts[|ts| - 1]
  {
    var t := ts[|ts| - 1];
    assert ts == ts[..|ts| - 1] + [t];
    PreorderAppend(ts[..|ts| - 1], [t]);
    PreorderSingle(t);
  }

  /** Number of tokens that make an object during the scan. */
  function CountCreating(flat: seq<Token>): nat
  {
    if flat == [] then 0
    else CountCreating(flat[..|flat| - 1]) + (if Creates(flat[|flat| - 1]) then 1 else 0)
  }

  /** Number of bare references `$n` among the tokens. */
  function CountRefs(flat: seq<Token>): nat
  {
    if flat == [] then 0 else (if flat[0].MirrorToken? then 1 else 0) + CountRefs(flat[1..])
  }

  /** Number of transformations `${n/.../.../}` among the tokens. */
  function CountTransforms(flat: seq<Token>): nat
  {
    if flat == [] then 0 else (if flat[0].TransformationToken? then 1 else 0) + CountTransforms(flat[1..])
  }

  lemma {:induction false} CountCreatingAppend(a: seq<Token>, b: seq<Token>)
    ensures CountCreating(a + b) == CountCreating(a) + CountCreating(b)
    decreases |b|
  {
    if b == [] {
      assert a + b == a;
    } else {
      assert (a + b)[..|a + b| - 1] == a + b[..|b| - 1];
      CountCreatingAppend(a, b[..|b| - 1]);
    }
  }

  /** Each explicitly numbered tabstop's number, mapped to the flat index of
      the last `${n:...}` with that number. */
  function LastTabStops(flat: seq<Token>): map<int, nat>
  {
    if flat == [] then map[]
    else
      var m := LastTabStops(flat[..|flat| - 1]);
      var t := flat[|flat| - 1];
      if t.TabStopToken? then m[t.no := |flat| - 1] else m
  }

  /** The numbers mapped are those of the explicit tabstops, and each is
      mapped to the last index defining it. */
  lemma {:induction false} LastTabStopsMeaning(flat: seq<Token>)
    ensures forall n :: n in LastTabStops(flat) <==> exists j :: 0 <= j < |flat| && Defines(flat[j], n)
    ensures forall n :: n in LastTabStops(flat) ==>
              LastTabStops(flat)[n] < |flat| && Defines(flat[LastTabStops(flat)[n]], n) &&
              forall j :: LastTabStops(flat)[n] < j < |flat| ==> !Defines(flat[j], n)
  {
    if flat != [] {
      var pre, last := flat[..|flat| - 1], |flat| - 1;
      var m, mp := LastTabStops(flat), LastTabStops(pre);
      LastTabStopsMeaning(pre);
      forall n ensures n in m <==> exists j :: 0 <= j < |flat| && Defines(flat[j], n) {
        if n in mp {
          assert Defines(flat[mp[n]], n);
        }
        if j :| 0 <= j < |flat| && Defines(flat[j], n) {
          if j < last {
            assert Defines(pre[j], n);
          }
        }
      }
      forall n | n in m
        ensures m[n] < |flat| && Defines(flat[m[n]], n)
        ensures forall j :: m[n] < j < |flat| ==> !Defines(flat[j], n)
      {
        if !Defines(flat[last], n) {
          assert m[n] == mp[n];
          forall j | m[n] < j < |flat| ensures !Defines(flat[j], n) {
            if j < last {
              assert flat[j] == pre[j];
            }
          }
        }
      }
    }
  }

  /** The last defining index is the one with no later definition. */
  lemma LastTabStopAt(flat: seq<Token>, n: int, j: nat)
    requires j < |flat| && Defines(flat[j], n)
    requires forall k :: j < k < |flat| ==> !Defines(flat[k], n)
    ensures n in LastTabStops(flat) && LastTabStops(flat)[n] == j
  {
    LastTabStopsMeaning(flat);
  }

  /** The last definition in `a + b` is the last one in `b`, or failing
      that the last one in `a`. */
  lemma LastTabStopsAppend(a: seq<Token>, b: seq<Token>, n: int)
    ensures n in LastTabStops(a + b) <==> n in LastTabStops(a) || n in LastTabStops(b)
    ensures n in LastTabStops(b) ==> LastTabStops(a + b)[n] == |a| + LastTabStops(b)[n]
    ensures n !in LastTabStops(b) && n in LastTabStops(a) ==> LastTabStops(a + b)[n] == LastTabStops(a)[n]
  {
    var ab := a + b;
    LastTabStopsMeaning(a);
    LastTabStopsMeaning(b);
    LastTabStopsMeaning(ab);
    if n in LastTabStops(b) {
      var j := LastTabStops(b)[n];
      assert ab[|a| + j] == b[j];
      forall k | |a| + j < k < |ab| ensures !Defines(ab[k], n) {
        assert ab[k] == b[k - |a|];
      }
      LastTabStopAt(ab, n, |a| + j);
    } else {
      forall k | |a| <= k < |ab| ensures !Defines(ab[k], n) {
        assert ab[k] == b[k - |a|];
        assert !Defines(b[k - |a|], n);
      }
      if n in LastTabStops(a) {
        var j := LastTabStops(a)[n];
        assert ab[j] == a[j];
        forall k | j < k < |ab| ensures !Defines(ab[k], n) {
          if k < |a| {
            assert ab[k] == a[k];
          }
        }
        LastTabStopAt(ab, n, j);
      } else {
        forall k | 0 <= k < |a| ensures !Defines(ab[k], n) {
          assert ab[k] == a[k];
          assert !Defines(a[k], n);
        }
      }
    }
  }
}
