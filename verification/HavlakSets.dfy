/** Union-find over depth-first numbers, and what hooking a path to the starting node's parent keeps. */
module HavlakSets {
  import opened HavlakDfs

  /** Parent links among the first |rank| nodes run down in rank to roots, which are their own parents. */
  ghost predicate Forest(nodes: seq<Uf>, rank: seq<nat>)
    ensures Forest(nodes, rank) ==> |rank| <= |nodes|
  {
    |rank| <= |nodes| && forall x: nat :: x < |rank| ==> Link(nodes, rank, x)
  }

  ghost predicate Link(nodes: seq<Uf>, rank: seq<nat>, x: nat)
    requires x < |rank| <= |nodes|
  {
    nodes[x].parent < |rank| && (nodes[x].parent == x || rank[nodes[x].parent] < rank[x])
  }

  /** The path of parent links from n to its root. */
  ghost function Chain(nodes: seq<Uf>, rank: seq<nat>, n: nat): (c: seq<nat>)
    requires Forest(nodes, rank) && n < |rank|
    ensures forall i :: 0 <= i < |c| ==> c[i] < |rank|
    ensures c != [] && c[0] == n && (nodes[n].parent == n <==> |c| == 1)
    decreases rank[n]
  {
    assert Link(nodes, rank, n);
    if nodes[n].parent == n then [n] else [n] + Chain(nodes, rank, nodes[n].parent)
  }

  ghost function Root(nodes: seq<Uf>, rank: seq<nat>, n: nat): nat
    requires Forest(nodes, rank) && n < |rank|
  {
    var c := Chain(nodes, rank, n); c[|c| - 1]
  }

  lemma {:induction false} ChainLinks(nodes: seq<Uf>, rank: seq<nat>, n: nat, i: nat)
    requires Forest(nodes, rank) && n < |rank| && i < |Chain(nodes, rank, n)|
    ensures var c := Chain(nodes, rank, n);
            if i == |c| - 1 then nodes[c[i]].parent == c[i]
            else nodes[c[i]].parent == c[i + 1] && rank[c[i + 1]] < rank[c[i]]
    decreases i
  {
    assert Link(nodes, rank, n);
    if i > 0 { ChainLinks(nodes, rank, nodes[n].parent, i - 1); }
  }

  lemma {:induction false} ChainFalls(nodes: seq<Uf>, rank: seq<nat>, n: nat, i: nat, j: nat)
    requires Forest(nodes, rank) && n < |rank| && i < j < |Chain(nodes, rank, n)|
    ensures var c := Chain(nodes, rank, n); rank[c[j]] < rank[c[i]]
    decreases j
  {
    ChainLinks(nodes, rank, n, j - 1);
    ChainLinks(nodes, rank, n, j);
    if i < j - 1 { ChainFalls(nodes, rank, n, i, j - 1); }
  }

  /** The k-th node of the path is a root exactly when it is the last. */
  lemma ChainEnd(nodes: seq<Uf>, rank: seq<nat>, n: nat, k: nat)
    requires Forest(nodes, rank) && n < |rank| && k < |Chain(nodes, rank, n)|
    ensures var c := Chain(nodes, rank, n); nodes[c[k]].parent == c[if k < |c| - 1 then k + 1 else k]
    ensures var c := Chain(nodes, rank, n); nodes[c[k]].parent == c[k] <==> k == |c| - 1
  {
    ChainLinks(nodes, rank, n, k);
  }

  /** What find_set leaves behind: every node of the path but the last two hangs from the second. */
  ghost function Hooked(nodes: seq<Uf>, c: seq<nat>): (h: seq<Uf>)
    ensures |h| == |nodes|
  {
    if |c| < 3 then nodes
    else seq(|nodes|, i requires 0 <= i < |nodes| => if i in c[..|c| - 2] then nodes[i].(parent := c[1]) else nodes[i])
  }

  lemma HookedIs(nodes: seq<Uf>, c: seq<nat>, h: seq<Uf>, list: seq<nat>, to: nat)
    requires |h| == |nodes| && list == if |c| < 3 then [] else c[..|c| - 2]
    requires |c| >= 3 ==> to == c[1]
    requires forall x: nat :: x < |h| ==> h[x] == if x in list then nodes[x].(parent := to) else nodes[x]
    ensures h == Hooked(nodes, c)
  {}

  ghost function Reranked(rank: seq<nat>, c: seq<nat>): (r: seq<nat>)
    ensures |r| == |rank|
  {
    if |c| < 4 then rank else seq(|rank|, i requires 0 <= i < |rank| => if i == c[1] then 0 else rank[i] + 1)
  }

  /** The parent of a node after hooking: the second node of the path, or what it was. */
  lemma HookedParent(nodes: seq<Uf>, rank: seq<nat>, n: nat, x: nat)
    requires Forest(nodes, rank) && n < |rank| && x < |rank|
    ensures var c := Chain(nodes, rank, n); var h := Hooked(nodes, c);
            && h[x] == nodes[x].(parent := h[x].parent)
            && (if |c| >= 4 && x in c[..|c| - 2] then h[x].parent == c[1] else h[x].parent == nodes[x].parent)
  {
    var c := Chain(nodes, rank, n);
    if |c| == 3 { ChainLinks(nodes, rank, n, 0); assert c[..1] == [n]; }
  }

  /** Hooking never makes a cycle, though it may make the starting node's parent a root. */
  lemma HookedForest(nodes: seq<Uf>, rank: seq<nat>, n: nat)
    requires Forest(nodes, rank) && n < |rank|
    ensures var c := Chain(nodes, rank, n); Forest(Hooked(nodes, c), Reranked(rank, c))
  {
    hide Chain, Hooked;
    var c := Chain(nodes, rank, n);
    forall x: nat | x < |rank| ensures Link(Hooked(nodes, c), Reranked(rank, c), x) {
      HookedParent(nodes, rank, n, x);
      assert Link(nodes, rank, x);
      if |c| >= 4 {
        ChainLinks(nodes, rank, n, 1);
        assert c[1] in c[..|c| - 2];
      }
    }
  }

  /**
   * On a path of three links or more the starting node changes root: its parent becomes its own
   * root. On shorter paths nothing changes at all.
   */
  lemma HookedRoot(nodes: seq<Uf>, rank: seq<nat>, n: nat)
    requires Forest(nodes, rank) && n < |rank|
    ensures var c := Chain(nodes, rank, n); var h, k := Hooked(nodes, c), Reranked(rank, c);
            && Forest(h, k)
            && (Root(h, k, n) == Root(nodes, rank, n) <==> |c| <= 3)
            && (|c| <= 3 <==> h == nodes)
            && (|c| >= 4 ==> nodes[n].parent == c[1] && Root(h, k, n) == c[1] && Root(h, k, c[1]) == c[1])
  {
    hide Chain, Forest, Hooked, Reranked;
    HookedForest(nodes, rank, n);
    if |Chain(nodes, rank, n)| <= 3 { HookedShort(nodes, rank, n); } else { HookedLong(nodes, rank, n); }
  }

  lemma HookedShort(nodes: seq<Uf>, rank: seq<nat>, n: nat)
    requires Forest(nodes, rank) && n < |rank| && |Chain(nodes, rank, n)| <= 3
    ensures var c := Chain(nodes, rank, n); Hooked(nodes, c) == nodes && Reranked(rank, c) == rank
  {
    hide Chain, Forest;
    var c := Chain(nodes, rank, n);
    if |c| == 3 { ChainLinks(nodes, rank, n, 0); assert c[..1] == [n]; }
  }

  lemma HookedLong(nodes: seq<Uf>, rank: seq<nat>, n: nat)
    requires Forest(nodes, rank) && n < |rank| && |Chain(nodes, rank, n)| >= 4
    ensures var c := Chain(nodes, rank, n); var h, k := Hooked(nodes, c), Reranked(rank, c);
            && Forest(h, k) && h != nodes && nodes[n].parent == c[1] && c[|c| - 1] != c[1]
            && Root(h, k, n) == c[1] && Root(h, k, c[1]) == c[1]
  {
    hide Chain, Forest, Reranked, Root;
    var c := Chain(nodes, rank, n);
    var h, k := Hooked(nodes, c), Reranked(rank, c);
    HookedForest(nodes, rank, n);
    ChainLinks(nodes, rank, n, 0);
    ChainLinks(nodes, rank, n, 1);
    ChainFalls(nodes, rank, n, 1, |c| - 1);
    assert n == c[..|c| - 2][0] && c[1] == c[..|c| - 2][1];
    RootOf(h, k, n, c[1]);
    assert h[c[1]] != nodes[c[1]];
  }

  lemma RootOf(nodes: seq<Uf>, rank: seq<nat>, n: nat, p: nat)
    requires Forest(nodes, rank) && n < |rank| && p < |rank| && nodes[n].parent == p && nodes[p].parent == p
    ensures Root(nodes, rank, n) == p && Root(nodes, rank, p) == p
  {
    assert Chain(nodes, rank, p) == [p];
    if n != p { assert Chain(nodes, rank, n) == [n] + Chain(nodes, rank, p); }
  }

  /** Only a root is its own root. */
  lemma OwnRoot(nodes: seq<Uf>, rank: seq<nat>, x: nat)
    requires Forest(nodes, rank) && x < |rank| && Root(nodes, rank, x) == x
    ensures nodes[x].parent == x
  {
    hide Chain;
    var c := Chain(nodes, rank, x);
    if |c| > 1 { ChainFalls(nodes, rank, x, 0, |c| - 1); }
  }

  /** Hanging some roots from w moves what they were roots of to w. */
  lemma {:induction false} HungRoot(nodes: seq<Uf>, rank: seq<nat>, nodes': seq<Uf>, rank': seq<nat>, w: nat,
                                    pool: seq<nat>, x: nat)
    requires Forest(nodes, rank) && Forest(nodes', rank') && |nodes'| == |nodes| && |rank'| == |rank| && x < |rank|
    requires forall i: nat :: i < |nodes| ==> nodes'[i].parent == if i in pool then w else nodes[i].parent
    requires forall m: nat :: m in pool ==> m < |rank| && nodes[m].parent == m
    requires w < |rank| && nodes[w].parent == w && w !in pool
    ensures Root(nodes', rank', x) == if Root(nodes, rank, x) in pool then w else Root(nodes, rank, x)
    decreases rank[x]
  {
    assert Link(nodes, rank, x);
    var p := nodes[x].parent;
    if p == x {
      if x in pool { RootOf(nodes', rank', x, w); } else { assert Chain(nodes', rank', x) == [x]; }
    } else {
      HungRoot(nodes, rank, nodes', rank', w, pool, p);
      assert Chain(nodes, rank, x) == [x] + Chain(nodes, rank, p);
      assert Chain(nodes', rank', x) == [x] + Chain(nodes', rank', p);
    }
  }
}
