/** Depth-first numbers: who has one, and what the intervals of last say about the search tree. */
module HavlakDfs {
  import opened HavlakGraph
  import opened Options

  /** A union-find node; its index is the depth-first number of block bb. */
  datatype Uf = Uf(parent: nat, bb: Option<nat>, lp: Option<nat>, dfs: nat)

  /** Depth-first numbers by block name; None stands for UNVISITED. */
  type Numbers = map<nat, Option<nat>>

  ghost predicate Visited(number: Numbers, n: nat) { n in number && number[n].Some? }

  ghost predicate HasNumber(number: Numbers, n: nat, i: nat) { n in number && number[n] == Some(i) }

  ghost predicate IsNode(nodes: seq<Uf>, i: nat, n: nat) { i < |nodes| && nodes[i].bb == Some(n) }

  /** Exactly the numbers below count are given out, each to one block. */
  ghost predicate Numbered(g: Blocks, nodes: seq<Uf>, number: Numbers, count: nat)
    ensures Numbered(g, nodes, number, count) ==> count <= |g| && forall n: nat :: n in number <==> HasBlock(g, n)
  {
    && |nodes| == |g| && count <= |g|
    && (forall n: nat :: n in number <==> HasBlock(g, n))
    && (forall i: nat, n: nat :: IsNode(nodes, i, n) <==> HasNumber(number, n, i))
    && (forall i: nat :: i < |nodes| ==> (nodes[i].bb.Some? <==> i < count) && (i >= count ==> nodes[i].lp == None))
  }

  /** The names of the first count numbers. */
  ghost function Names(nodes: seq<Uf>, count: nat): set<nat>
    requires count <= |nodes| && forall i: nat :: i < count ==> nodes[i].bb.Some?
  {
    if count == 0 then {} else Names(nodes, count - 1) + {nodes[count - 1].bb.value}
  }

  lemma {:induction false} NamesWithin(nodes: seq<Uf>, count: nat, s: set<nat>)
    requires count <= |nodes| && forall i: nat :: i < count ==> nodes[i].bb.Some? && nodes[i].bb.value in s
    ensures Names(nodes, count) <= s
  {
    if count > 0 { NamesWithin(nodes, count - 1, s); }
  }

  lemma {:induction false} NamesWithout(nodes: seq<Uf>, count: nat, n: nat)
    requires count <= |nodes| && forall i: nat :: i < count ==> nodes[i].bb.Some? && nodes[i].bb.value != n
    ensures n !in Names(nodes, count)
  {
    if count > 0 { NamesWithout(nodes, count - 1, n); }
  }

  lemma {:induction false} NamesCount(nodes: seq<Uf>, count: nat)
    requires count <= |nodes| && forall i: nat :: i < count ==> nodes[i].bb.Some?
    requires forall i: nat, j: nat :: i < j < count ==> nodes[i].bb != nodes[j].bb
    ensures |Names(nodes, count)| == count
  {
    if count > 0 {
      NamesCount(nodes, count - 1);
      NamesWithout(nodes, count - 1, nodes[count - 1].bb.value);
    }
  }

  ghost function Below(n: nat): (s: set<nat>)
    ensures |s| == n && forall i: nat :: i in s <==> i < n
  {
    if n == 0 then {} else Below(n - 1) + {n - 1}
  }

  lemma SubsetCount(a: set<nat>, b: set<nat>)
    requires a <= b
    ensures |a| <= |b| && (a != b ==> |a| < |b|)
  {
    assert b == a + (b - a);
  }

  /** While a block is unvisited a number is free. */
  lemma NumberFree(g: Blocks, nodes: seq<Uf>, number: Numbers, count: nat, n: nat)
    requires Numbered(g, nodes, number, count) && n in number && number[n].None?
    ensures count < |g|
  {
    forall i: nat, j: nat | i < j < count ensures nodes[i].bb != nodes[j].bb {
      assert IsNode(nodes, i, nodes[i].bb.value) && IsNode(nodes, j, nodes[j].bb.value);
    }
    NamesCount(nodes, count);
    forall i: nat | i < count ensures nodes[i].bb.value in Below(|g|) - {n} {
      assert IsNode(nodes, i, nodes[i].bb.value) && HasNumber(number, nodes[i].bb.value, i);
    }
    NamesWithin(nodes, count, Below(|g|) - {n});
    assert HasBlock(g, n) && n in Below(|g|);
    SubsetCount(Names(nodes, count), Below(|g|) - {n});
    SubsetCount(Below(|g|) - {n}, Below(|g|));
  }

  lemma NumberNext(g: Blocks, nodes: seq<Uf>, number: Numbers, count: nat, n: nat, u: Uf)
    requires Numbered(g, nodes, number, count) && n in number && number[n].None? && count < |g|
    requires u.bb == Some(n)
    ensures Numbered(g, nodes[count := u], number[n := Some(count)], count + 1)
  {
    var nodes', number' := nodes[count := u], number[n := Some(count)];
    forall i: nat, m: nat ensures IsNode(nodes', i, m) <==> HasNumber(number', m, i) {
      assert IsNode(nodes, i, m) <==> HasNumber(number, m, i);
      assert IsNode(nodes, i, n) <==> HasNumber(number, n, i);
      assert IsNode(nodes, count, m) <==> HasNumber(number, m, count);
    }
  }

  // ── Intervals ─────────────────────────────────────────────────────

  /** Among lo .. hi: from every u >= from the block [u, last[u]] is u and what hangs below it in tree. */
  ghost predicate Laminar(last: seq<nat>, tree: seq<nat>, from: nat, lo: nat, hi: nat)
  {
    && hi < |last| == |tree|
    && (forall u: nat :: from <= u <= hi ==> u <= last[u] <= hi)
    && (forall v: nat :: lo < v <= hi ==> lo <= tree[v] < v)
    && (forall u: nat, v: nat :: from <= u < v <= hi ==> (v <= last[u] <==> u <= tree[v] <= last[u]))
  }

  /** A finished child subtree mid + 1 .. hi joins the part lo .. mid already searched under lo. */
  lemma LaminarJoin(last0: seq<nat>, tree0: seq<nat>, last: seq<nat>, tree: seq<nat>, lo: nat, mid: nat, hi: nat)
    requires Laminar(last0, tree0, lo + 1, lo, mid) && lo <= mid < hi
    requires Laminar(last, tree, mid + 1, mid + 1, hi) && tree[mid + 1] == lo
    requires |last0| == |last| && forall i: nat :: i <= mid ==> last[i] == last0[i] && tree[i] == tree0[i]
    ensures Laminar(last, tree, lo + 1, lo, hi)
  {
    forall u: nat, v: nat | lo + 1 <= u < v <= hi ensures v <= last[u] <==> u <= tree[v] <= last[u] {
      if v <= mid {
        assert v <= last0[u] <==> u <= tree0[v] <= last0[u];
      } else if u <= mid {
        assert last[u] == last0[u] <= mid;
      }
    }
  }

  lemma LaminarClose(last: seq<nat>, tree: seq<nat>, lo: nat, hi: nat)
    requires Laminar(last, tree, lo + 1, lo, hi) && lo <= hi
    ensures Laminar(last[lo := hi], tree, lo, lo, hi)
  {}

  /** v is u or hangs below u. */
  ghost predicate TreeAncestor(tree: seq<nat>, u: nat, v: nat)
    requires v < |tree| && forall i: nat :: 0 < i <= v ==> tree[i] < i
  {
    u == v || (u < v && TreeAncestor(tree, u, tree[v]))
  }

  /** The interval test is the ancestor test. */
  lemma {:induction false} AncestorInterval(last: seq<nat>, tree: seq<nat>, u: nat, v: nat, hi: nat)
    requires Laminar(last, tree, 0, 0, hi) && u <= hi && v <= hi
    ensures u <= v <= last[u] <==> TreeAncestor(tree, u, v)
  {
    if u < v { AncestorInterval(last, tree, u, tree[v], hi); }
  }

  /** Two intervals are disjoint or one holds the other. */
  lemma IntervalsNest(last: seq<nat>, tree: seq<nat>, u: nat, v: nat, hi: nat)
    requires Laminar(last, tree, 0, 0, hi) && u <= v <= hi
    ensures last[u] < v || last[v] <= last[u]
  {
    if v <= last[u] < hi {
      IntervalHolds(last, tree, u, last[u] + 1, hi);
      IntervalHolds(last, tree, v, last[u] + 1, hi);
    }
  }

  lemma IntervalHolds(last: seq<nat>, tree: seq<nat>, u: nat, v: nat, hi: nat)
    requires Laminar(last, tree, 0, 0, hi) && u < v <= hi
    ensures tree[v] < v && (v <= last[u] <==> u <= tree[v] <= last[u])
  {}

  // ── What the search covers ────────────────────────────────────────

  /** Every edge out of a block numbered lo .. hi leads to a number at most last of its source. */
  ghost predicate Covered(g: Blocks, nodes: seq<Uf>, number: Numbers, last: seq<nat>, lo: nat, hi: nat)
  {
    forall i: nat, n: nat, m: nat {:trigger IsNode(nodes, i, n), Edge(g, n, m)} ::
      lo <= i <= hi && i < |last| && IsNode(nodes, i, n) && Edge(g, n, m) ==> Before(number, m, last[i])
  }

  /** Block m has a number at most i. */
  ghost predicate Before(number: Numbers, m: nat, i: nat) { Visited(number, m) && number[m].value <= i }

  /** Each of lo + 1 .. hi was found along an edge out of its tree parent. */
  ghost predicate TreeEdges(g: Blocks, nodes: seq<Uf>, tree: seq<nat>, lo: nat, hi: nat)
  {
    hi < |nodes| == |tree| && forall v: nat :: lo < v <= hi ==> TreeEdge(g, nodes, tree, v)
  }

  ghost predicate TreeEdge(g: Blocks, nodes: seq<Uf>, tree: seq<nat>, v: nat)
  {
    && v < |nodes| == |tree| && tree[v] < v && nodes[v].bb.Some? && nodes[tree[v]].bb.Some?
    && Edge(g, nodes[tree[v]].bb.value, nodes[v].bb.value)
  }

  /** Ancestors reach descendants. */
  lemma {:induction false} AncestorReaches(g: Blocks, nodes: seq<Uf>, last: seq<nat>, tree: seq<nat>, u: nat, v: nat,
                                           hi: nat)
    requires Laminar(last, tree, 0, 0, hi) && TreeEdges(g, nodes, tree, 0, hi) && u <= v <= hi && v <= last[u]
    requires nodes[u].bb.Some? && nodes[v].bb.Some?
    ensures Reaches(g, nodes[u].bb.value, nodes[v].bb.value)
  {
    if u == v {
      ReachesSelf(g, nodes[u].bb.value);
    } else {
      assert TreeEdge(g, nodes, tree, v);
      AncestorReaches(g, nodes, last, tree, u, tree[v], hi);
      ReachesStep(g, nodes[u].bb.value, nodes[tree[v]].bb.value, nodes[v].bb.value);
    }
  }

  /** When a search from number 0 is over, the numbered blocks are the reachable ones. */
  lemma NumberedReachable(g: Blocks, nodes: seq<Uf>, number: Numbers, last: seq<nat>, tree: seq<nat>, hi: nat, m: nat)
    requires Numbered(g, nodes, number, hi + 1) && Covered(g, nodes, number, last, 0, hi) && |last| == |g|
    requires Laminar(last, tree, 0, 0, hi) && TreeEdges(g, nodes, tree, 0, hi) && last[0] == hi
    ensures Visited(number, m) <==> Reaches(g, nodes[0].bb.value, m)
  {
    var start := nodes[0].bb.value;
    if Visited(number, m) {
      var i := number[m].value;
      assert HasNumber(number, m, i) && IsNode(nodes, i, m);
      AncestorReaches(g, nodes, last, tree, 0, i, hi);
    }
    if Reaches(g, start, m) {
      var p :| Path(g, p) && p[0] == start && p[|p| - 1] == m;
      var s := set n | n in number && number[n].Some?;
      assert IsNode(nodes, 0, start) && HasNumber(number, start, 0);
      forall u: nat, v: nat | u in s && Edge(g, u, v) ensures v in s {
        assert HasNumber(number, u, number[u].value) && IsNode(nodes, number[u].value, u);
        assert Before(number, v, last[number[u].value]);
      }
      ClosedReaches(g, s, p);
    }
  }

  // ── One search ────────────────────────────────────────────────────

  /** The part of the finder's state that the search writes. */
  datatype Search = Search(nodes: seq<Uf>, number: Numbers, last: seq<nat>, tree: seq<nat>)

  ghost predicate Sized(g: Blocks, s: Search) { |s.last| == |s.nodes| == |s.tree| == |g| }

  /** lo .. hi were given out by a search from name; the numbers from .. hi are finished. */
  ghost predicate Searched(g: Blocks, s: Search, name: nat, from: nat, lo: nat, hi: nat)
    ensures Searched(g, s, name, from, lo, hi) ==>
        Sized(g, s) && lo <= hi < |g| && Numbered(g, s.nodes, s.number, hi + 1)
  {
    && Sized(g, s) && lo <= hi < |g| && Numbered(g, s.nodes, s.number, hi + 1) && IsNode(s.nodes, lo, name)
    && Laminar(s.last, s.tree, from, lo, hi) && TreeEdges(g, s.nodes, s.tree, lo, hi)
    && Covered(g, s.nodes, s.number, s.last, from, hi)
    && (forall i: nat :: lo <= i <= hi ==> s.nodes[i] == Uf(i, s.nodes[i].bb, None, i))
  }

  /** What was given to numbers below count stays, and so does the tree parent of count. */
  ghost predicate Kept(g: Blocks, s: Search, s': Search, count: nat)
    requires Sized(g, s) && Sized(g, s') && count <= |g|
  {
    && (forall i: nat :: i < count ==> s'.nodes[i] == s.nodes[i] && s'.last[i] == s.last[i])
    && (forall i: nat :: i <= count && i < |g| ==> s'.tree[i] == s.tree[i])
    && (forall n: nat, i: nat :: HasNumber(s.number, n, i) ==> HasNumber(s'.number, n, i))
  }

  function WithRoot(s: Search, name: nat, n: nat): Search
    requires n < |s.nodes|
  {
    s.(nodes := s.nodes[n := Uf(n, Some(name), None, n)], number := s.number[name := Some(n)])
  }

  lemma SearchStart(g: Blocks, s: Search, name: nat, n: nat)
    requires Sized(g, s) && Numbered(g, s.nodes, s.number, n) && name in s.number && s.number[name].None?
    ensures n < |g| && Searched(g, WithRoot(s, name, n), name, n + 1, n, n) && Kept(g, s, WithRoot(s, name, n), n)
  {
    NumberFree(g, s.nodes, s.number, n, name);
    NumberNext(g, s.nodes, s.number, n, name, Uf(n, Some(name), None, n));
  }

  /** A child found along an edge is searched with its tree parent set. */
  lemma SearchJoin(g: Blocks, s: Search, s': Search, name: nat, child: nat, lo: nat, mid: nat, hi: nat)
    requires Searched(g, s, name, lo + 1, lo, mid) && mid < hi && Edge(g, name, child)
    requires Searched(g, s', child, mid + 1, mid + 1, hi) && Kept(g, s.(tree := s.tree[mid + 1 := lo]), s', mid + 1)
    ensures Searched(g, s', name, lo + 1, lo, hi) && Kept(g, s, s', mid)
  {
    LaminarJoin(s.last, s.tree, s'.last, s'.tree, lo, mid, hi);
    forall v: nat | lo < v <= hi ensures TreeEdge(g, s'.nodes, s'.tree, v) {
      if v <= mid { assert TreeEdge(g, s.nodes, s.tree, v); }
    }
    forall i: nat, n: nat, m: nat | lo + 1 <= i <= hi && i < |s'.last| && IsNode(s'.nodes, i, n) && Edge(g, n, m)
      ensures Before(s'.number, m, s'.last[i])
    {
      if i <= mid {
        assert IsNode(s.nodes, i, n) && Before(s.number, m, s.last[i]);
        assert HasNumber(s.number, m, s.number[m].value);
      }
    }
  }

  lemma SearchClose(g: Blocks, s: Search, name: nat, lo: nat, hi: nat)
    requires Searched(g, s, name, lo + 1, lo, hi)
    requires forall m: nat :: Edge(g, name, m) ==> Before(s.number, m, hi)
    ensures Searched(g, s.(last := s.last[lo := hi]), name, lo, lo, hi)
    ensures Kept(g, s, s.(last := s.last[lo := hi]), lo)
  {
    LaminarClose(s.last, s.tree, lo, hi);
  }

  lemma KeptLess(g: Blocks, s: Search, s': Search, count: nat, less: nat)
    requires Sized(g, s) && Sized(g, s') && less <= count <= |g| && Kept(g, s, s', count)
    ensures Kept(g, s, s', less)
  {}

  /** Blocks numbered so far keep their numbers. */
  lemma KeptBefore(g: Blocks, s: Search, s': Search, count: nat, m: nat, i: nat, j: nat)
    requires Sized(g, s) && Sized(g, s') && count <= |g| && Kept(g, s, s', count) && i <= j
    requires Before(s.number, m, i)
    ensures Before(s'.number, m, j)
  {
    assert HasNumber(s.number, m, s.number[m].value);
  }

  lemma SearchedBefore(g: Blocks, s: Search, name: nat, from: nat, lo: nat, hi: nat, m: nat)
    requires Searched(g, s, name, from, lo, hi) && Visited(s.number, m)
    ensures Before(s.number, m, hi)
  {
    assert HasNumber(s.number, m, s.number[m].value) && IsNode(s.nodes, s.number[m].value, m);
  }

  lemma SearchedNode(g: Blocks, s: Search, name: nat, hi: nat, i: nat)
    requires Searched(g, s, name, 0, 0, hi) && i <= hi
    ensures s.nodes[i].bb.Some? && s.nodes[i] == Uf(i, s.nodes[i].bb, None, i)
  {}

  lemma SearchedRoot(g: Blocks, s: Search, name: nat, from: nat, lo: nat, hi: nat)
    requires Searched(g, s, name, from, lo, hi)
    ensures Before(s.number, name, hi)
  {
    assert HasNumber(s.number, name, lo);
  }

  lemma KeptTrans(g: Blocks, s: Search, s': Search, s'': Search, count: nat)
    requires Sized(g, s) && Sized(g, s') && Sized(g, s'') && count <= |g|
    requires Kept(g, s, s', count) && Kept(g, s', s'', count)
    ensures Kept(g, s, s'', count)
  {}
}
