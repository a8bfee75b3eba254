/** What holds between headers while loops are collapsed, innermost numbers last to first. */
module HavlakCollapse {
  import opened HavlakDfs
  import opened HavlakGraph
  import opened HavlakSets
  import opened Options

  /** A finished numbering: block names by number, and the end of each number's interval. */
  datatype Order = Order(names: seq<nat>, last: seq<nat>)

  /** x is a proper descendant of u. */
  predicate Under(o: Order, u: nat, x: nat) { u < |o.last| && u < x <= o.last[u] }

  /** v is w or below it. */
  predicate Within(o: Order, w: nat, v: nat) { w < |o.last| && w <= v <= o.last[w] }

  ghost predicate Flows(g: Blocks, o: Order, x: nat, y: nat)
  {
    x < |o.names| && y < |o.names| && Reaches(g, o.names[x], o.names[y])
  }

  /** x and y lie on a common cycle. */
  ghost predicate Tied(g: Blocks, o: Order, x: nat, y: nat) { Flows(g, o, x, y) && Flows(g, o, y, x) }

  ghost predicate Ordered(g: Blocks, o: Order)
  {
    && |o.names| <= |o.last| == |g|
    && (forall u: nat :: u < |o.names| ==> u <= o.last[u] < |o.names|)
    && (forall u: nat, v: nat :: Under(o, u, v) && u < |o.names| ==> o.last[v] <= o.last[u] && Flows(g, o, u, v))
  }

  lemma SearchOrdered(g: Blocks, s: Search, name: nat, hi: nat, names: seq<nat>)
    requires Searched(g, s, name, 0, 0, hi) && |names| == hi + 1
    requires forall i: nat :: i <= hi ==> s.nodes[i].bb == Some(names[i])
    ensures Ordered(g, Order(names, s.last))
  {
    var o := Order(names, s.last);
    forall u: nat, v: nat | Under(o, u, v) && u < |o.names|
      ensures o.last[v] <= o.last[u] && Flows(g, o, u, v)
    {
      IntervalsNest(s.last, s.tree, u, v, hi);
      AncestorReaches(g, s.nodes, s.last, s.tree, u, v, hi);
    }
  }

  /** No block numbered w or less tells x and y apart, and they lie on a common cycle. */
  ghost predicate Kin(g: Blocks, o: Order, w: int, x: nat, y: nat)
  {
    && Tied(g, o, x, y)
    && (x <= w || y <= w ==> x == y)
    && forall u: nat :: u <= w ==> (Under(o, u, x) <==> Under(o, u, y))
  }

  lemma KinSelf(g: Blocks, o: Order, w: int, x: nat)
    requires x < |o.names|
    ensures Kin(g, o, w, x, x)
  {
    ReachesSelf(g, o.names[x]);
  }

  lemma FlowsTrans(g: Blocks, o: Order, x: nat, y: nat, z: nat)
    requires Flows(g, o, x, y) && Flows(g, o, y, z)
    ensures Flows(g, o, x, z)
  {
    ReachesTrans(g, o.names[x], o.names[y], o.names[z]);
  }

  lemma KinTrans(g: Blocks, o: Order, w: int, x: nat, y: nat, z: nat)
    requires Kin(g, o, w, x, y) && Kin(g, o, w, y, z)
    ensures Kin(g, o, w, x, z)
  {
    FlowsTrans(g, o, x, y, z);
    FlowsTrans(g, o, z, y, x);
  }

  lemma KinSym(g: Blocks, o: Order, w: int, x: nat, y: nat)
    requires Kin(g, o, w, x, y)
    ensures Kin(g, o, w, y, x)
  {}

  /** Headers down to w + 1 are collapsed: links stay within kin and never make a cycle. */
  ghost predicate Collapsed(g: Blocks, o: Order, nodes: seq<Uf>, rank: seq<nat>, w: int)
    ensures Collapsed(g, o, nodes, rank, w) ==> |rank| == |o.names| <= |nodes| && Forest(nodes, rank)
  {
    && |rank| == |o.names| && Forest(nodes, rank)
    && (forall x: nat :: x < |rank| ==> nodes[x].bb == Some(o.names[x]) && nodes[x].dfs == x)
    && (forall x: nat :: x < |rank| ==> Kin(g, o, w, x, nodes[x].parent))
  }

  lemma {:induction false} ChainKin(g: Blocks, o: Order, nodes: seq<Uf>, rank: seq<nat>, w: int, n: nat, i: nat)
    requires Collapsed(g, o, nodes, rank, w) && n < |rank| && i < |Chain(nodes, rank, n)|
    ensures Kin(g, o, w, n, Chain(nodes, rank, n)[i])
    decreases i
  {
    hide Kin;
    assert Link(nodes, rank, n);
    if i == 0 {
      KinSelf(g, o, w, n);
    } else {
      ChainKin(g, o, nodes, rank, w, nodes[n].parent, i - 1);
      KinTrans(g, o, w, n, nodes[n].parent, Chain(nodes, rank, n)[i]);
    }
  }

  /** find_set keeps the collapse, whatever it does to roots, and answers with kin. */
  lemma HookedCollapsed(g: Blocks, o: Order, nodes: seq<Uf>, rank: seq<nat>, w: int, n: nat)
    requires Collapsed(g, o, nodes, rank, w) && n < |rank|
    ensures var c := Chain(nodes, rank, n); Collapsed(g, o, Hooked(nodes, c), Reranked(rank, c), w)
    ensures Kin(g, o, w, n, Root(nodes, rank, n))
  {
    hide Kin, Chain, Hooked, Reranked, Forest;
    var c := Chain(nodes, rank, n);
    HookedForest(nodes, rank, n);
    ChainKin(g, o, nodes, rank, w, n, |c| - 1);
    forall x: nat | x < |rank| ensures Kin(g, o, w, x, Hooked(nodes, c)[x].parent) {
      HookedParent(nodes, rank, n, x);
      if |c| >= 4 && x in c[..|c| - 2] {
        var i :| 0 <= i < |c| - 2 && c[i] == x;
        ChainKin(g, o, nodes, rank, w, n, i);
        ChainKin(g, o, nodes, rank, w, n, 1);
        KinSym(g, o, w, n, x);
        KinTrans(g, o, w, x, n, c[1]);
      }
    }
    forall x: nat | x < |rank|
      ensures Hooked(nodes, c)[x].bb == Some(o.names[x]) && Hooked(nodes, c)[x].dfs == x
    {
      HookedParent(nodes, rank, n, x);
    }
  }

  // ── Pools ─────────────────────────────────────────────────────────

  /** Members of w's pool are proper descendants of w on a common cycle with w. */
  ghost predicate PoolOk(g: Blocks, o: Order, w: nat, pool: seq<nat>)
  {
    forall x :: x in pool ==> Under(o, w, x) && Tied(g, o, w, x)
  }

  ghost predicate Pooled(nodes: seq<Uf>, nodes': seq<Uf>, pool: seq<nat>, w: nat)
  {
    && |nodes'| == |nodes|
    && (forall x: nat :: x < |nodes| ==>
          nodes'[x] == nodes[x].(lp := nodes'[x].lp, parent := if x in pool then w else nodes[x].parent))
  }

  ghost function PoolRank(rank: seq<nat>, w: nat): (r: seq<nat>)
    ensures |r| == |rank|
  {
    seq(|rank|, i requires 0 <= i < |rank| => if i == w then 0 else rank[i] + 1)
  }

  /** Hanging a pool from its header moves the collapse on to the next header. */
  lemma PoolCollapsed(g: Blocks, o: Order, nodes: seq<Uf>, nodes': seq<Uf>, rank: seq<nat>, w: nat, pool: seq<nat>)
    requires Ordered(g, o) && Collapsed(g, o, nodes, rank, w) && w < |rank| && PoolOk(g, o, w, pool)
    requires Pooled(nodes, nodes', pool, w)
    ensures Collapsed(g, o, nodes', PoolRank(rank, w), w - 1)
  {
    assert Kin(g, o, w, w, nodes[w].parent);
    forall x: nat | x < |rank| ensures Link(nodes', PoolRank(rank, w), x) { assert Link(nodes, rank, x); }
    forall x: nat | x < |rank| ensures Kin(g, o, w - 1, x, nodes'[x].parent) {
      assert Kin(g, o, w, x, nodes[x].parent);
      if x in pool { PoolKin(g, o, w, x); }
    }
  }

  lemma PoolKin(g: Blocks, o: Order, w: nat, x: nat)
    requires Ordered(g, o) && w < |o.names| && Under(o, w, x) && Tied(g, o, w, x)
    ensures Kin(g, o, w - 1, x, w)
  {
    forall u: nat | u <= w - 1 ensures Under(o, u, x) <==> Under(o, u, w) {}
  }

  // ── Edge lists ────────────────────────────────────────────────────

  /** Sources of edges into x from x itself or from below it. */
  ghost predicate IsBackPred(g: Blocks, o: Order, x: nat, v: nat)
  {
    x < |o.names| && v < |o.names| && Edge(g, o.names[v], o.names[x]) && Within(o, x, v)
  }

  /** back holds every back edge; others holds every other edge, and only blocks that reach x from outside. */
  ghost predicate EdgesOk(g: Blocks, o: Order, back: seq<seq<nat>>, others: seq<seq<nat>>)
    ensures EdgesOk(g, o, back, others) ==> |back| == |others| == |g| >= |o.names|
  {
    && |back| == |others| == |g| >= |o.names|
    && (forall x: nat, v: nat :: x < |o.names| ==> (v in back[x] <==> IsBackPred(g, o, x, v)))
    && (forall x: nat, v: nat :: x < |o.names| && v in others[x] ==> Comes(g, o, x, v))
    && (forall x: nat, v: nat {:trigger Edge(g, o.names[v], o.names[x])} ::
          x < |o.names| && v < |o.names| && Edge(g, o.names[v], o.names[x]) ==> v in others[x] || v in back[x])
  }

  ghost predicate Comes(g: Blocks, o: Order, x: nat, v: nat) { Flows(g, o, v, x) && !Within(o, x, v) }

  /** One entry more in the other edges of w. */
  lemma EdgesGrow(g: Blocks, o: Order, back: seq<seq<nat>>, others: seq<seq<nat>>, w: nat, y: nat)
    requires EdgesOk(g, o, back, others) && w < |o.names| && Comes(g, o, w, y)
    ensures EdgesOk(g, o, back, others[w := others[w] + [y]])
  {}

  // ── What a finished header has ────────────────────────────────────

  datatype BbClass = Top | NonHeader | Reducible | SelfLoop | Irreducible | Dead

  /** Some member of the pool is entered from outside the header's subtree. */
  ghost predicate Entered(o: Order, others: seq<seq<nat>>, w: nat, pool: seq<nat>)
  {
    exists x: nat :: x in pool && EnteredAt(o, others, w, x)
  }

  ghost predicate EnteredAt(o: Order, others: seq<seq<nat>>, w: nat, x: nat)
  {
    x < |others| && exists y: nat :: y in others[x] && !Within(o, w, y)
  }

  ghost function ClassOf(o: Order, back: seq<nat>, others: seq<seq<nat>>, w: nat, pool: seq<nat>): BbClass
  {
    if back == [] then NonHeader
    else if pool == [] then SelfLoop
    else if Entered(o, others, w, pool) then Irreducible
    else Reducible
  }

  // ── Steps of one header ───────────────────────────────────────────

  /** Only parent links differ. */
  ghost predicate OnlyLinks(nodes: seq<Uf>, nodes': seq<Uf>)
  {
    |nodes'| == |nodes| && forall x: nat :: x < |nodes| ==> nodes'[x] == nodes[x].(parent := nodes'[x].parent)
  }

  lemma HookedLinks(nodes: seq<Uf>, c: seq<nat>)
    ensures OnlyLinks(nodes, Hooked(nodes, c))
  {}

  lemma LinksSelf(nodes: seq<Uf>)
    ensures OnlyLinks(nodes, nodes)
  {}

  lemma PoolEmpty(g: Blocks, o: Order, w: nat)
    ensures PoolOk(g, o, w, [])
  {}

  lemma PoolJoin(g: Blocks, o: Order, w: nat, pool: seq<nat>, s: nat)
    requires PoolOk(g, o, w, pool) && Under(o, w, s) && Tied(g, o, w, s)
    ensures PoolOk(g, o, w, pool + [s])
  {}

  lemma BackListed(g: Blocks, o: Order, back: seq<seq<nat>>, others: seq<seq<nat>>, w: nat, v: nat)
    requires EdgesOk(g, o, back, others) && w < |o.names| && v in back[w]
    ensures IsBackPred(g, o, w, v)
  {}

  lemma LinksTrans(a: seq<Uf>, b: seq<Uf>, c: seq<Uf>)
    requires OnlyLinks(a, b) && OnlyLinks(b, c)
    ensures OnlyLinks(a, c)
  {}

  /** The root of a back edge's source belongs in the pool. */
  lemma BackMember(g: Blocks, o: Order, w: nat, v: nat, s: nat)
    requires Ordered(g, o) && IsBackPred(g, o, w, v) && v != w && Kin(g, o, w, v, s)
    ensures Under(o, w, s) && Tied(g, o, w, s)
  {
    assert Under(o, w, v);
    EdgeFlows(g, o, v, w);
    FlowsTrans(g, o, s, v, w);
    FlowsTrans(g, o, w, v, s);
  }

  lemma EdgeFlows(g: Blocks, o: Order, v: nat, w: nat)
    requires v < |o.names| && w < |o.names| && Edge(g, o.names[v], o.names[w])
    ensures Flows(g, o, v, w)
  {
    ReachesSelf(g, o.names[v]);
    ReachesStep(g, o.names[v], o.names[v], o.names[w]);
  }

  /** A block s with kin y that flows into member x: inside the subtree it joins the pool, outside it enters w. */
  lemma EntryMember(g: Blocks, o: Order, w: nat, x: nat, y: nat, s: nat)
    requires Ordered(g, o) && w < |o.names| && Under(o, w, x) && Tied(g, o, w, x)
    requires Comes(g, o, x, y) && Kin(g, o, w, y, s)
    ensures Within(o, w, y) <==> Within(o, w, s)
    ensures !Within(o, w, s) ==> Comes(g, o, w, s)
    ensures Within(o, w, s) && s != w ==> Under(o, w, s) && Tied(g, o, w, s)
  {
    FlowsTrans(g, o, s, y, x);
    FlowsTrans(g, o, s, x, w);
  }

  /** Whoever flows into member x from inside w's subtree is w itself or has kin in the pool. */
  ghost predicate Absorbed(g: Blocks, o: Order, others: seq<seq<nat>>, w: nat, x: nat, pool: seq<nat>)
  {
    x < |others| && forall y: nat :: y in others[x] && Within(o, w, y) ==> KinIn(g, o, w, y, pool)
  }

  ghost predicate KinIn(g: Blocks, o: Order, w: nat, y: nat, pool: seq<nat>)
  {
    y == w || exists s: nat :: s in pool && Kin(g, o, w, y, s)
  }

  lemma EntryKept(g: Blocks, o: Order, w: nat, y: nat, s: nat, pool: seq<nat>)
    requires Kin(g, o, w, y, s) && (s == w || s in pool)
    ensures KinIn(g, o, w, y, pool)
  {}

  lemma KinInJoin(g: Blocks, o: Order, w: nat, y: nat, pool: seq<nat>, more: seq<nat>)
    requires KinIn(g, o, w, y, pool) && forall x :: x in pool ==> x in more
    ensures KinIn(g, o, w, y, more)
  {}

  lemma PoolBound(g: Blocks, o: Order, w: nat, pool: seq<nat>, x: nat)
    requires Ordered(g, o) && w < |o.names| && PoolOk(g, o, w, pool) && x in pool
    ensures w < x < |o.names| && Under(o, w, x) && Tied(g, o, w, x)
  {}

  lemma OtherListed(g: Blocks, o: Order, back: seq<seq<nat>>, others: seq<seq<nat>>, x: nat, y: nat)
    requires EdgesOk(g, o, back, others) && x < |o.names| && y in others[x]
    ensures Comes(g, o, x, y)
  {}

  lemma ComesBound(g: Blocks, o: Order, x: nat, y: nat)
    requires Comes(g, o, x, y)
    ensures y < |o.names|
  {}

  lemma CollapsedDfs(g: Blocks, o: Order, nodes: seq<Uf>, rank: seq<nat>, w: int, x: nat)
    requires Collapsed(g, o, nodes, rank, w) && x < |o.names|
    ensures x < |nodes| && nodes[x].dfs == x && nodes[x].bb == Some(o.names[x])
  {}

  /** Numbers no pool has taken yet. */
  ghost function Left(n: nat, pool: seq<nat>): nat { |Below(n) - (set x | x in pool)| }

  lemma LeftFalls(n: nat, pool: seq<nat>, s: nat)
    requires s < n && s !in pool
    ensures Left(n, pool + [s]) < Left(n, pool)
  {
    var a, b := Below(n) - (set x | x in pool), Below(n) - (set x | x in pool + [s]);
    assert b <= a && s in a && s !in b;
    SubsetCount(b, a);
  }

  // ── The worklist of one header ────────────────────────────────────

  /** Members taken off the worklist: whoever flows into them has been absorbed or has entered the loop. */
  ghost predicate Drained(g: Blocks, o: Order, others: seq<seq<nat>>, w: nat, gone: set<nat>, pool: seq<nat>,
                          work: seq<nat>)
  {
    && (forall x: nat :: x in pool ==> x in gone || x in work)
    && (forall x: nat :: x in work || x in gone ==> x in pool)
    && (forall x: nat :: x in gone ==> Absorbed(g, o, others, w, x, pool))
  }

  ghost predicate EnteredBy(o: Order, others: seq<seq<nat>>, w: nat, gone: set<nat>)
  {
    exists x: nat :: x in gone && EnteredAt(o, others, w, x)
  }

  /** The first k predecessors of x, seen so far. */
  ghost predicate SeenOutside(o: Order, ys: seq<nat>, w: nat, k: nat)
    requires k <= |ys|
  {
    exists j: nat :: j < k && !Within(o, w, ys[j])
  }

  lemma SeenAll(o: Order, others: seq<seq<nat>>, w: nat, x: nat)
    requires x < |others|
    ensures SeenOutside(o, others[x], w, |others[x]|) <==> EnteredAt(o, others, w, x)
  {
    if EnteredAt(o, others, w, x) {
      var y: nat :| y in others[x] && !Within(o, w, y);
      var j: nat :| j < |others[x]| && others[x][j] == y;
    }
  }

  lemma SeenNext(o: Order, ys: seq<nat>, w: nat, k: nat)
    requires k < |ys|
    ensures SeenOutside(o, ys, w, k + 1) <==> SeenOutside(o, ys, w, k) || !Within(o, w, ys[k])
  {
    if SeenOutside(o, ys, w, k + 1) {
      var j: nat :| j < k + 1 && !Within(o, w, ys[j]);
      if j < k { assert SeenOutside(o, ys, w, k); }
    }
    if !Within(o, w, ys[k]) { assert SeenOutside(o, ys, w, k + 1); }
    if SeenOutside(o, ys, w, k) {
      var j: nat :| j < k && !Within(o, w, ys[j]);
      assert j < k + 1;
    }
  }

  /** A member comes off the worklist once all its predecessors have been seen. */
  lemma DrainedNext(g: Blocks, o: Order, others: seq<seq<nat>>, w: nat, gone: set<nat>, pool: seq<nat>,
                    x: nat, work: seq<nat>, pool': seq<nat>, work': seq<nat>, more: seq<nat>)
    requires Drained(g, o, others, w, gone, pool, [x] + work)
    requires pool' == pool + more && work' == work + more
    requires Absorbed(g, o, others, w, x, pool')
    ensures Drained(g, o, others, w, gone + {x}, pool', work')
  {
    forall z: nat | z in gone ensures Absorbed(g, o, others, w, z, pool') {
      assert Absorbed(g, o, others, w, z, pool);
      forall y: nat | y in others[z] && Within(o, w, y) ensures KinIn(g, o, w, y, pool') {
        KinInJoin(g, o, w, y, pool, pool');
      }
    }
    assert x in [x] + work;
    forall z: nat ensures z in [x] + work <==> z == x || z in work {}
  }

  lemma DrainedStart(g: Blocks, o: Order, others: seq<seq<nat>>, w: nat, pool: seq<nat>)
    ensures Drained(g, o, others, w, {}, pool, pool) && !EnteredBy(o, others, w, {})
  {}

  lemma DrainedMember(g: Blocks, o: Order, others: seq<seq<nat>>, w: nat, gone: set<nat>, pool: seq<nat>,
                      x: nat, work: seq<nat>)
    requires Drained(g, o, others, w, gone, pool, [x] + work)
    ensures x in pool
  {
    assert x in [x] + work;
  }

  /** Only the list of w differs, by entries appended. */
  ghost predicate Extended(others: seq<seq<nat>>, others': seq<seq<nat>>, w: nat)
    ensures Extended(others, others', w) ==> w < |others| == |others'|
  {
    w < |others| == |others'| && others' == others[w := others'[w]] && others[w] <= others'[w]
  }

  lemma ExtendedTrans(a: seq<seq<nat>>, b: seq<seq<nat>>, c: seq<seq<nat>>, w: nat)
    requires Extended(a, b, w) && Extended(b, c, w)
    ensures Extended(a, c, w)
  {}

  lemma FrameOthers(g: Blocks, o: Order, others: seq<seq<nat>>, others': seq<seq<nat>>, w: nat, x: nat, pool: seq<nat>)
    requires Extended(others, others', w) && x != w
    ensures Absorbed(g, o, others, w, x, pool) <==> Absorbed(g, o, others', w, x, pool)
    ensures EnteredAt(o, others, w, x) <==> EnteredAt(o, others', w, x)
  {}

  lemma EnteredNext(o: Order, others: seq<seq<nat>>, w: nat, gone: set<nat>, x: nat)
    ensures EnteredBy(o, others, w, gone + {x}) <==> EnteredBy(o, others, w, gone) || EnteredAt(o, others, w, x)
  {
    if EnteredBy(o, others, w, gone) {
      var z: nat :| z in gone && EnteredAt(o, others, w, z);
      assert z in gone + {x};
    }
    if EnteredAt(o, others, w, x) { assert x in gone + {x}; }
  }

  /** The pool grows from initial, and the kind says whether what has been taken off was entered from outside. */
  ghost predicate Kinded(o: Order, others: seq<seq<nat>>, w: nat, gone: set<nat>, initial: seq<nat>, pool: seq<nat>,
                         ty: seq<BbClass>, ty': seq<BbClass>)
    ensures Kinded(o, others, w, gone, initial, pool, ty, ty') ==> w < |ty| == |ty'|
  {
    && initial <= pool && (initial == [] ==> pool == []) && w < |ty|
    && ty' == ty[w := if pool == [] then ty[w] else if EnteredBy(o, others, w, gone) then Irreducible else Reducible]
  }

  lemma KindedStart(o: Order, others: seq<seq<nat>>, w: nat, initial: seq<nat>, ty: seq<BbClass>)
    requires w < |ty|
    ensures Kinded(o, others, w, {}, initial, initial, ty, if initial == [] then ty else ty[w := Reducible])
  {
    assert ty[w := ty[w]] == ty;
  }

  lemma KindedNext(o: Order, others: seq<seq<nat>>, w: nat, gone: set<nat>, initial: seq<nat>, pool: seq<nat>,
                   ty: seq<BbClass>, ty': seq<BbClass>, x: nat, more: seq<nat>, ty'': seq<BbClass>)
    requires Kinded(o, others, w, gone, initial, pool, ty, ty') && x in pool
    requires ty'' == ty'[w := if EnteredAt(o, others, w, x) then Irreducible else ty'[w]]
    ensures Kinded(o, others, w, gone + {x}, initial, pool + more, ty, ty'')
  {
    hide EnteredBy, EnteredAt;
    EnteredNext(o, others, w, gone, x);
  }

  lemma KindedEnd(o: Order, others: seq<seq<nat>>, w: nat, gone: set<nat>, initial: seq<nat>, pool: seq<nat>,
                  ty: seq<BbClass>, ty': seq<BbClass>)
    requires Kinded(o, others, w, gone, initial, pool, ty, ty')
    ensures initial <= pool && (initial == [] ==> pool == []) && ty' == ty[w := ty'[w]]
    ensures ty'[w] == if pool == [] then ty[w] else if EnteredBy(o, others, w, gone) then Irreducible else Reducible
  {}

  /** With the worklist empty the whole pool has been seen. */
  lemma DrainedAll(g: Blocks, o: Order, others: seq<seq<nat>>, w: nat, gone: set<nat>, pool: seq<nat>)
    requires Drained(g, o, others, w, gone, pool, [])
    ensures EnteredBy(o, others, w, gone) <==> Entered(o, others, w, pool)
    ensures forall x: nat :: x in pool ==> x in gone && Absorbed(g, o, others, w, x, pool)
  {
    if EnteredBy(o, others, w, gone) {
      var x: nat :| x in gone && EnteredAt(o, others, w, x);
      assert x in pool;
    }
    if Entered(o, others, w, pool) {
      var x: nat :| x in pool && EnteredAt(o, others, w, x);
      assert x in gone;
    }
  }
}
