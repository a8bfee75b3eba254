/** Loop bodies as sets of blocks, told by paths alone, and how the collapse finds them. */
module HavlakBody {
  import opened HavlakCollapse
  import opened HavlakDfs
  import opened HavlakGraph
  import opened HavlakSets
  import opened Options

  // ── Paths inside a subtree ────────────────────────────────────────

  ghost predicate Hop(g: Blocks, o: Order, a: nat, b: nat)
  {
    a < |o.names| && b < |o.names| && Edge(g, o.names[a], o.names[b])
  }

  /** p is a path of numbers that stays in u's subtree. */
  ghost predicate Trip(g: Blocks, o: Order, u: nat, p: seq<nat>)
  {
    && p != [] && (forall i: nat :: i < |p| ==> p[i] < |o.names| && Within(o, u, p[i]))
    && forall i: nat :: i + 1 < |p| ==> Hop(g, o, p[i], p[i + 1])
  }

  ghost predicate TripOf(g: Blocks, o: Order, u: nat, p: seq<nat>, x: nat, y: nat)
  {
    Trip(g, o, u, p) && p[0] == x && p[|p| - 1] == y
  }

  /** x reaches y inside u's subtree. */
  ghost predicate Inner(g: Blocks, o: Order, u: nat, x: nat, y: nat) { exists p: seq<nat> :: TripOf(g, o, u, p, x, y) }

  lemma InnerSelf(g: Blocks, o: Order, u: nat, x: nat)
    requires x < |o.names| && Within(o, u, x)
    ensures Inner(g, o, u, x, x)
  {
    assert TripOf(g, o, u, [x], x, x);
  }

  lemma InnerStep(g: Blocks, o: Order, u: nat, x: nat, y: nat, z: nat)
    requires Inner(g, o, u, x, y) && Hop(g, o, y, z) && Within(o, u, z)
    ensures Inner(g, o, u, x, z)
  {
    var p: seq<nat> :| TripOf(g, o, u, p, x, y);
    var q := p + [z];
    forall i: nat | i + 1 < |q| ensures Hop(g, o, q[i], q[i + 1]) {
      if i + 1 < |p| { assert Hop(g, o, p[i], p[i + 1]); }
    }
    assert TripOf(g, o, u, q, x, z);
  }

  lemma InnerTrans(g: Blocks, o: Order, u: nat, x: nat, y: nat, z: nat)
    requires Inner(g, o, u, x, y) && Inner(g, o, u, y, z)
    ensures Inner(g, o, u, x, z)
  {
    var p: seq<nat> :| TripOf(g, o, u, p, x, y);
    var q: seq<nat> :| TripOf(g, o, u, q, y, z);
    var r := p + q[1..];
    forall i: nat | i < |r| ensures r[i] < |o.names| && Within(o, u, r[i]) {
      if i >= |p| { assert r[i] == q[i + 1 - |p|]; }
    }
    forall i: nat | i + 1 < |r| ensures Hop(g, o, r[i], r[i + 1]) {
      if i + 1 < |p| { assert Hop(g, o, p[i], p[i + 1]); } else { assert Hop(g, o, q[i + 1 - |p|], q[i + 2 - |p|]); }
    }
    assert TripOf(g, o, u, r, x, z);
  }

  lemma InnerEnds(g: Blocks, o: Order, u: nat, x: nat, y: nat)
    requires Inner(g, o, u, x, y)
    ensures x < |o.names| && y < |o.names| && Within(o, u, x) && Within(o, u, y)
  {}

  /** A path inside a subtree is inside every larger one. */
  lemma InnerWiden(g: Blocks, o: Order, v: nat, u: nat, x: nat, y: nat)
    requires Ordered(g, o) && v < |o.names| && Within(o, v, u) && Inner(g, o, u, x, y)
    ensures Inner(g, o, v, x, y)
  {
    var p: seq<nat> :| TripOf(g, o, u, p, x, y);
    assert v == u || Under(o, v, u);
    assert TripOf(g, o, v, p, x, y);
  }

  /** Every block of u's subtree is reached from u inside it. */
  ghost predicate Treed(g: Blocks, o: Order)
  {
    forall u: nat, v: nat {:trigger Within(o, u, v)} :: u < |o.names| && v < |o.names| && Within(o, u, v) ==>
        Inner(g, o, u, u, v)
  }

  lemma {:induction false} TreeInner(g: Blocks, o: Order, nodes: seq<Uf>, tree: seq<nat>, u: nat, v: nat, hi: nat)
    requires |o.names| == hi + 1 && Laminar(o.last, tree, 0, 0, hi) && TreeEdges(g, nodes, tree, 0, hi)
    requires forall i: nat :: i <= hi ==> i < |nodes| && nodes[i].bb == Some(o.names[i])
    requires u <= hi && v <= hi && Within(o, u, v)
    ensures Inner(g, o, u, u, v)
    decreases v
  {
    if u == v {
      InnerSelf(g, o, u, u);
    } else {
      assert TreeEdge(g, nodes, tree, v);
      IntervalHolds(o.last, tree, u, v, hi);
      TreeInner(g, o, nodes, tree, u, tree[v], hi);
      InnerStep(g, o, u, u, tree[v], v);
    }
  }

  lemma SearchTreed(g: Blocks, s: Search, name: nat, hi: nat, names: seq<nat>)
    requires Searched(g, s, name, 0, 0, hi) && |names| == hi + 1
    requires forall i: nat :: i <= hi ==> s.nodes[i].bb == Some(names[i])
    ensures Treed(g, Order(names, s.last))
  {
    hide Laminar, TreeEdges, Inner;
    var o := Order(names, s.last);
    forall u: nat, v: nat | u < |o.names| && v < |o.names| && Within(o, u, v) ensures Inner(g, o, u, u, v) {
      TreeInner(g, o, s.nodes, s.tree, u, v, hi);
    }
  }

  // ── Bodies ────────────────────────────────────────────────────────

  /** x is in the body of header u: below u, and reaching u without leaving u's subtree. */
  ghost predicate InBody(g: Blocks, o: Order, u: nat, x: nat) { Under(o, u, x) && Inner(g, o, u, x, u) }

  ghost predicate InLoop(g: Blocks, o: Order, u: nat, x: nat) { x == u || InBody(g, o, u, x) }

  lemma BodyBound(g: Blocks, o: Order, u: nat, x: nat)
    requires InBody(g, o, u, x)
    ensures u < x < |o.names| && Within(o, u, x)
  {
    InnerEnds(g, o, u, x, u);
  }

  /** Bodies nest. */
  lemma BodyTrans(g: Blocks, o: Order, v: nat, u: nat, x: nat)
    requires Ordered(g, o) && InBody(g, o, v, u) && InBody(g, o, u, x)
    ensures InBody(g, o, v, x)
  {
    hide Inner;
    BodyBound(g, o, v, u);
    BodyBound(g, o, u, x);
    InnerWiden(g, o, v, u, x, u);
    InnerTrans(g, o, v, x, u, v);
  }

  /** Of two headers with x in their bodies the inner one is in the body of the outer. */
  lemma BodyBetween(g: Blocks, o: Order, v: nat, u: nat, x: nat)
    requires Ordered(g, o) && Treed(g, o) && v < u && InBody(g, o, v, x) && InBody(g, o, u, x)
    ensures InBody(g, o, v, u)
  {
    hide Inner;
    BodyBound(g, o, v, x);
    BodyBound(g, o, u, x);
    assert Within(o, u, x) && Within(o, v, u);
    InnerWiden(g, o, v, u, u, x);
    InnerTrans(g, o, v, u, x, v);
  }

  /** Whoever enters a loop from inside the header's subtree is in the loop. */
  lemma BodyHop(g: Blocks, o: Order, u: nat, a: nat, b: nat)
    requires u < |o.names| && Hop(g, o, a, b) && InLoop(g, o, u, b) && Within(o, u, a)
    ensures InLoop(g, o, u, a)
  {
    hide Inner;
    InnerSelf(g, o, u, a);
    if b != u { BodyBound(g, o, u, b); }
    InnerStep(g, o, u, a, a, b);
    if b != u { InnerTrans(g, o, u, a, b, u); }
  }

  // ── The outermost header so far ───────────────────────────────────

  /** r is the outermost of the headers above w whose body holds x, or x itself when there is none. */
  ghost predicate IsTop(g: Blocks, o: Order, w: int, x: nat, r: nat)
  {
    && (r == x || (w < r && InBody(g, o, r, x)))
    && forall u: nat :: w < u && InBody(g, o, u, x) ==> r != x && r <= u
  }

  lemma TopUnique(g: Blocks, o: Order, w: int, x: nat, r: nat, s: nat)
    requires IsTop(g, o, w, x, r) && IsTop(g, o, w, x, s)
    ensures r == s
  {}

  /** The outermost header is itself in no body. */
  lemma TopRoot(g: Blocks, o: Order, w: int, x: nat, r: nat, u: nat)
    requires Ordered(g, o) && IsTop(g, o, w, x, r) && w < u
    ensures !InBody(g, o, u, r)
  {
    hide InBody;
    if InBody(g, o, u, r) && r != x {
      BodyTrans(g, o, u, r, x);
      BodyBound(g, o, u, r);
    }
  }

  /** A header above w and what is in its body have one outermost header. */
  lemma TopSame(g: Blocks, o: Order, w: int, y: nat, x: nat, r: nat, s: nat)
    requires Ordered(g, o) && Treed(g, o) && w < y && InBody(g, o, y, x) && IsTop(g, o, w, x, r) && IsTop(g, o, w, y, s)
    ensures r == s
  {
    hide InBody;
    BodyBound(g, o, y, x);
    if r != y {
      assert r < y;
      BodyBetween(g, o, r, y, x);
      assert s != y;
    }
    if s != y { BodyTrans(g, o, s, y, x); BodyBound(g, o, s, y); }
  }

  /** y stands for block a at header r: it is a, or a later header with a in its body. */
  ghost predicate Rep(g: Blocks, o: Order, r: nat, y: nat, a: nat) { y == a || (r < y && InBody(g, o, y, a)) }

  lemma RepTop(g: Blocks, o: Order, w: int, r: nat, y: nat, a: nat, s: nat, t: nat)
    requires Ordered(g, o) && Treed(g, o) && w <= r && Rep(g, o, r, y, a) && IsTop(g, o, w, y, s)
        && IsTop(g, o, w, a, t)
    ensures s == t
  {
    hide InBody;
    if y == a { TopUnique(g, o, w, a, s, t); } else { TopSame(g, o, w, y, a, t, s); }
  }

  /** Inside w's subtree or outside it: a block and who stands for it agree. */
  lemma RepSide(g: Blocks, o: Order, w: nat, r: nat, y: nat, a: nat)
    requires Ordered(g, o) && w < |o.names| && w <= r && Rep(g, o, r, y, a)
    ensures Within(o, w, y) <==> Within(o, w, a)
  {
    hide Inner;
    if y != a { BodyBound(g, o, y, a); }
  }

  // ── Entries ───────────────────────────────────────────────────────

  /** The edge a -> b enters r's loop from outside r's subtree. */
  ghost predicate Entry(g: Blocks, o: Order, r: nat, a: nat, b: nat)
  {
    Hop(g, o, a, b) && InLoop(g, o, r, b) && !Within(o, r, a)
  }

  /** y stands for the source of some entry of r's loop. */
  ghost predicate Stems(g: Blocks, o: Order, r: nat, y: nat)
  {
    exists a: nat, b: nat :: Entry(g, o, r, a, b) && Rep(g, o, r, y, a)
  }

  /** Some member of ys stands for a. */
  ghost predicate Known(g: Blocks, o: Order, ys: seq<nat>, r: nat, a: nat)
  {
    exists y: nat :: y in ys && Rep(g, o, r, y, a)
  }

  /** Direct edges from outside are listed as they are. */
  ghost predicate OthersReal(g: Blocks, o: Order, others: seq<seq<nat>>)
  {
    forall x: nat, v: nat :: x < |o.names| && x < |others| && v in others[x] ==> Hop(g, o, v, x) && !Within(o, x, v)
  }

  /**
   * While no path has been hooked: roots are outermost headers, links go to headers with the child in
   * their bodies, lists hold sources of entries only, and finished headers list all of theirs.
   */
  ghost predicate Exact(g: Blocks, o: Order, nodes: seq<Uf>, rank: seq<nat>, others: seq<seq<nat>>, w: int)
    ensures Exact(g, o, nodes, rank, others, w) ==> Forest(nodes, rank) && |rank| == |o.names| <= |others|
  {
    && Treed(g, o) && Forest(nodes, rank) && |rank| == |o.names| <= |others|
    && (forall x: nat :: x < |rank| ==> IsTop(g, o, w, x, Root(nodes, rank, x)))
    && (forall x: nat :: x < |rank| ==> InLoop(g, o, nodes[x].parent, x))
    && (forall r: nat, y: nat :: r < |rank| && y in others[r] ==> Stems(g, o, r, y))
    && (forall r: nat, a: nat, b: nat :: w < r < |rank| && Entry(g, o, r, a, b) ==> Known(g, o, others[r], r, a))
  }

  lemma RootAt(nodes: seq<Uf>, rank: seq<nat>, x: nat)
    requires Forest(nodes, rank) && x < |rank| && nodes[x].parent == x
    ensures Root(nodes, rank, x) == x
  {}

  lemma ExactStart(g: Blocks, o: Order, nodes: seq<Uf>, rank: seq<nat>, others: seq<seq<nat>>)
    requires Ordered(g, o) && Treed(g, o) && Forest(nodes, rank) && |rank| == |o.names| <= |others|
    requires forall x: nat :: x < |rank| ==> nodes[x].parent == x
    requires OthersReal(g, o, others)
    ensures Exact(g, o, nodes, rank, others, |g| - 1)
  {
    hide Treed, Forest, Root;
    forall x: nat | x < |rank| ensures IsTop(g, o, |g| - 1, x, Root(nodes, rank, x)) { RootAt(nodes, rank, x); }
    forall r: nat, y: nat | r < |rank| && y in others[r] ensures Stems(g, o, r, y) {
      assert Entry(g, o, r, y, r) && Rep(g, o, r, y, y);
    }
  }

  lemma ExactSkip(g: Blocks, o: Order, nodes: seq<Uf>, rank: seq<nat>, others: seq<seq<nat>>, w: int)
    requires Exact(g, o, nodes, rank, others, w) && w >= |o.names|
    ensures Exact(g, o, nodes, rank, others, w - 1)
  {
    hide Treed, Stems, Known, InBody, Entry;
    forall x: nat | x < |rank| ensures IsTop(g, o, w - 1, x, Root(nodes, rank, x)) {
      assert IsTop(g, o, w, x, Root(nodes, rank, x));
      if InBody(g, o, w, x) { BodyBound(g, o, w, x); }
    }
  }

  lemma ExactTop(g: Blocks, o: Order, nodes: seq<Uf>, rank: seq<nat>, others: seq<seq<nat>>, w: int, x: nat)
    requires Exact(g, o, nodes, rank, others, w) && x < |rank|
    ensures IsTop(g, o, w, x, Root(nodes, rank, x)) && Root(nodes, rank, x) < |rank| && Treed(g, o)
  {
    hide Treed, Forest;
  }

  lemma ExactStems(g: Blocks, o: Order, nodes: seq<Uf>, rank: seq<nat>, others: seq<seq<nat>>, w: int, r: nat, y: nat)
    requires Exact(g, o, nodes, rank, others, w) && r < |rank| && y in others[r]
    ensures Stems(g, o, r, y)
  {
    hide Treed, Forest, Stems;
  }

  lemma ExactKnown(g: Blocks, o: Order, back: seq<seq<nat>>, nodes: seq<Uf>, rank: seq<nat>, others: seq<seq<nat>>,
                   w: int, r: nat, a: nat, b: nat)
    requires Exact(g, o, nodes, rank, others, w) && EdgesOk(g, o, back, others) && w < r < |rank|
        && Entry(g, o, r, a, b)
    ensures Known(g, o, others[r], r, a)
  {
    hide Treed, Forest, Known, Stems;
  }

  // ── One header ────────────────────────────────────────────────────

  /** A member of the pool so far: an outermost header, or single block, in w's body. */
  ghost predicate Member(g: Blocks, o: Order, nodes: seq<Uf>, rank: seq<nat>, w: nat, m: nat)
    requires Forest(nodes, rank)
  {
    m < |rank| && InBody(g, o, w, m) && Root(nodes, rank, m) == m
  }

  /** What becomes of predecessor y of a member: its root is w, in the pool, or listed as an entry of w. */
  ghost predicate Sorted(o: Order, nodes: seq<Uf>, rank: seq<nat>, w: nat, pool: seq<nat>, entries: seq<nat>, y: nat)
    requires Forest(nodes, rank)
  {
    y < |rank| && var s := Root(nodes, rank, y); if Within(o, w, s) then s == w || s in pool else s in entries
  }

  /** A source of a back edge has its root in w's body. */
  lemma BackBody(g: Blocks, o: Order, nodes: seq<Uf>, rank: seq<nat>, others: seq<seq<nat>>, w: nat, v: nat)
    requires Ordered(g, o) && Exact(g, o, nodes, rank, others, w) && IsBackPred(g, o, w, v) && v != w
    ensures v < |rank| && Member(g, o, nodes, rank, w, Root(nodes, rank, v))
  {
    hide Inner, Forest, Exact, Root;
    ExactBound(g, o, nodes, rank, others, w);
    InnerSelf(g, o, w, v);
    InnerSelf(g, o, w, w);
    InnerStep(g, o, w, v, v, w);
    ExactTop(g, o, nodes, rank, others, w, v);
    TopMember(g, o, nodes, rank, others, w, v);
  }

  lemma ExactBound(g: Blocks, o: Order, nodes: seq<Uf>, rank: seq<nat>, others: seq<seq<nat>>, w: int)
    requires Exact(g, o, nodes, rank, others, w)
    ensures Forest(nodes, rank) && |rank| == |o.names| <= |others| && Treed(g, o)
  {}

  /** The outermost header over a block of w's body is itself in it. */
  lemma TopMember(g: Blocks, o: Order, nodes: seq<Uf>, rank: seq<nat>, others: seq<seq<nat>>, w: nat, x: nat)
    requires Ordered(g, o) && Exact(g, o, nodes, rank, others, w) && InBody(g, o, w, x)
    ensures x < |rank| && Member(g, o, nodes, rank, w, Root(nodes, rank, x))
  {
    hide Inner, Forest, Exact, Root, InBody;
    BodyBound(g, o, w, x);
    ExactBound(g, o, nodes, rank, others, w);
    ExactTop(g, o, nodes, rank, others, w, x);
    var r := Root(nodes, rank, x);
    if r != x { BodyBetween(g, o, w, r, x); }
    ExactTop(g, o, nodes, rank, others, w, r);
    TopRoot(g, o, w, x, r, Root(nodes, rank, r));
  }

  /** Whoever enters the loop of a member from inside w's subtree is in w's loop. */
  lemma StemBody(g: Blocks, o: Order, w: nat, m: nat, y: nat)
    requires Ordered(g, o) && Treed(g, o) && w < |o.names| && InBody(g, o, w, m) && Stems(g, o, m, y)
    ensures y < |o.names| && (Within(o, w, y) ==> InLoop(g, o, w, y))
  {
    hide Inner;
    var a: nat, b: nat :| Entry(g, o, m, a, b) && Rep(g, o, m, y, a);
    BodyBound(g, o, w, m);
    if b != m { BodyTrans(g, o, w, m, b); }
    RepSide(g, o, w, m, y, a);
    if y != a { BodyBound(g, o, y, a); }
    if Within(o, w, y) {
      BodyHop(g, o, w, a, b);
      if y != a && y != w {
        assert a != w;
        BodyBetween(g, o, w, y, a);
      }
    }
  }

  /** So its root is w or a member. */
  lemma StemMember(g: Blocks, o: Order, nodes: seq<Uf>, rank: seq<nat>, others: seq<seq<nat>>, w: nat, m: nat, y: nat)
    requires Ordered(g, o) && Exact(g, o, nodes, rank, others, w) && w < |o.names|
    requires m < |rank| && InBody(g, o, w, m) && y in others[m]
    ensures y < |rank|
    ensures var s := Root(nodes, rank, y);
            && (Within(o, w, s) <==> Within(o, w, y))
            && (Within(o, w, s) && s != w ==> Member(g, o, nodes, rank, w, s))
  {
    hide Inner, Forest, Exact, Root, InBody;
    ExactBound(g, o, nodes, rank, others, w);
    ExactStems(g, o, nodes, rank, others, w, m, y);
    StemBody(g, o, w, m, y);
    ExactTop(g, o, nodes, rank, others, w, y);
    var s := Root(nodes, rank, y);
    if s != y { BodyBound(g, o, s, y); }
    if Within(o, w, y) && y != w { TopMember(g, o, nodes, rank, others, w, y); }
  }

  /** The pool of w with its predecessors all sorted. */
  ghost predicate Closed(g: Blocks, o: Order, back: seq<seq<nat>>, nodes: seq<Uf>, rank: seq<nat>,
                         others: seq<seq<nat>>, w: nat, pool: seq<nat>, entries: seq<nat>)
    requires Forest(nodes, rank) && w < |back| && |rank| <= |others|
  {
    && (forall m: nat :: m in pool ==> Member(g, o, nodes, rank, w, m))
    && (forall v: nat :: v in back[w] && v != w ==> v < |rank| && Root(nodes, rank, v) in pool)
    && (forall m: nat, y: nat :: m in pool && m < |rank| && y in others[m] ==>
       Sorted(o, nodes, rank, w, pool, entries, y))
  }

  /** Then every block of the body has its root in the pool, by induction along its path to w. */
  lemma {:induction false} BodyPooled(g: Blocks, o: Order, back: seq<seq<nat>>, nodes: seq<Uf>, rank: seq<nat>,
                                      others: seq<seq<nat>>, w: nat, pool: seq<nat>, entries: seq<nat>, p: seq<nat>)
    requires Ordered(g, o) && EdgesOk(g, o, back, others) && Exact(g, o, nodes, rank, others, w) && w < |o.names|
    requires Closed(g, o, back, nodes, rank, others, w, pool, entries)
    requires Trip(g, o, w, p) && p[|p| - 1] == w && p[0] != w
    ensures p[0] < |rank| && Root(nodes, rank, p[0]) in pool
    decreases |p|
  {
    hide Inner, Forest, Exact, Root, InBody, EdgesOk, Member, Sorted, Ordered, Closed;
    ExactBound(g, o, nodes, rank, others, w);
    var x, z := p[0], p[1];
    assert Hop(g, o, x, z);
    if z == w {
      BackPooled(g, o, back, nodes, rank, others, w, pool, entries, x);
    } else {
      TripTail(g, o, w, p);
      BodyPooled(g, o, back, nodes, rank, others, w, pool, entries, p[1..]);
      assert p[1..][0] == z;
      HopPooled(g, o, back, nodes, rank, others, w, pool, entries, x, z);
    }
  }

  lemma TripTail(g: Blocks, o: Order, w: nat, p: seq<nat>)
    requires Trip(g, o, w, p) && |p| > 1
    ensures Trip(g, o, w, p[1..]) && p[1..][|p| - 2] == p[|p| - 1] && p[1..][0] == p[1]
  {
    var q := p[1..];
    forall i: nat | i + 1 < |q| ensures Hop(g, o, q[i], q[i + 1]) { assert Hop(g, o, p[i + 1], p[i + 2]); }
  }

  lemma BackPooled(g: Blocks, o: Order, back: seq<seq<nat>>, nodes: seq<Uf>, rank: seq<nat>, others: seq<seq<nat>>,
                   w: nat, pool: seq<nat>, entries: seq<nat>, x: nat)
    requires EdgesOk(g, o, back, others) && Forest(nodes, rank) && w < |o.names| && |rank| == |o.names|
    requires Closed(g, o, back, nodes, rank, others, w, pool, entries)
    requires Hop(g, o, x, w) && Within(o, w, x) && x != w
    ensures x < |rank| && Root(nodes, rank, x) in pool
  {
    assert IsBackPred(g, o, w, x);
    assert x in back[w];
  }

  /** One step back along an edge inside w's subtree. */
  lemma HopPooled(g: Blocks, o: Order, back: seq<seq<nat>>, nodes: seq<Uf>, rank: seq<nat>, others: seq<seq<nat>>,
                  w: nat, pool: seq<nat>, entries: seq<nat>, x: nat, z: nat)
    requires Ordered(g, o) && EdgesOk(g, o, back, others) && Exact(g, o, nodes, rank, others, w) && w < |o.names|
    requires Closed(g, o, back, nodes, rank, others, w, pool, entries)
    requires Hop(g, o, x, z) && Within(o, w, x) && x != w && z < |rank| && Root(nodes, rank, z) in pool
    ensures x < |rank| && Root(nodes, rank, x) in pool
  {
    hide Inner, Forest, Exact, Root, InBody, EdgesOk, Ordered;
    ExactBound(g, o, nodes, rank, others, w);
    var m := Root(nodes, rank, z);
    assert Member(g, o, nodes, rank, w, m);
    ExactTop(g, o, nodes, rank, others, w, z);
    ExactTop(g, o, nodes, rank, others, w, x);
    ExactTop(g, o, nodes, rank, others, w, m);
    BodyBound(g, o, w, m);
    assert InLoop(g, o, m, z);
    var r := Root(nodes, rank, x);
    if Within(o, m, x) {
      BodyHop(g, o, m, x, z);
      if x != m { TopSame(g, o, w, m, x, r, m); }
    } else {
      assert Entry(g, o, m, x, z);
      ExactKnown(g, o, back, nodes, rank, others, w, m, x, z);
      var y: nat :| y in others[m] && Rep(g, o, m, y, x);
      StemMember(g, o, nodes, rank, others, w, m, y);
      assert Sorted(o, nodes, rank, w, pool, entries, y);
      ExactTop(g, o, nodes, rank, others, w, y);
      RepTop(g, o, w, m, y, x, Root(nodes, rank, y), r);
      RepSide(g, o, w, m, y, x);
      if r != x { BodyBound(g, o, r, x); }
    }
  }

  /** The pool holds the roots of exactly the blocks of the body. */
  lemma PoolBody(g: Blocks, o: Order, back: seq<seq<nat>>, nodes: seq<Uf>, rank: seq<nat>, others: seq<seq<nat>>,
                 w: nat, pool: seq<nat>, entries: seq<nat>, x: nat)
    requires Ordered(g, o) && EdgesOk(g, o, back, others) && Exact(g, o, nodes, rank, others, w) && w < |o.names|
    requires Closed(g, o, back, nodes, rank, others, w, pool, entries) && x < |rank|
    ensures InBody(g, o, w, x) <==> Root(nodes, rank, x) in pool
  {
    hide Forest, Exact, Root, EdgesOk, Ordered;
    ExactTop(g, o, nodes, rank, others, w, x);
    var m := Root(nodes, rank, x);
    if InBody(g, o, w, x) {
      var p: seq<nat> :| TripOf(g, o, w, p, x, w);
      BodyPooled(g, o, back, nodes, rank, others, w, pool, entries, p);
    }
    if m in pool {
      assert Member(g, o, nodes, rank, w, m);
      if m != x { BodyTrans(g, o, w, m, x); }
    }
  }

  /** w is the innermost header whose body holds x. */
  ghost predicate Innermost(g: Blocks, o: Order, w: nat, x: nat)
  {
    InBody(g, o, w, x) && forall u: nat :: w < u ==> !InBody(g, o, u, x)
  }

  /** Some edge enters w's body from outside w's subtree. */
  ghost predicate BodyEntered(g: Blocks, o: Order, w: nat)
  {
    exists a: nat, b: nat :: Hop(g, o, a, b) && InBody(g, o, w, b) && !Within(o, w, a)
  }

  /** The pool is exactly the blocks whose innermost header is w. */
  lemma PoolInnermost(g: Blocks, o: Order, back: seq<seq<nat>>, nodes: seq<Uf>, rank: seq<nat>, others: seq<seq<nat>>,
                      w: nat, pool: seq<nat>, entries: seq<nat>, x: nat)
    requires Ordered(g, o) && EdgesOk(g, o, back, others) && Exact(g, o, nodes, rank, others, w) && w < |o.names|
    requires Closed(g, o, back, nodes, rank, others, w, pool, entries)
    ensures x in pool <==> Innermost(g, o, w, x)
  {
    hide Forest, Exact, Root, EdgesOk, Ordered, InBody;
    ExactBound(g, o, nodes, rank, others, w);
    if x in pool {
      assert Member(g, o, nodes, rank, w, x);
      ExactTop(g, o, nodes, rank, others, w, x);
    }
    if Innermost(g, o, w, x) {
      BodyBound(g, o, w, x);
      ExactTop(g, o, nodes, rank, others, w, x);
      PoolBody(g, o, back, nodes, rank, others, w, pool, entries, x);
    }
  }

  /** A listed predecessor of a member outside w's subtree means an edge into the body from outside. */
  lemma EnteredIff(g: Blocks, o: Order, back: seq<seq<nat>>, nodes: seq<Uf>, rank: seq<nat>, others: seq<seq<nat>>,
                   w: nat, pool: seq<nat>, entries: seq<nat>)
    requires Ordered(g, o) && EdgesOk(g, o, back, others) && Exact(g, o, nodes, rank, others, w) && w < |o.names|
    requires Closed(g, o, back, nodes, rank, others, w, pool, entries)
    ensures Entered(o, others, w, pool) <==> BodyEntered(g, o, w)
  {
    hide Forest, Exact, Root, EdgesOk, Ordered, Inner, InBody;
    ExactBound(g, o, nodes, rank, others, w);
    if Entered(o, others, w, pool) {
      var m: nat :| m in pool && EnteredAt(o, others, w, m);
      var y: nat :| y in others[m] && !Within(o, w, y);
      assert Member(g, o, nodes, rank, w, m);
      BodyBound(g, o, w, m);
      ExactStems(g, o, nodes, rank, others, w, m, y);
      var a: nat, b: nat :| Entry(g, o, m, a, b) && Rep(g, o, m, y, a);
      RepSide(g, o, w, m, y, a);
      if b != m { BodyTrans(g, o, w, m, b); }
    }
    if BodyEntered(g, o, w) {
      var a: nat, b: nat :| Hop(g, o, a, b) && InBody(g, o, w, b) && !Within(o, w, a);
      BodyBound(g, o, w, b);
      var m := EntrySeen(g, o, back, nodes, rank, others, w, pool, entries, a, b);
      var y: nat :| y in others[m] && Rep(g, o, m, y, a);
      RepSide(g, o, w, m, y, a);
      assert EnteredAt(o, others, w, m);
    }
  }

  /** The member over the target of such an edge lists its source. */
  lemma EntrySeen(g: Blocks, o: Order, back: seq<seq<nat>>, nodes: seq<Uf>, rank: seq<nat>, others: seq<seq<nat>>,
                  w: nat, pool: seq<nat>, entries: seq<nat>, a: nat, b: nat) returns (m: nat)
    requires Ordered(g, o) && EdgesOk(g, o, back, others) && Exact(g, o, nodes, rank, others, w) && w < |o.names|
    requires Closed(g, o, back, nodes, rank, others, w, pool, entries)
    requires Hop(g, o, a, b) && InBody(g, o, w, b) && !Within(o, w, a)
    ensures m in pool && w < m < |rank| && m < |others| && Member(g, o, nodes, rank, w, m)
        && Known(g, o, others[m], m, a)
  {
    hide Forest, Exact, Root, EdgesOk, Inner, InBody;
    ExactBound(g, o, nodes, rank, others, w);
    BodyBound(g, o, w, b);
    PoolBody(g, o, back, nodes, rank, others, w, pool, entries, b);
    ExactTop(g, o, nodes, rank, others, w, b);
    m := Root(nodes, rank, b);
    assert Member(g, o, nodes, rank, w, m);
    BodyBound(g, o, w, m);
    assert Under(o, w, m);
    assert Entry(g, o, m, a, b);
    ExactKnown(g, o, back, nodes, rank, others, w, m, a, b);
  }

  /** z is the root of a predecessor of a member, outside w's subtree. */
  ghost predicate Fresh(o: Order, nodes: seq<Uf>, rank: seq<nat>, others: seq<seq<nat>>, w: nat, pool: seq<nat>, z: nat)
    requires Forest(nodes, rank)
  {
    exists m: nat, y: nat ::
      m in pool && m < |others| && y in others[m] && y < |rank| && Root(nodes, rank, y) == z && !Within(o, w, z)
  }

  /** What the step of header w did to the lists. */
  ghost predicate Relisted(o: Order, nodes: seq<Uf>, rank: seq<nat>, others: seq<seq<nat>>, others': seq<seq<nat>>,
                           w: nat, pool: seq<nat>)
    requires Forest(nodes, rank)
    ensures Relisted(o, nodes, rank, others, others', w, pool) ==> w < |others| == |others'|
  {
    && Extended(others, others', w)
    && forall z: nat :: z in others'[w] ==> z in others[w] || Fresh(o, nodes, rank, others, w, pool, z)
  }

  /** A new entry of w stands for the source of an edge into w's body. */
  lemma FreshStems(g: Blocks, o: Order, nodes: seq<Uf>, rank: seq<nat>, others: seq<seq<nat>>, w: nat, pool: seq<nat>,
                   z: nat)
    requires Ordered(g, o) && Exact(g, o, nodes, rank, others, w) && w < |o.names|
    requires forall m: nat :: m in pool ==> Member(g, o, nodes, rank, w, m)
    requires Fresh(o, nodes, rank, others, w, pool, z)
    ensures Stems(g, o, w, z)
  {
    hide Forest, Exact, Root, Inner, InBody;
    ExactBound(g, o, nodes, rank, others, w);
    var m: nat, y: nat :| m in pool && m < |others| && y in others[m] && y < |rank| && Root(nodes, rank, y) == z
        && !Within(o, w, z);
    assert Member(g, o, nodes, rank, w, m);
    BodyBound(g, o, w, m);
    ExactStems(g, o, nodes, rank, others, w, m, y);
    var a: nat, b: nat :| Entry(g, o, m, a, b) && Rep(g, o, m, y, a);
    if b != m { BodyTrans(g, o, w, m, b); }
    ExactTop(g, o, nodes, rank, others, w, y);
    if z != y && y != a { BodyTrans(g, o, z, y, a); }
    assert Rep(g, o, w, z, a);
    RepSide(g, o, w, w, z, a);
    assert Entry(g, o, w, a, b);
  }

  /** Every edge into w's loop from outside is now known at w. */
  lemma EntryKnown(g: Blocks, o: Order, back: seq<seq<nat>>, nodes: seq<Uf>, rank: seq<nat>, others: seq<seq<nat>>,
                   others': seq<seq<nat>>, w: nat, pool: seq<nat>, a: nat, b: nat)
    requires Ordered(g, o) && EdgesOk(g, o, back, others) && Exact(g, o, nodes, rank, others, w) && w < |o.names|
    requires Relisted(o, nodes, rank, others, others', w, pool)
    requires Closed(g, o, back, nodes, rank, others, w, pool, others'[w]) && Entry(g, o, w, a, b)
    ensures Known(g, o, others'[w], w, a)
  {
    hide Forest, Exact, Root, Inner, InBody, Fresh;
    ExactBound(g, o, nodes, rank, others, w);
    if b == w {
      ListedDirect(g, o, back, others, w, a);
      assert Rep(g, o, w, a, a);
    } else {
      var m := EntrySeen(g, o, back, nodes, rank, others, w, pool, others'[w], a, b);
      var y: nat :| y in others[m] && Rep(g, o, m, y, a);
      StemMember(g, o, nodes, rank, others, w, m, y);
      assert Sorted(o, nodes, rank, w, pool, others'[w], y);
      RepSide(g, o, w, m, y, a);
      ExactTop(g, o, nodes, rank, others, w, y);
      var z := Root(nodes, rank, y);
      if z != y && y != a { BodyTrans(g, o, z, y, a); }
      assert Rep(g, o, w, z, a);
    }
  }

  lemma ListedDirect(g: Blocks, o: Order, back: seq<seq<nat>>, others: seq<seq<nat>>, w: nat, a: nat)
    requires EdgesOk(g, o, back, others) && Hop(g, o, a, w) && !Within(o, w, a)
    ensures w < |others| && a in others[w]
  {
    assert Edge(g, o.names[a], o.names[w]);
  }

  /** Root of x after w's step. */
  ghost predicate Moved(nodes: seq<Uf>, rank: seq<nat>, nodes': seq<Uf>, rank': seq<nat>, w: nat, pool: seq<nat>)
    requires Forest(nodes, rank)
  {
    && Forest(nodes', rank') && |rank'| == |rank|
    && (forall x: nat :: x < |rank| ==> nodes'[x].parent == if x in pool then w else nodes[x].parent)
    && (forall x: nat :: x < |rank| ==>
          Root(nodes', rank', x) == if Root(nodes, rank, x) in pool then w else Root(nodes, rank, x))
  }

  /** One header keeps the collapse exact. */
  lemma StepExact(g: Blocks, o: Order, back: seq<seq<nat>>, nodes: seq<Uf>, rank: seq<nat>, others: seq<seq<nat>>,
                  nodes': seq<Uf>, rank': seq<nat>, others': seq<seq<nat>>, w: nat, pool: seq<nat>)
    requires Ordered(g, o) && EdgesOk(g, o, back, others) && Exact(g, o, nodes, rank, others, w) && w < |o.names|
    requires Relisted(o, nodes, rank, others, others', w, pool)
    requires Closed(g, o, back, nodes, rank, others, w, pool, others'[w])
    requires Moved(nodes, rank, nodes', rank', w, pool)
    ensures Exact(g, o, nodes', rank', others', w - 1)
  {
    hide Forest, Root, Inner, InBody, Fresh, Stems, Known, Entry, Treed, EdgesOk, Ordered;
    forall x: nat | x < |rank| ensures IsTop(g, o, w - 1, x, Root(nodes', rank', x)) {
      TopNext(g, o, back, nodes, rank, others, w, pool, others'[w], x);
    }
    forall x: nat | x < |rank| ensures InLoop(g, o, nodes'[x].parent, x) {
      if x in pool { assert Member(g, o, nodes, rank, w, x); }
    }
    forall r: nat, y: nat | r < |rank| && y in others'[r] ensures Stems(g, o, r, y) {
      if r == w && y !in others[w] { FreshStems(g, o, nodes, rank, others, w, pool, y); }
    }
    forall r: nat, a: nat, b: nat | w - 1 < r < |rank| && Entry(g, o, r, a, b) ensures Known(g, o, others'[r], r, a) {
      if r == w { EntryKnown(g, o, back, nodes, rank, others, others', w, pool, a, b); }
    }
  }

  lemma TopNext(g: Blocks, o: Order, back: seq<seq<nat>>, nodes: seq<Uf>, rank: seq<nat>, others: seq<seq<nat>>,
                w: nat, pool: seq<nat>, entries: seq<nat>, x: nat)
    requires Ordered(g, o) && EdgesOk(g, o, back, others) && Exact(g, o, nodes, rank, others, w) && w < |o.names|
    requires Closed(g, o, back, nodes, rank, others, w, pool, entries) && x < |rank|
    ensures IsTop(g, o, w - 1, x, if Root(nodes, rank, x) in pool then w else Root(nodes, rank, x))
  {
    hide Forest, Exact, Root, InBody, EdgesOk, Ordered, Closed;
    PoolBody(g, o, back, nodes, rank, others, w, pool, entries, x);
    ExactTop(g, o, nodes, rank, others, w, x);
    if InBody(g, o, w, x) { BodyBound(g, o, w, x); }
  }

  // ── When nothing is hooked ────────────────────────────────────────

  /** No block lies in three loop bodies nested in each other. */
  ghost predicate Shallow(g: Blocks, o: Order)
  {
    forall x: nat, u: nat, v: nat, t: nat :: !(InBody(g, o, u, x) && InBody(g, o, v, u) && InBody(g, o, t, v))
  }

  /** Links go to headers with the child in their bodies. */
  ghost predicate BodyLinks(g: Blocks, o: Order, nodes: seq<Uf>, count: nat)
  {
    count <= |nodes| && forall x: nat :: x < count ==> InLoop(g, o, nodes[x].parent, x)
  }

  lemma ExactLinks(g: Blocks, o: Order, nodes: seq<Uf>, rank: seq<nat>, others: seq<seq<nat>>, w: int)
    requires Exact(g, o, nodes, rank, others, w)
    ensures BodyLinks(g, o, nodes, |rank|)
  {}

  /** In a shallow graph no path has three links. */
  lemma ShallowChain(g: Blocks, o: Order, nodes: seq<Uf>, rank: seq<nat>, n: nat)
    requires Shallow(g, o) && BodyLinks(g, o, nodes, |rank|) && Forest(nodes, rank) && n < |rank|
    ensures |Chain(nodes, rank, n)| <= 3
  {
    hide Chain, Forest, InBody, Shallow;
    var c := Chain(nodes, rank, n);
    if |c| > 3 {
      ChainBody(g, o, nodes, rank, n, 0);
      ChainBody(g, o, nodes, rank, n, 1);
      NotThree(g, o, c[0], c[1], c[2], c[3]);
      ChainBody(g, o, nodes, rank, n, 2);
    }
  }

  /** From one state to a later one: unhooked paths change nothing, and in a shallow graph none is hooked. */
  ghost predicate Steady(g: Blocks, o: Order, nodes: seq<Uf>, rank: seq<nat>, straight: bool,
                         nodes': seq<Uf>, rank': seq<nat>, straight': bool)
  {
    && (straight' ==> straight && nodes' == nodes && rank' == rank)
    && (straight && Shallow(g, o) && BodyLinks(g, o, nodes, |rank|) ==> straight')
  }

  lemma SteadySelf(g: Blocks, o: Order, nodes: seq<Uf>, rank: seq<nat>, straight: bool)
    ensures Steady(g, o, nodes, rank, straight, nodes, rank, straight)
  {}

  lemma SteadyTrans(g: Blocks, o: Order, n0: seq<Uf>, r0: seq<nat>, s0: bool, n1: seq<Uf>, r1: seq<nat>, s1: bool,
                    n2: seq<Uf>, r2: seq<nat>, s2: bool)
    requires Steady(g, o, n0, r0, s0, n1, r1, s1) && Steady(g, o, n1, r1, s1, n2, r2, s2)
    ensures Steady(g, o, n0, r0, s0, n2, r2, s2)
  {
    hide Shallow, BodyLinks;
  }

  /** find_set is steady. */
  lemma HookedSteady(g: Blocks, o: Order, nodes: seq<Uf>, rank: seq<nat>, n: nat, straight: bool)
    requires Forest(nodes, rank) && n < |rank|
    ensures var c := Chain(nodes, rank, n);
            Steady(g, o, nodes, rank, straight, Hooked(nodes, c), Reranked(rank, c), straight && |c| <= 3)
  {
    hide Chain, Forest, Shallow, BodyLinks, Hooked, Reranked;
    if |Chain(nodes, rank, n)| <= 3 { HookedShort(nodes, rank, n); }
    if Shallow(g, o) && BodyLinks(g, o, nodes, |rank|) { ShallowChain(g, o, nodes, rank, n); }
  }

  lemma ChainBody(g: Blocks, o: Order, nodes: seq<Uf>, rank: seq<nat>, n: nat, i: nat)
    requires BodyLinks(g, o, nodes, |rank|) && Forest(nodes, rank) && n < |rank| && i + 1 < |Chain(nodes, rank, n)|
    ensures var c := Chain(nodes, rank, n); InBody(g, o, c[i + 1], c[i])
  {
    hide Chain, Forest, InBody;
    var c := Chain(nodes, rank, n);
    ChainLinks(nodes, rank, n, i);
    assert InLoop(g, o, nodes[c[i]].parent, c[i]);
  }

  lemma NotThree(g: Blocks, o: Order, x: nat, u: nat, v: nat, t: nat)
    requires Shallow(g, o) && InBody(g, o, u, x) && InBody(g, o, v, u)
    ensures !InBody(g, o, t, v)
  {}

  // ── The loops of one header ───────────────────────────────────────

  /** The pool is the set of roots of the blocks of vs other than w. */
  ghost predicate BackRoots(nodes: seq<Uf>, rank: seq<nat>, vs: seq<nat>, w: nat, pool: seq<nat>)
  {
    && Forest(nodes, rank)
    && (forall v: nat :: v in vs && v != w ==> v < |rank| && Root(nodes, rank, v) in pool)
    && (forall m: nat :: m in pool ==> exists v: nat :: v in vs && v != w && v < |rank| && Root(nodes, rank, v) == m)
  }

  lemma BackRootsNone(nodes: seq<Uf>, rank: seq<nat>, w: nat)
    requires Forest(nodes, rank)
    ensures BackRoots(nodes, rank, [], w, [])
  {}

  lemma BackRootsNext(nodes: seq<Uf>, rank: seq<nat>, vs: seq<nat>, w: nat, pool: seq<nat>, v: nat)
    requires BackRoots(nodes, rank, vs, w, pool) && v < |rank|
    ensures BackRoots(nodes, rank, vs + [v], w, if v == w then pool else pool + [Root(nodes, rank, v)])
  {
    hide Forest, Root;
    assert forall u: nat :: u in vs + [v] <==> u in vs || u == v;
    assert v in vs + [v];
  }

  /** Where predecessor y of a member goes. */
  ghost predicate Placed(o: Order, nodes: seq<Uf>, rank: seq<nat>, w: nat, y: nat, pool: seq<nat>, pool': seq<nat>,
                         entries: seq<nat>, entries': seq<nat>)
  {
    && Forest(nodes, rank) && y < |rank|
    && var s := Root(nodes, rank, y);
       && pool' == (if Within(o, w, s) && s != w && s !in pool then pool + [s] else pool)
       && entries' == (if !Within(o, w, s) && s !in entries then entries + [s] else entries)
  }

  /** All of ys are sorted, and nothing else has come into the pool and the entries. */
  ghost predicate Drawn(o: Order, nodes: seq<Uf>, rank: seq<nat>, ys: seq<nat>, w: nat, pool: seq<nat>, pool': seq<nat>,
                        entries: seq<nat>, entries': seq<nat>)
  {
    && Forest(nodes, rank)
    && (forall m: nat :: m in pool ==> m in pool') && (forall z: nat :: z in entries ==> z in entries')
    && (forall y: nat :: y in ys ==> Sorted(o, nodes, rank, w, pool', entries', y))
    && (forall m: nat :: m in pool' ==> m in pool || (DrawnFrom(nodes, rank, ys, m) && Within(o, w, m) && m != w))
    && (forall z: nat :: z in entries' ==> z in entries || (DrawnFrom(nodes, rank, ys, z) && !Within(o, w, z)))
  }

  ghost predicate DrawnFrom(nodes: seq<Uf>, rank: seq<nat>, ys: seq<nat>, s: nat)
    requires Forest(nodes, rank)
  {
    exists y: nat :: y in ys && y < |rank| && Root(nodes, rank, y) == s
  }

  lemma DrawnNone(o: Order, nodes: seq<Uf>, rank: seq<nat>, w: nat, pool: seq<nat>, entries: seq<nat>)
    requires Forest(nodes, rank)
    ensures Drawn(o, nodes, rank, [], w, pool, pool, entries, entries)
  {}

  lemma DrawnNext(o: Order, nodes: seq<Uf>, rank: seq<nat>, ys: seq<nat>, y: nat, w: nat, pool: seq<nat>,
                  pool1: seq<nat>, pool2: seq<nat>, entries: seq<nat>, entries1: seq<nat>, entries2: seq<nat>)
    requires Drawn(o, nodes, rank, ys, w, pool, pool1, entries, entries1)
    requires Placed(o, nodes, rank, w, y, pool1, pool2, entries1, entries2)
    ensures Drawn(o, nodes, rank, ys + [y], w, pool, pool2, entries, entries2)
  {
    hide Forest, Root;
    assert forall u: nat :: u in ys + [y] <==> u in ys || u == y;
    forall s: nat | DrawnFrom(nodes, rank, ys, s) ensures DrawnFrom(nodes, rank, ys + [y], s) {
      var u: nat :| u in ys && u < |rank| && Root(nodes, rank, u) == s;
      assert u in ys + [y];
    }
    assert y in ys + [y] && DrawnFrom(nodes, rank, ys + [y], Root(nodes, rank, y));
    forall u: nat | u in ys + [y] ensures Sorted(o, nodes, rank, w, pool2, entries2, u) {
      if u in ys { assert Sorted(o, nodes, rank, w, pool1, entries1, u); }
    }
  }

  /** The worklist of w in a run without hooking: what has been taken off is sorted. */
  ghost predicate Gathering(g: Blocks, o: Order, back: seq<seq<nat>>, nodes: seq<Uf>, rank: seq<nat>,
                            others: seq<seq<nat>>, w: nat, gone: set<nat>, pool: seq<nat>, entries: seq<nat>)
  {
    && Forest(nodes, rank) && w < |back| && |rank| <= |others| && w < |others|
    && (forall m: nat :: m in pool ==> Member(g, o, nodes, rank, w, m))
    && (forall v: nat :: v in back[w] && v != w ==> v < |rank| && Root(nodes, rank, v) in pool)
    && (forall m: nat, y: nat :: m in gone && m < |rank| && y in others[m] ==>
       Sorted(o, nodes, rank, w, pool, entries, y))
    && (forall z: nat :: z in entries ==> z in others[w] || Fresh(o, nodes, rank, others, w, pool, z))
  }

  lemma GatheringStart(g: Blocks, o: Order, back: seq<seq<nat>>, nodes: seq<Uf>, rank: seq<nat>, others: seq<seq<nat>>,
                       w: nat, pool: seq<nat>)
    requires Ordered(g, o) && EdgesOk(g, o, back, others) && Exact(g, o, nodes, rank, others, w) && w < |o.names|
    requires BackRoots(nodes, rank, back[w], w, pool)
    ensures Gathering(g, o, back, nodes, rank, others, w, {}, pool, others[w])
  {
    hide Forest, Exact, Root, Member;
    ExactBound(g, o, nodes, rank, others, w);
    forall m: nat | m in pool ensures Member(g, o, nodes, rank, w, m) {
      var v: nat :| v in back[w] && v != w && v < |rank| && Root(nodes, rank, v) == m;
      BackBody(g, o, nodes, rank, others, w, v);
    }
  }

  /** Member x is taken off. */
  lemma GatheringNext(g: Blocks, o: Order, back: seq<seq<nat>>, nodes: seq<Uf>, rank: seq<nat>, others: seq<seq<nat>>,
                      w: nat, gone: set<nat>, pool: seq<nat>, pool': seq<nat>, entries: seq<nat>, entries': seq<nat>,
                      x: nat)
    requires Ordered(g, o) && Exact(g, o, nodes, rank, others, w) && w < |o.names|
    requires Gathering(g, o, back, nodes, rank, others, w, gone, pool, entries) && x in pool && x < |others|
    requires Drawn(o, nodes, rank, others[x], w, pool, pool', entries, entries')
    ensures Gathering(g, o, back, nodes, rank, others, w, gone + {x}, pool', entries')
  {
    hide Forest, Exact, Root, InBody, Ordered;
    assert Member(g, o, nodes, rank, w, x);
    forall m: nat | m in pool' ensures Member(g, o, nodes, rank, w, m) {
      if m !in pool {
        var y: nat :| y in others[x] && y < |rank| && Root(nodes, rank, y) == m;
        StemMember(g, o, nodes, rank, others, w, x, y);
      }
    }
    forall m: nat, y: nat | m in gone + {x} && m < |rank| && y in others[m]
      ensures Sorted(o, nodes, rank, w, pool', entries', y)
    {
      if m in gone { assert Sorted(o, nodes, rank, w, pool, entries, y); }
    }
    forall z: nat | z in entries' ensures z in others[w] || Fresh(o, nodes, rank, others, w, pool', z) {
      if z in entries {
        if z !in others[w] { FreshMore(o, nodes, rank, others, w, pool, pool', z); }
      } else {
        var y: nat :| y in others[x] && y < |rank| && Root(nodes, rank, y) == z;
        assert x in pool';
      }
    }
  }

  lemma FreshMore(o: Order, nodes: seq<Uf>, rank: seq<nat>, others: seq<seq<nat>>, w: nat, pool: seq<nat>,
                  pool': seq<nat>, z: nat)
    requires Forest(nodes, rank) && Fresh(o, nodes, rank, others, w, pool, z) && forall m: nat :: m in pool ==>
        m in pool'
    ensures Fresh(o, nodes, rank, others, w, pool', z)
  {
    hide Forest, Root;
    var m: nat, y: nat :| m in pool && m < |others| && y in others[m] && y < |rank| && Root(nodes, rank, y) == z
        && !Within(o, w, z);
    assert m in pool';
  }

  /** With everything taken off the pool is closed. */
  lemma GatheringEnd(g: Blocks, o: Order, back: seq<seq<nat>>, nodes: seq<Uf>, rank: seq<nat>, others: seq<seq<nat>>,
                     others': seq<seq<nat>>, w: nat, gone: set<nat>, pool: seq<nat>)
    requires Extended(others, others', w)
    requires Gathering(g, o, back, nodes, rank, others, w, gone, pool, others'[w])
    requires forall m: nat :: m in pool ==> m in gone
    ensures Closed(g, o, back, nodes, rank, others, w, pool, others'[w])
        && Relisted(o, nodes, rank, others, others', w, pool)
  {
    hide Forest, Root, Member, Sorted, Fresh;
  }

  // ── The whole run ─────────────────────────────────────────────────

  /** What the run says of header x is so: its pool, and whether its loop is entered elsewhere. */
  ghost predicate LoopExact(g: Blocks, o: Order, pool: seq<nat>, ty: BbClass, x: nat)
  {
    && (forall y: nat :: y in pool <==> Innermost(g, o, x, y))
    && (ty == Irreducible <==> BodyEntered(g, o, x))
  }

  ghost predicate ExactRun(g: Blocks, o: Order, nodes: seq<Uf>, rank: seq<nat>, others: seq<seq<nat>>,
                           pools: seq<seq<nat>>, ty: seq<BbClass>, w: int)
  {
    && Exact(g, o, nodes, rank, others, w) && |pools| == |ty| >= |o.names|
    && forall x: nat :: w < x < |o.names| ==> LoopExact(g, o, pools[x], ty[x], x)
  }

  /** Links after hanging the pool, or nothing, from w. */
  lemma MovedBy(g: Blocks, o: Order, nodes: seq<Uf>, rank: seq<nat>, others: seq<seq<nat>>, nodes': seq<Uf>,
                rank': seq<nat>, w: nat, pool: seq<nat>)
    requires Ordered(g, o) && Exact(g, o, nodes, rank, others, w) && w < |o.names|
    requires forall m: nat :: m in pool ==> Member(g, o, nodes, rank, w, m)
    requires Forest(nodes', rank') && |rank'| == |rank| && |nodes'| == |nodes|
    requires forall x: nat :: x < |nodes| ==> nodes'[x].parent == if x in pool then w else nodes[x].parent
    ensures Moved(nodes, rank, nodes', rank', w, pool)
  {
    hide Forest, Exact, Root, InBody;
    ExactBound(g, o, nodes, rank, others, w);
    ExactTop(g, o, nodes, rank, others, w, w);
    var r := Root(nodes, rank, w);
    if r != w { BodyBound(g, o, r, w); }
    OwnRoot(nodes, rank, w);
    forall m: nat | m in pool ensures m < |rank| && nodes[m].parent == m && m != w {
      assert Member(g, o, nodes, rank, w, m);
      BodyBound(g, o, w, m);
      OwnRoot(nodes, rank, m);
    }
    forall x: nat | x < |rank|
      ensures Root(nodes', rank', x) == if Root(nodes, rank, x) in pool then w else Root(nodes, rank, x)
    {
      HungRoot(nodes, rank, nodes', rank', w, pool, x);
    }
    ForestSize(nodes, rank);
  }

  lemma ForestSize(nodes: seq<Uf>, rank: seq<nat>)
    requires Forest(nodes, rank)
    ensures |rank| <= |nodes|
  {}

  /** The step of header w, as the finder makes it. */
  lemma RunStep(g: Blocks, o: Order, back: seq<seq<nat>>, nodes: seq<Uf>, rank: seq<nat>, others: seq<seq<nat>>,
                pools: seq<seq<nat>>, ty: seq<BbClass>, nodes': seq<Uf>, rank': seq<nat>, others': seq<seq<nat>>,
                pools': seq<seq<nat>>, ty': seq<BbClass>, w: nat, pool: seq<nat>)
    requires Ordered(g, o) && EdgesOk(g, o, back, others) && ExactRun(g, o, nodes, rank, others, pools, ty, w)
        && w < |o.names|
    requires Relisted(o, nodes, rank, others, others', w, pool)
    requires Closed(g, o, back, nodes, rank, others, w, pool, others'[w])
    requires Forest(nodes', rank') && |rank'| == |rank| && |nodes'| == |nodes|
    requires forall x: nat :: x < |nodes| ==> nodes'[x].parent == if x in pool then w else nodes[x].parent
    requires |pools| == |ty| == |ty'| && w < |ty| && pools' == pools[w := pool] && ty' == ty[w := ty'[w]]
    requires ty'[w] == Irreducible <==> pool != [] && Entered(o, others, w, pool)
    ensures ExactRun(g, o, nodes', rank', others', pools', ty', w - 1)
  {
    hide Forest, Exact, Root, InBody, Ordered, EdgesOk, Closed, Relisted, Innermost, BodyEntered, Entered, Moved,
        Member;
    ClosedMembers(g, o, back, nodes, rank, others, w, pool, others'[w]);
    MovedBy(g, o, nodes, rank, others, nodes', rank', w, pool);
    StepExact(g, o, back, nodes, rank, others, nodes', rank', others', w, pool);
    EnteredIff(g, o, back, nodes, rank, others, w, pool, others'[w]);
    forall y: nat ensures y in pool <==> Innermost(g, o, w, y) {
      PoolInnermost(g, o, back, nodes, rank, others, w, pool, others'[w], y);
    }
    NotEntered(o, others, w);
    assert LoopExact(g, o, pools'[w], ty'[w], w);
  }

  lemma NotEntered(o: Order, others: seq<seq<nat>>, w: nat)
    ensures !Entered(o, others, w, [])
  {}

  lemma ClosedMembers(g: Blocks, o: Order, back: seq<seq<nat>>, nodes: seq<Uf>, rank: seq<nat>, others: seq<seq<nat>>,
                      w: nat, pool: seq<nat>, entries: seq<nat>)
    requires Forest(nodes, rank) && w < |back| && |rank| <= |others|
    requires Closed(g, o, back, nodes, rank, others, w, pool, entries)
    ensures forall m: nat :: m in pool ==> Member(g, o, nodes, rank, w, m)
  {}

  lemma RunExact(g: Blocks, o: Order, nodes: seq<Uf>, rank: seq<nat>, others: seq<seq<nat>>, pools: seq<seq<nat>>,
                 ty: seq<BbClass>, w: int)
    requires ExactRun(g, o, nodes, rank, others, pools, ty, w)
    ensures Exact(g, o, nodes, rank, others, w)
  {}

  lemma RunStart(g: Blocks, o: Order, nodes: seq<Uf>, rank: seq<nat>, others: seq<seq<nat>>, pools: seq<seq<nat>>,
                 ty: seq<BbClass>)
    requires Ordered(g, o) && Treed(g, o) && OthersReal(g, o, others)
    requires |rank| == |o.names| <= |g| == |others| == |pools| == |ty| == |nodes|
    requires forall x: nat :: x < |rank| ==> nodes[x].parent == x
    ensures ExactRun(g, o, nodes, rank, others, pools, ty, |g| - 1)
  {
    hide Treed, OthersReal, Exact;
    assert forall x: nat :: x < |rank| ==> Link(nodes, rank, x);
    ExactStart(g, o, nodes, rank, others);
  }

  lemma RunSkip(g: Blocks, o: Order, nodes: seq<Uf>, rank: seq<nat>, others: seq<seq<nat>>, pools: seq<seq<nat>>,
                ty: seq<BbClass>, w: int)
    requires ExactRun(g, o, nodes, rank, others, pools, ty, w) && w >= |o.names|
    ensures ExactRun(g, o, nodes, rank, others, pools, ty, w - 1)
  {
    hide Exact;
    ExactSkip(g, o, nodes, rank, others, w);
  }
}
