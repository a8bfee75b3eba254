/** What the steps of one header do to the tables, from any stage to any later one. */
module HavlakStage {
  import opened HavlakBody
  import opened HavlakCollapse
  import opened HavlakDfs
  import opened HavlakGraph
  import opened HavlakSets

  /** The tables a header's steps write; straight says that no path has been hooked yet. */
  datatype Stage = Stage(nodes: seq<Uf>, rank: seq<nat>, others: seq<seq<nat>>, ty: seq<BbClass>, straight: bool)

  /** Only parent links differ, the list of w only grew, and unhooked paths changed no link at all. */
  ghost predicate Onward(g: Blocks, o: Order, w: nat, a: Stage, b: Stage)
    ensures Onward(g, o, w, a, b) ==> w < |a.others| == |b.others| && |a.nodes| == |b.nodes|
  {
    && OnlyLinks(a.nodes, b.nodes) && Extended(a.others, b.others, w)
    && Steady(g, o, a.nodes, a.rank, a.straight, b.nodes, b.rank, b.straight)
  }

  lemma OnwardSelf(g: Blocks, o: Order, w: nat, a: Stage, b: Stage)
    requires w < |a.others| && b == a.(ty := b.ty)
    ensures Onward(g, o, w, a, b)
  {
    hide Shallow;
    SteadySelf(g, o, a.nodes, a.rank, a.straight);
  }

  lemma OnwardTrans(g: Blocks, o: Order, w: nat, a: Stage, b: Stage, c: Stage)
    requires Onward(g, o, w, a, b) && Onward(g, o, w, b, c)
    ensures Onward(g, o, w, a, c)
  {
    hide OnlyLinks, Extended, Steady;
    LinksTrans(a.nodes, b.nodes, c.nodes);
    ExtendedTrans(a.others, b.others, c.others, w);
    SteadyTrans(g, o, a.nodes, a.rank, a.straight, b.nodes, b.rank, b.straight, c.nodes, c.rank, c.straight);
  }

  lemma OnwardSame(g: Blocks, o: Order, w: nat, a: Stage, b: Stage)
    requires Onward(g, o, w, a, b) && b.straight
    ensures a.straight && b.nodes == a.nodes && b.rank == a.rank
  {
    hide Shallow, BodyLinks;
  }

  lemma OnwardAt(g: Blocks, o: Order, w: nat, a: Stage, b: Stage, x: nat)
    requires Onward(g, o, w, a, b) && x != w && x < |a.others|
    ensures b.others[x] == a.others[x]
  {
    hide OnlyLinks, Steady;
  }

  // ── One member ────────────────────────────────────────────────────

  /** From a to b the first k predecessors of member x were looked at. */
  ghost predicate Looked(g: Blocks, o: Order, w: nat, x: nat, a: Stage, b: Stage, k: nat, pool: seq<nat>,
                         pool': seq<nat>)
    ensures Looked(g, o, w, x, a, b, k, pool, pool') ==>
              && Onward(g, o, w, a, b) && x != w && x < |a.others| && k <= |a.others[x]| && w < |b.ty| == |a.ty|
  {
    && Onward(g, o, w, a, b) && x != w && x < |a.others| && w < |a.ty| == |b.ty|
    && var ys := a.others[x];
       && k <= |ys|
       && (b.straight ==> Drawn(o, a.nodes, a.rank, ys[..k], w, pool, pool', a.others[w], b.others[w]))
       && (forall j: nat :: j < k && Within(o, w, ys[j]) ==> KinIn(g, o, w, ys[j], pool'))
       && b.ty == a.ty[w := if SeenOutside(o, ys, w, k) then Irreducible else a.ty[w]]
  }

  lemma LookedStart(g: Blocks, o: Order, w: nat, x: nat, a: Stage, pool: seq<nat>)
    requires Forest(a.nodes, a.rank) && x != w && x < |a.others| && w < |a.others| && w < |a.ty|
    ensures Looked(g, o, w, x, a, a, 0, pool, pool)
  {
    hide Onward, Drawn;
    OnwardSelf(g, o, w, a, a);
    DrawnNone(o, a.nodes, a.rank, w, pool, a.others[w]);
  }

  lemma LookedNext(g: Blocks, o: Order, w: nat, x: nat, a: Stage, b: Stage, c: Stage, k: nat,
                   pool: seq<nat>, pool1: seq<nat>, pool2: seq<nat>)
    requires Looked(g, o, w, x, a, b, k, pool, pool1) && Onward(g, o, w, b, c) && k < |a.others[x]|
    requires Placed(o, b.nodes, b.rank, w, a.others[x][k], pool1, pool2, b.others[w], c.others[w])
    requires c.ty == b.ty[w := if Within(o, w, a.others[x][k]) then b.ty[w] else Irreducible]
    requires Within(o, w, a.others[x][k]) ==> KinIn(g, o, w, a.others[x][k], pool2)
    requires forall m: nat :: m in pool1 ==> m in pool2
    ensures Looked(g, o, w, x, a, c, k + 1, pool, pool2)
  {
    hide Onward, Drawn, Placed, KinIn, Within, SeenOutside;
    var ys := a.others[x];
    OnwardTrans(g, o, w, a, b, c);
    assert ys[..k + 1] == ys[..k] + [ys[k]];
    if c.straight {
      OnwardSame(g, o, w, b, c);
      OnwardSame(g, o, w, a, b);
      DrawnNext(o, a.nodes, a.rank, ys[..k], ys[k], w, pool, pool1, pool2, a.others[w], b.others[w], c.others[w]);
    }
    SeenNext(o, ys, w, k);
    forall j: nat | j < k + 1 && Within(o, w, ys[j]) ensures KinIn(g, o, w, ys[j], pool2) {
      if j < k { KinInJoin(g, o, w, ys[j], pool1, pool2); }
    }
  }

  /** Then all of them were. */
  lemma LookedEnd(g: Blocks, o: Order, w: nat, x: nat, a: Stage, b: Stage, k: nat, pool: seq<nat>, pool': seq<nat>)
    requires Looked(g, o, w, x, a, b, k, pool, pool') && k == |a.others[x]|
    ensures Absorbed(g, o, a.others, w, x, pool')
    ensures b.ty == a.ty[w := if EnteredAt(o, a.others, w, x) then Irreducible else a.ty[w]]
    ensures b.straight ==> Drawn(o, a.nodes, a.rank, a.others[x], w, pool, pool', a.others[w], b.others[w])
  {
    hide Onward, Drawn, KinIn, Within, SeenOutside, EnteredAt;
    var ys := a.others[x];
    assert ys[..k] == ys;
    SeenAll(o, a.others, w, x);
    forall y: nat | y in ys && Within(o, w, y) ensures KinIn(g, o, w, y, pool') {
      var j: nat :| j < |ys| && ys[j] == y;
    }
  }

  // ── One header ────────────────────────────────────────────────────

  /** The back edges' sources are pooled and no path of this stage has been hooked. */
  ghost predicate Exactly(g: Blocks, o: Order, back: seq<seq<nat>>, w: nat, a: Stage, initial: seq<nat>)
  {
    w < |back| && Exact(g, o, a.nodes, a.rank, a.others, w) && BackRoots(a.nodes, a.rank, back[w], w, initial)
  }

  /** From a to b the members gone were looked at, and the rest of the pool is on the worklist. */
  ghost predicate Driven(g: Blocks, o: Order, back: seq<seq<nat>>, w: nat, initial: seq<nat>, a: Stage, b: Stage,
                         gone: set<nat>, pool: seq<nat>, work: seq<nat>)
    ensures Driven(g, o, back, w, initial, a, b, gone, pool, work) ==> Onward(g, o, w, a, b)
  {
    && Onward(g, o, w, a, b) && Drained(g, o, a.others, w, gone, pool, work)
    && Kinded(o, a.others, w, gone, initial, pool, a.ty, b.ty)
    && (b.straight && Exactly(g, o, back, w, a, initial) ==>
          Gathering(g, o, back, a.nodes, a.rank, a.others, w, gone, pool, b.others[w]))
  }

  lemma DrivenStart(g: Blocks, o: Order, back: seq<seq<nat>>, w: nat, initial: seq<nat>, a: Stage)
    requires Ordered(g, o) && EdgesOk(g, o, back, a.others) && w < |o.names| && w < |a.ty|
    ensures Driven(g, o, back, w, initial, a, a.(ty := if initial == [] then a.ty else a.ty[w := Reducible]), {},
        initial, initial)
  {
    hide Ordered, EdgesOk, Onward, Drained, Kinded, Exact, Gathering, BackRoots;
    OnwardSelf(g, o, w, a, a.(ty := if initial == [] then a.ty else a.ty[w := Reducible]));
    DrainedStart(g, o, a.others, w, initial);
    KindedStart(o, a.others, w, initial, a.ty);
    if Exactly(g, o, back, w, a, initial) { GatheringStart(g, o, back, a.nodes, a.rank, a.others, w, initial); }
  }

  lemma DrivenNext(g: Blocks, o: Order, back: seq<seq<nat>>, w: nat, initial: seq<nat>, a: Stage, b: Stage, c: Stage,
                   gone: set<nat>, pool: seq<nat>, work: seq<nat>, x: nat, pool': seq<nat>, work': seq<nat>,
                   more: seq<nat>)
    requires Ordered(g, o) && w < |o.names| && x != w && x < |b.others| && x in pool && |b.ty| == |c.ty|
    requires Driven(g, o, back, w, initial, a, b, gone, pool, [x] + work) && Onward(g, o, w, b, c)
    requires pool' == pool + more && work' == work + more && Absorbed(g, o, b.others, w, x, pool')
    requires w < |b.ty| && c.ty == b.ty[w := if EnteredAt(o, b.others, w, x) then Irreducible else b.ty[w]]
    requires c.straight ==> Drawn(o, b.nodes, b.rank, b.others[x], w, pool, pool', b.others[w], c.others[w])
    ensures Driven(g, o, back, w, initial, a, c, gone + {x}, pool', work')
  {
    hide Ordered, Onward, Drained, Kinded, Exact, Gathering, BackRoots, Absorbed, EnteredAt, Drawn;
    OnwardTrans(g, o, w, a, b, c);
    OnwardAt(g, o, w, a, b, x);
    FrameOnward(g, o, w, a, b, x, pool');
    DrainedNext(g, o, a.others, w, gone, pool, x, work, pool', work', more);
    KindedNext(o, a.others, w, gone, initial, pool, a.ty, b.ty, x, more, c.ty);
    if c.straight && Exactly(g, o, back, w, a, initial) {
      OnwardSame(g, o, w, b, c);
      OnwardSame(g, o, w, a, b);
      GatheringNext(g, o, back, a.nodes, a.rank, a.others, w, gone, pool, pool', b.others[w], c.others[w], x);
    }
  }

  lemma FrameOnward(g: Blocks, o: Order, w: nat, a: Stage, b: Stage, x: nat, pool: seq<nat>)
    requires Onward(g, o, w, a, b) && x != w
    ensures Absorbed(g, o, a.others, w, x, pool) <==> Absorbed(g, o, b.others, w, x, pool)
    ensures EnteredAt(o, a.others, w, x) <==> EnteredAt(o, b.others, w, x)
  {
    hide OnlyLinks, Steady, Absorbed, EnteredAt, Extended;
    FrameOthers(g, o, a.others, b.others, w, x, pool);
  }

  lemma DrivenStop(g: Blocks, o: Order, back: seq<seq<nat>>, w: nat, initial: seq<nat>, a: Stage, b: Stage,
                   gone: set<nat>, pool: seq<nat>, work: seq<nat>)
    requires Driven(g, o, back, w, initial, a, b, gone, pool, work)
    ensures w < |a.ty| == |b.ty| && initial <= pool && (initial == [] ==> pool == []) && b.ty == a.ty[w := b.ty[w]]
  {
    hide Onward, Drained, Exact, Gathering, BackRoots, EnteredBy;
    KindedEnd(o, a.others, w, gone, initial, pool, a.ty, b.ty);
  }

  lemma DrivenMember(g: Blocks, o: Order, back: seq<seq<nat>>, w: nat, initial: seq<nat>, a: Stage, b: Stage,
                     gone: set<nat>, pool: seq<nat>, x: nat, work: seq<nat>)
    requires Driven(g, o, back, w, initial, a, b, gone, pool, [x] + work)
    ensures x in pool
  {
    hide Onward, Drained, Exact, Gathering, BackRoots, EnteredBy, Kinded;
    DrainedMember(g, o, a.others, w, gone, pool, x, work);
  }

  /** With the worklist empty the pool is closed and the kind is settled. */
  lemma DrivenEnd(g: Blocks, o: Order, back: seq<seq<nat>>, w: nat, initial: seq<nat>, a: Stage, b: Stage,
                  gone: set<nat>, pool: seq<nat>)
    requires Driven(g, o, back, w, initial, a, b, gone, pool, [])
    ensures w < |a.ty| == |b.ty| && forall x: nat :: x in pool ==> Absorbed(g, o, a.others, w, x, pool)
    ensures b.ty[w] == if pool == [] then a.ty[w] else if Entered(o, a.others, w, pool) then Irreducible else Reducible
    ensures b.straight && Exactly(g, o, back, w, a, initial) ==>
              && Closed(g, o, back, b.nodes, b.rank, a.others, w, pool, b.others[w])
              && Relisted(o, b.nodes, b.rank, a.others, b.others, w, pool)
  {
    hide Onward, Drained, Exact, Gathering, BackRoots, EnteredBy, Entered, Absorbed, Closed, Relisted;
    DrainedAll(g, o, a.others, w, gone, pool);
    KindedEnd(o, a.others, w, gone, initial, pool, a.ty, b.ty);
    if b.straight && Exactly(g, o, back, w, a, initial) {
      OnwardSame(g, o, w, a, b);
      OnwardExtended(g, o, w, a, b);
      GatheringEnd(g, o, back, a.nodes, a.rank, a.others, b.others, w, gone, pool);
    }
  }

  lemma OnwardExtended(g: Blocks, o: Order, w: nat, a: Stage, b: Stage)
    requires Onward(g, o, w, a, b)
    ensures Extended(a.others, b.others, w) && OnlyLinks(a.nodes, b.nodes)
  {
    hide OnlyLinks, Steady, Extended;
  }

  /** The end of a find_set, and then an entry more or a kind. */
  lemma OnwardGrow(g: Blocks, o: Order, w: nat, a: Stage, b: Stage, c: Stage)
    requires Onward(g, o, w, a, b) && c == b.(ty := c.ty, others := c.others) && Extended(b.others, c.others, w)
    ensures Onward(g, o, w, a, c)
  {
    hide Extended, Shallow;
    SteadySelf(g, o, b.nodes, b.rank, b.straight);
    LinksSelf(b.nodes);
    OnwardTrans(g, o, w, a, b, c);
  }

  /** Gathering the pool keeps a shallow run straight. */
  lemma RunOnward(g: Blocks, o: Order, w: nat, a: Stage, pools: seq<seq<nat>>, b: Stage)
    requires Onward(g, o, w, a, b)
    ensures a.straight && ExactRun(g, o, a.nodes, a.rank, a.others, pools, a.ty, w) && Shallow(g, o) ==> b.straight
    ensures b.straight ==> a.straight && b.nodes == a.nodes && b.rank == a.rank
  {
    hide Exact, Shallow, BodyLinks, OnlyLinks, Extended;
    if ExactRun(g, o, a.nodes, a.rank, a.others, pools, a.ty, w) {
      ExactLinks(g, o, a.nodes, a.rank, a.others, w);
    }
  }
}
