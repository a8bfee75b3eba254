/** Havlak's loop recognition: depth-first numbering, back-edge classification, collapse over union-find. */
module Havlak {
  import opened HavlakBody
  import opened HavlakDfs
  import opened HavlakGather
  import opened HavlakCollapse
  import opened HavlakGraph
  import opened HavlakLsg
  import opened HavlakRun
  import opened HavlakSets
  import opened HavlakStage
  import opened Options

  const MAX_NON_BACK_PREDS := 32 * 1024

  /** Some block has more non-back predecessors than the limit. */
  predicate TooMany(others: seq<seq<nat>>) { exists x | 0 <= x < |others| :: |others[x]| > MAX_NON_BACK_PREDS }

  lemma TooManyAt(others: seq<seq<nat>>, x: nat)
    requires x < |others| && |others[x]| > MAX_NON_BACK_PREDS
    ensures TooMany(others)
  {}

  class Finder {
    const blocks: Blocks
    const start: Option<nat>
    var number: Numbers
    var last: seq<nat>
    var nodes: seq<Uf>
    var nonBackPreds: seq<seq<nat>>
    var backPreds: seq<seq<nat>>
    var header: seq<nat>
    var ty: seq<BbClass>
    const lsg: Lsg
    /** Parents in the search tree, and block names by number. */
    ghost var tree: seq<nat>
    ghost var names: seq<nat>
    /** Heights that fall along parent links. */
    ghost var rank: seq<nat>
    /** The node pool each header collected. */
    ghost var pools: seq<seq<nat>>
    /** No path has been hooked yet. */
    ghost var straight: bool

    constructor (blocks: Blocks, start: Option<nat>, lsg: Lsg)
      ensures this.blocks == blocks && this.start == start && this.lsg == lsg
    {
      this.blocks, this.start, this.lsg := blocks, start, lsg;
      number, last, nodes, nonBackPreds, backPreds, header, ty := map[], [], [], [], [], [], [];
    }

    ghost function State(): Search
      reads this
    {
      Search(nodes, number, last, tree)
    }

    /** Number the block name and all that can be reached from it past unvisited blocks. */
    method DoDfs(name: nat, current: nat) returns (lastId: nat)
      requires GraphOk(blocks) && Sized(blocks, State()) && Numbered(blocks, nodes, number, current)
      requires name in number && number[name].None?
      modifies `nodes, `number, `last, `tree
      ensures current <= lastId && Searched(blocks, State(), name, current, current, lastId)
      ensures last[current] == lastId
      ensures Kept(blocks, old(State()), State(), current)
      decreases |blocks| - current
    {
      hide Numbered, Searched, Kept, Before;
      SearchStart(blocks, State(), name, current);
      nodes := nodes[current := Uf(current, Some(name), None, current)];
      number := number[name := Some(current)];
      lastId := current;
      assert HasBlock(blocks, name);
      var outs := blocks[name].value.outs;
      for k := 0 to |outs|
        invariant current <= lastId && Searched(blocks, State(), name, current + 1, current, lastId)
        invariant Kept(blocks, old(State()), State(), current)
        invariant forall j :: 0 <= j < k ==> Before(number, outs[j], lastId)
      {
        var target := outs[k];
        assert Edge(blocks, name, target);
        assert InEdge(blocks, name, target);
        if number[target].None? {
          ghost var s, mid := State(), lastId;
          NumberFree(blocks, nodes, number, lastId + 1, target);
          tree := tree[lastId + 1 := current];
          lastId := DoDfs(target, lastId + 1);
          SearchedRoot(blocks, State(), target, mid + 1, mid + 1, lastId);
          SearchJoin(blocks, s, State(), name, target, current, mid, lastId);
          KeptLess(blocks, s, State(), mid, current);
          KeptTrans(blocks, old(State()), s, State(), current);
          forall j | 0 <= j < k ensures Before(number, outs[j], lastId) {
            KeptBefore(blocks, s, State(), mid, outs[j], mid, lastId);
          }
        } else {
          SearchedBefore(blocks, State(), name, current + 1, current, lastId, target);
        }
      }
      forall m: nat | Edge(blocks, name, m) ensures Before(number, m, lastId) {
        var j :| 0 <= j < |outs| && outs[j] == m;
      }
      SearchClose(blocks, State(), name, current, lastId);
      KeptTrans(blocks, old(State()), State(), State().(last := last[current := lastId]), current);
      last := last[current := lastId];
    }
  
    ghost function Ord(): Order
      reads this
    {
      Order(names, last)
    }

    predicate IsAncestor(w: nat, v: nat)
      requires w < |last|
      reads this
    {
      w <= v && v <= last[w]
    }

    method HookAll(list: seq<nat>, to: nat)
      requires forall j: nat :: j < |list| ==> list[j] < |nodes|
      modifies `nodes
      ensures |nodes| == |old(nodes)|
      ensures forall x: nat :: x < |nodes| ==>
                nodes[x] == if x in list then old(nodes)[x].(parent := to) else old(nodes)[x]
    {
      for j := 0 to |list|
        invariant |nodes| == |old(nodes)|
        invariant forall x: nat :: x < |nodes| ==>
                    nodes[x] == if x in list[..j] then old(nodes)[x].(parent := to) else old(nodes)[x]
      {
        nodes := nodes[list[j] := nodes[list[j]].(parent := to)];
      }
      assert list[..|list|] == list;
    }

    /** The root of n; hooks every node of the path but the last two to n's parent. */
    method FindSet(n: nat) returns (node: nat)
      requires Forest(nodes, rank) && n < |rank|
      modifies `nodes, `rank, `straight
      ensures node == Root(old(nodes), old(rank), n)
      ensures straight == (old(straight) && |Chain(old(nodes), old(rank), n)| <= 3)
      ensures nodes == Hooked(old(nodes), Chain(old(nodes), old(rank), n))
      ensures rank == Reranked(old(rank), Chain(old(nodes), old(rank), n))
    {
      hide Chain, Forest, Hooked, Reranked;
      ghost var c, k := Chain(nodes, rank, n), 0;
      var list := [];
      node := n;
      ChainEnd(nodes, rank, n, 0);
      while node != nodes[node].parent
        invariant nodes == old(nodes) && rank == old(rank) && straight == old(straight)
        invariant 0 <= k < |c| && node == c[k]
        invariant node == nodes[node].parent <==> k == |c| - 1
        invariant if k + 2 < |c| then list == c[..k] else list == if |c| < 3 then [] else c[..|c| - 2]
        decreases |c| - k
      {
        ChainEnd(nodes, rank, n, k);
        ChainEnd(nodes, rank, n, k + 1);
        var p := nodes[node].parent;
        if p != nodes[p].parent { list := list + [node]; }
        node := p;
        k := k + 1;
      }
      ChainEnd(nodes, rank, n, 0);
      var to := nodes[n].parent;
      HookAll(list, to);
      HookedIs(old(nodes), c, nodes, list, to);
      rank, straight := Reranked(rank, c), straight && |c| <= 3;
    }
  
    ghost function Now(): Stage
      reads this
    {
      Stage(nodes, rank, nonBackPreds, ty, straight)
    }

    /** Between steps of header w. */
    ghost predicate AtHeader(w: nat)
      reads this
    {
      && Ordered(blocks, Ord()) && Collapsed(blocks, Ord(), nodes, rank, w)
      && EdgesOk(blocks, Ord(), backPreds, nonBackPreds)
      && |ty| == |nodes| == |blocks| && w < |names|
    }

    /** FindSet for a client that needs kin. */
    method FindKin(n: nat, w: nat) returns (s: nat)
      requires AtHeader(w) && n < |names|
      modifies `nodes, `rank, `straight
      ensures AtHeader(w) && Onward(blocks, Ord(), w, old(Now()), Now())
      ensures s < |names| && Kin(blocks, Ord(), w, n, s)
      ensures s == Root(old(nodes), old(rank), n)
    {
      hide Kin, Forest, Chain, Hooked, Reranked, Ordered, EdgesOk, BodyLinks, Shallow, OnlyLinks, Steady;
      HookedCollapsed(blocks, Ord(), nodes, rank, w, n);
      HookedSteady(blocks, Ord(), nodes, rank, n, straight);
      HookedLinks(nodes, Chain(nodes, rank, n));
      s := FindSet(n);
    }

    /** Sources of back edges other than w itself, by their roots. */
    method StepD(w: nat) returns (pool: seq<nat>)
      requires AtHeader(w) && ty[w] == NonHeader
      modifies `nodes, `rank, `straight, `ty
      ensures AtHeader(w) && Onward(blocks, Ord(), w, old(Now()), Now()) && PoolOk(blocks, Ord(), w, pool)
      ensures straight ==> BackRoots(nodes, rank, backPreds[w], w, pool)
      ensures pool != [] <==> exists v :: v in backPreds[w] && v != w
      ensures ty == old(ty)[w := if w in backPreds[w] then SelfLoop else NonHeader]
    {
      hide Kin, Collapsed, Ordered, EdgesOk, PoolOk, Onward, BackRoots, Forest, Root, Within, Under, Tied, Link;
      pool := [];
      OnwardSelf(blocks, Ord(), w, Now(), Now());
      BackRootsNone(nodes, rank, w);
      var bps := backPreds[w];
      PoolEmpty(blocks, Ord(), w);
      for j := 0 to |bps|
        invariant AtHeader(w) && Onward(blocks, Ord(), w, old(Now()), Now()) && PoolOk(blocks, Ord(), w, pool)
        invariant straight ==> BackRoots(nodes, rank, bps[..j], w, pool)
        invariant pool != [] <==> exists v :: v in bps[..j] && v != w
        invariant ty == old(ty)[w := if w in bps[..j] then SelfLoop else NonHeader]
      {
        var v := bps[j];
        assert bps[..j + 1] == bps[..j] + [v];
        assert v in bps[..j + 1] && forall u :: u in bps[..j + 1] <==> u in bps[..j] || u == v;
        BackListed(blocks, Ord(), backPreds, nonBackPreds, w, v);
        if straight { BackRootsNext(nodes, rank, bps[..j], w, pool, v); }
        ghost var before := Now();
        if v != w {
          var s := FindKin(v, w);
          if straight { OnwardSame(blocks, Ord(), w, before, Now()); }
          BackMember(blocks, Ord(), w, v, s);
          PoolJoin(blocks, Ord(), w, pool, s);
          pool := pool + [s];
        } else {
          ty := ty[w := SelfLoop];
          OnwardSelf(blocks, Ord(), w, before, Now());
        }
        OnwardTrans(blocks, Ord(), w, old(Now()), before, Now());
      }
      assert bps[..|bps|] == bps;
    }

    /** One predecessor of pool member x: it joins the pool, or enters the loop from outside. */
    method StepEntry(w: nat, x: nat, k: nat, pool: seq<nat>, work: seq<nat>)
        returns (pool': seq<nat>, work': seq<nat>)
      requires AtHeader(w) && PoolOk(blocks, Ord(), w, pool) && x in pool && x < |nonBackPreds|
      requires k < |nonBackPreds[x]|
      modifies `nodes, `rank, `straight, `ty, `nonBackPreds
      ensures AtHeader(w) && Onward(blocks, Ord(), w, old(Now()), Now()) && PoolOk(blocks, Ord(), w, pool')
      ensures Placed(Ord(), old(nodes), old(rank), w, old(nonBackPreds)[x][k], pool, pool',
                     old(nonBackPreds)[w], nonBackPreds[w])
      ensures (pool' == pool && work' == work)
              || (exists s: nat :: s !in pool && pool' == pool + [s] && work' == work + [s])
      ensures var y := old(nonBackPreds)[x][k];
              && ty == old(ty)[w := if Within(Ord(), w, y) then old(ty)[w] else Irreducible]
              && (Within(Ord(), w, y) ==> KinIn(blocks, Ord(), w, y, pool'))
    {
      hide Collapsed, EdgesOk, Onward, PoolOk, Ordered, Kin, Comes, Tied, Forest, Root, Flows, KinIn;
      pool', work' := pool, work;
      var iter := nonBackPreds[x][k];
      PoolBound(blocks, Ord(), w, pool, x);
      OtherListed(blocks, Ord(), backPreds, nonBackPreds, x, iter);
      ComesBound(blocks, Ord(), x, iter);
      var ydash := FindKin(iter, w);
      ghost var found := Now();
      EntryMember(blocks, Ord(), w, x, iter, ydash);
      CollapsedDfs(blocks, Ord(), nodes, rank, w, ydash);
      var yd := nodes[ydash].dfs;
      if !IsAncestor(w, yd) {
        ty := ty[w := Irreducible];
        if yd !in nonBackPreds[w] {
          EdgesGrow(blocks, Ord(), backPreds, nonBackPreds, w, yd);
          nonBackPreds := nonBackPreds[w := nonBackPreds[w] + [yd]];
        }
      } else if yd != w && ydash !in pool {
        PoolJoin(blocks, Ord(), w, pool, ydash);
        work' := work + [ydash];
        pool' := pool + [ydash];
      }
      OnwardGrow(blocks, Ord(), w, old(Now()), found, Now());
      if Within(Ord(), w, iter) { EntryKept(blocks, Ord(), w, iter, ydash, pool'); }
    }
  
    /** All predecessors of pool member x; the list walked is not w's, so it does not grow on the way. */
    method StepMember(w: nat, x: nat, pool: seq<nat>, work: seq<nat>)
        returns (pool': seq<nat>, work': seq<nat>, ghost more: seq<nat>)
      requires AtHeader(w) && PoolOk(blocks, Ord(), w, pool) && x in pool
      modifies `nodes, `rank, `straight, `ty, `nonBackPreds
      ensures AtHeader(w) && Onward(blocks, Ord(), w, old(Now()), Now()) && PoolOk(blocks, Ord(), w, pool')
      ensures pool' == pool + more && work' == work + more
          && (more != [] ==> Left(|names|, pool') < Left(|names|, pool))
      ensures x != w && x < |blocks| && Absorbed(blocks, Ord(), old(nonBackPreds), w, x, pool')
      ensures ty == old(ty)[w := if EnteredAt(Ord(), old(nonBackPreds), w, x) then Irreducible else old(ty)[w]]
      ensures straight ==> Drawn(Ord(), old(nodes), old(rank), old(nonBackPreds)[x], w, pool, pool',
                                 old(nonBackPreds)[w], nonBackPreds[w])
    {
      hide Collapsed, EdgesOk, Onward, PoolOk, Ordered, Kin, KinIn, Comes, Tied, EnteredAt, Left,
        Looked, Drawn, Placed, Forest, Root, Absorbed;
      pool', work', more := pool, work, [];
      PoolBound(blocks, Ord(), w, pool, x);
      LookedStart(blocks, Ord(), w, x, Now(), pool);
      CollapsedDfs(blocks, Ord(), nodes, rank, w, x);
      var xd := nodes[x].dfs;
      var k := 0;
      while k < |nonBackPreds[xd]|
        invariant AtHeader(w) && PoolOk(blocks, Ord(), w, pool')
            && Looked(blocks, Ord(), w, x, old(Now()), Now(), k, pool, pool')
        invariant pool' == pool + more && work' == work + more
        invariant more != [] ==> Left(|names|, pool') < Left(|names|, pool)
        invariant nonBackPreds[x] == old(nonBackPreds)[x]
        decreases |nonBackPreds[x]| - k
      {
        ghost var before, pool0 := Now(), pool';
        pool', work' := StepEntry(w, x, k, pool', work');
        OnwardAt(blocks, Ord(), w, before, Now(), x);
        if pool' != pool0 {
          var s: nat :| s !in pool0 && pool' == pool0 + [s] && work' == work + more + [s];
          more := more + [s];
          assert s in pool';
          PoolBound(blocks, Ord(), w, pool', s);
          LeftFalls(|names|, pool0, s);
        }
        LookedNext(blocks, Ord(), w, x, old(Now()), before, Now(), k, pool, pool0, pool');
        k := k + 1;
      }
      LookedEnd(blocks, Ord(), w, x, old(Now()), Now(), k, pool, pool');
    }

    /** Grow the pool backwards along edges until it is closed, and classify the loop. */
    method StepE(w: nat, initial: seq<nat>) returns (pool: seq<nat>, complete: bool)
      requires AtHeader(w) && PoolOk(blocks, Ord(), w, initial)
      modifies `nodes, `rank, `straight, `ty, `nonBackPreds
      ensures AtHeader(w) && Onward(blocks, Ord(), w, old(Now()), Now()) && PoolOk(blocks, Ord(), w, pool)
      ensures initial <= pool && (initial == [] ==> pool == []) && ty == old(ty)[w := ty[w]]
      ensures complete ==>
                && (forall x: nat :: x in pool ==> Absorbed(blocks, Ord(), old(nonBackPreds), w, x, pool))
                && ty[w] == if pool == [] then old(ty)[w]
                            else if Entered(Ord(), old(nonBackPreds), w, pool) then Irreducible else Reducible
      ensures complete && straight && Exactly(blocks, Ord(), backPreds, w, old(Now()), initial) ==>
                && Closed(blocks, Ord(), backPreds, nodes, rank, old(nonBackPreds), w, pool, nonBackPreds[w])
                && Relisted(Ord(), nodes, rank, old(nonBackPreds), nonBackPreds, w, pool)
      ensures !complete ==> TooMany(nonBackPreds)
    {
      hide Collapsed, EdgesOk, Onward, PoolOk, Ordered, Absorbed, Entered, EnteredAt, Left, Exactly,
        Driven, Closed, Relisted, Drawn, Forest, TooMany;
      pool := initial;
      var workList := pool;
      DrivenStart(blocks, Ord(), backPreds, w, initial, Now());
      if pool != [] { ty := ty[w := Reducible]; }
      ghost var gone: set<nat> := {};
      while workList != []
        invariant AtHeader(w) && PoolOk(blocks, Ord(), w, pool)
        invariant Driven(blocks, Ord(), backPreds, w, initial, old(Now()), Now(), gone, pool, workList)
        decreases Left(|names|, pool), |workList|
      {
        var x := workList[0];
        ghost var work0, pool0, before := workList, pool, Now();
        workList := workList[1..];
        ghost var rest := workList;
        assert work0 == [x] + rest;
        DrivenMember(blocks, Ord(), backPreds, w, initial, old(Now()), before, gone, pool, x, rest);
        PoolBound(blocks, Ord(), w, pool, x);
        CollapsedDfs(blocks, Ord(), nodes, rank, w, x);
        if |nonBackPreds[nodes[x].dfs]| > MAX_NON_BACK_PREDS {
          TooManyAt(nonBackPreds, x);
          DrivenStop(blocks, Ord(), backPreds, w, initial, old(Now()), Now(), gone, pool, work0);
          return pool, false;
        }
        ghost var more;
        pool, workList, more := StepMember(w, x, pool, workList);
        DrivenNext(blocks, Ord(), backPreds, w, initial, old(Now()), before, Now(), gone, pool0, rest, x, pool,
          workList, more);
        assert more == [] ==> pool == pool0;
        gone := gone + {x};
      }
      DrivenStop(blocks, Ord(), backPreds, w, initial, old(Now()), Now(), gone, pool, []);
      DrivenEnd(blocks, Ord(), backPreds, w, initial, old(Now()), Now(), gone, pool);
      complete := true;
    }

    /** Hang the pool from its header and gather its blocks and loops into a new loop. */
    method MakeLoop(w: nat, name: nat, pool: seq<nat>, ghost base: nat)
      requires AtHeader(w) && PoolOk(blocks, Ord(), w, pool) && |header| == |nodes|
      requires lsg.Valid() && 0 < base <= |lsg.loops| && Owned(nodes, base, |lsg.loops|) && nodes[w].lp == None
      modifies `nodes, `rank, `header, lsg
      ensures lsg.Valid() && Gathered(old(lsg.loops), lsg.loops, name, old(nodes), pool)
      ensures |nodes| == |old(nodes)| && forall x: nat :: x < |nodes| ==>
                nodes[x] == old(nodes)[x].(parent := if x in pool then w else old(nodes)[x].parent,
                                           lp := if x == w then Some(|old(lsg.loops)|) else old(nodes)[x].lp)
      ensures Collapsed(blocks, Ord(), nodes, rank, w - 1)
      ensures |header| == |old(header)|
      ensures forall x: nat :: x < |header| ==> header[x] == if x in pool then w else old(header)[x]
    {
      hide Collapsed, EdgesOk, Ordered, PoolOk, Tied, Nested, Owned, Gathered;
      ghost var loops0, was := lsg.loops, nodes;
      var lp := lsg.CreateNewLoop(Some(name));
      nodes := nodes[w := nodes[w].(lp := Some(lp))];
      ghost var nodes1 := nodes;
      GatherNone(loops0, name, was);
      for j := 0 to |pool|
        invariant lsg.Valid() && Gathered(loops0, lsg.loops, name, was, pool[..j]) && |lsg.loops| == lp + 1
        invariant |nodes| == |was| && |header| == |was| && rank == old(rank)
        invariant forall x: nat :: x < |nodes| ==>
                    nodes[x] == nodes1[x].(parent := if x in pool[..j] then w else was[x].parent)
        invariant forall x: nat :: x < |header| ==> header[x] == if x in pool[..j] then w else old(header)[x]
      {
        var node := pool[j];
        assert pool[..j + 1] == pool[..j] + [node];
        PoolBound(blocks, Ord(), w, pool, node);
        CollapsedDfs(blocks, Ord(), was, old(rank), w, node);
        header := header[nodes[node].dfs := w];
        nodes := nodes[node := nodes[node].(parent := w)];
        if nodes[node].lp.Some? {
          var l := nodes[node].lp.value;
          OwnedRange(was, base, lp, node, l);
          GatherLoop(loops0, lsg.loops, name, was, pool[..j], node, l);
          lsg.SetParent(l, lp);
        } else {
          GatherLeaf(loops0, lsg.loops, name, was, pool[..j], node, nodes[node].bb.value);
          lsg.AddNode(lp, nodes[node].bb.value);
        }
      }
      assert pool[..|pool|] == pool;
      PoolCollapsed(blocks, Ord(), was, nodes, rank, w, pool);
      rank := PoolRank(rank, w);
    }
  
    /** Split the numbered predecessors of header w. */
    method ClassifyPreds(w: nat)
      requires Named(blocks, Ord(), nodes, number) && GraphOk(blocks) && w < |names| <= |last|
      requires |backPreds| == |nonBackPreds| == |blocks| && backPreds[w] == [] && nonBackPreds[w] == []
      requires HasBlock(blocks, names[w])
      modifies `backPreds, `nonBackPreds
      ensures |backPreds| == |nonBackPreds| == |blocks|
      ensures backPreds == old(backPreds)[w := backPreds[w]] && nonBackPreds == old(nonBackPreds)[w := nonBackPreds[w]]
      ensures Split(Ord(), number, blocks[names[w]].value.ins, w, backPreds[w], nonBackPreds[w])
    {
      hide NumberIn;
      ghost var name := names[w];
      assert IsNode(nodes, w, name);
      var ins := blocks[nodes[w].bb.value].value.ins;
      NumberInNone(number);
      for j := 0 to |ins|
        invariant |backPreds| == |nonBackPreds| == |blocks|
        invariant backPreds == old(backPreds)[w := backPreds[w]]
        invariant nonBackPreds == old(nonBackPreds)[w := nonBackPreds[w]]
        invariant Split(Ord(), number, ins[..j], w, backPreds[w], nonBackPreds[w])
      {
        var nv := ins[j];
        assert InEdge(blocks, nv, name) && Edge(blocks, nv, name);
        assert ins[..j + 1] == ins[..j] + [nv];
        NumberInNext(number, ins[..j], nv);
        if number[nv].Some? {
          var v := number[nv].value;
          assert forall u: nat :: HasNumber(number, nv, u) <==> u == v;
          if IsAncestor(w, v) {
            backPreds := backPreds[w := backPreds[w] + [v]];
          } else if v !in nonBackPreds[w] {
            nonBackPreds := nonBackPreds[w := nonBackPreds[w] + [v]];
          }
        }
      }
      assert ins[..|ins|] == ins;
    }
  
    ghost function Done(): Run
      reads this, lsg
    {
      Run(nodes, rank, nonBackPreds, ty, header, pools, lsg.loops)
    }

    /** Every header above w is as its body says. */
    ghost predicate ExactDone(w: int)
      reads this
    {
      ExactRun(blocks, Ord(), nodes, rank, nonBackPreds, pools, ty, w)
    }

    /** The pool of header w and its kind: the back edges' sources, then backwards until closed. */
    method PoolBody(w: nat) returns (pool: seq<nat>, complete: bool)
      requires AtHeader(w) && ty[w] == NonHeader
      modifies `nodes, `rank, `straight, `ty, `nonBackPreds
      ensures AtHeader(w) && Onward(blocks, Ord(), w, old(Now()), Now()) && PoolOk(blocks, Ord(), w, pool)
      ensures ty == old(ty)[w := ty[w]]
      ensures complete ==>
                && (pool != [] <==> BelowIn(backPreds[w], w))
                && (forall x: nat :: x in pool ==> Absorbed(blocks, Ord(), old(nonBackPreds), w, x, pool))
                && ty[w] == if pool == [] then if w in backPreds[w] then SelfLoop else NonHeader
                            else if Entered(Ord(), old(nonBackPreds), w, pool) then Irreducible else Reducible
      ensures complete && straight && old(Exact(blocks, Ord(), nodes, rank, nonBackPreds, w)) ==>
                && Closed(blocks, Ord(), backPreds, nodes, rank, old(nonBackPreds), w, pool, nonBackPreds[w])
                && Relisted(Ord(), nodes, rank, old(nonBackPreds), nonBackPreds, w, pool)
      ensures !complete ==> TooMany(nonBackPreds)
    {
      hide Collapsed, EdgesOk, Ordered, PoolOk, Absorbed, Entered, Exact, BackRoots, Closed, Relisted, Forest,
        Onward, TooMany;
      ghost var before := Now();
      pool := StepD(w);
      ghost var middle := Now();
      pool, complete := StepE(w, pool);
      OnwardTrans(blocks, Ord(), w, before, middle, Now());
      if straight {
        OnwardSame(blocks, Ord(), w, middle, Now());
        OnwardSame(blocks, Ord(), w, before, middle);
      }
    }

    /** Make the loop of header w if its pool or kind calls for one, and record the pool. */
    method Hang(w: nat, name: nat, pool: seq<nat>, ghost base: nat)
      requires AtHeader(w) && PoolOk(blocks, Ord(), w, pool) && |header| == |pools| == |nodes|
      requires lsg.Valid() && 0 < base <= |lsg.loops| && Owned(nodes, base, |lsg.loops|) && nodes[w].lp == None
      modifies `nodes, `rank, `header, `pools, lsg
      ensures lsg.Valid() && Collapsed(blocks, Ord(), nodes, rank, w - 1) && pools == old(pools)[w := pool]
      ensures if pool != [] || ty[w] == SelfLoop
              then Gathered(old(lsg.loops), lsg.loops, name, old(nodes), pool) && nodes[w].lp == Some(|old(lsg.loops)|)
              else lsg.loops == old(lsg.loops) && nodes[w].lp == None
      ensures |nodes| == |old(nodes)| && forall x: nat :: x < |nodes| ==>
                nodes[x] == old(nodes)[x].(parent := if x in pool then w else old(nodes)[x].parent,
                                           lp := if x == w then nodes[w].lp else old(nodes)[x].lp)
      ensures |header| == |old(header)|
      ensures forall x: nat :: x < |header| ==> header[x] == if x in pool then w else old(header)[x]
    {
      hide Collapsed, EdgesOk, Ordered, Owned, PoolOk, Nested, Gathered;
      if pool != [] || ty[w] == SelfLoop {
        MakeLoop(w, name, pool, base);
      } else {
        PoolCollapsed(blocks, Ord(), nodes, nodes, rank, w, []);
        rank := PoolRank(rank, w);
      }
      pools := pools[w := pool];
    }

    /** One header: pool the loop body, classify it, and make the loop if there is one. */
    method Collapse(w: nat, ghost base: nat) returns (complete: bool)
      requires Ordered(blocks, Ord()) && Progress(blocks, Ord(), backPreds, Done(), base, w)
      requires w < |names| && lsg.Valid()
      modifies `nodes, `rank, `straight, `nonBackPreds, `ty, `header, `pools, lsg
      ensures lsg.Valid() && base <= |lsg.loops|
      ensures forall l: nat :: l < base ==> lsg.loops[l] == old(lsg.loops)[l]
      ensures complete ==> Progress(blocks, Ord(), backPreds, Done(), base, w - 1)
      ensures complete && straight && old(ExactDone(w)) ==> ExactDone(w - 1)
      ensures old(straight && ExactDone(w)) && Shallow(blocks, Ord()) ==> straight
      ensures straight ==> old(straight)
      ensures !complete ==> TooMany(nonBackPreds)
    {
      hide Collapsed, EdgesOk, Ordered, HeaderOf, Owned, PoolOk, HeaderDone, Nested, Absorbed, Entered, Gathered,
        Onward, Exact, ExactRun, Closed, Relisted, Forest, BodyLinks, Shallow, TooMany, BelowIn, Progress, Kin, Within;
      ProgressAt(blocks, Ord(), backPreds, Done(), base, w);
      ghost var r, exact, before := Done(), ExactDone(w), Now();
      CollapsedDfs(blocks, Ord(), nodes, rank, w, w);
      var nodeW := nodes[w].bb.value;
      if exact { RunExact(blocks, Ord(), nodes, rank, nonBackPreds, pools, ty, w); }
      var nodePool;
      nodePool, complete := PoolBody(w);
      OnwardExtended(blocks, Ord(), w, before, Now());
      RunOnward(blocks, Ord(), w, before, r.pools, Now());
      if !complete { return; }
      ghost var nodes2 := nodes;
      OwnedSame(r.nodes, nodes2, base, |lsg.loops|);
      Hang(w, nodeW, nodePool, base);
      if straight && exact {
        RunStep(blocks, Ord(), backPreds, r.nodes, r.rank, r.others, r.pools, r.ty,
                nodes, rank, nonBackPreds, pools, ty, w, nodePool);
      }
      ghost var r0 := r.(nodes := nodes2);
      HeaderNew(blocks, Ord(), backPreds, r0, Done(), w, nodePool, nodeW, base);
      ProgressStep(blocks, Ord(), backPreds, r, Done(), base, w, nodePool);
    }

    /** Empty tables of the graph's size, every block unvisited. */
    method Reset()
      modifies `nonBackPreds, `backPreds, `number, `header, `ty, `last, `nodes, `tree, `pools
      ensures Sized(blocks, State()) && Numbered(blocks, nodes, number, 0)
      ensures forall n: nat :: HasBlock(blocks, n) ==> n in number && number[n].None?
      ensures |ty| == |header| == |blocks| && pools == seq(|blocks|, _ => [])
      ensures nonBackPreds == seq(|blocks|, _ => []) && backPreds == nonBackPreds
    {
      var size := |blocks|;
      nonBackPreds := seq(size, _ => []);
      backPreds := seq(size, _ => []);
      number := map[];
      header := seq(size, _ => 0);
      ty := seq(size, _ => Top);
      last := seq(size, _ => 0);
      nodes := seq(size, _ => Uf(0, None, None, 0));
      tree, pools := seq(size, _ => 0), seq(size, _ => []);
      for i := 0 to size
        modifies `number
        invariant forall n: nat :: n in number <==> n < i && HasBlock(blocks, n)
        invariant forall n: nat :: n in number ==> number[n].None?
      {
        if blocks[i].Some? { number := number[i := None]; }
      }
    }

    /** Sort the edges into every numbered block, and mark the rest dead. */
    method Classify()
      requires Named(blocks, Ord(), nodes, number) && GraphOk(blocks) && Ordered(blocks, Ord())
      requires |ty| == |header| == |blocks|
      requires nonBackPreds == seq(|blocks|, _ => []) && backPreds == nonBackPreds
      modifies `nonBackPreds, `backPreds, `header, `ty
      ensures |ty| == |header| == |blocks| && EdgesOk(blocks, Ord(), backPreds, nonBackPreds)
      ensures OthersReal(blocks, Ord(), nonBackPreds)
      ensures forall x: nat :: x < |blocks| ==>
                header[x] == 0 && ty[x] == if x < |names| then NonHeader else Dead
    {
      assert |names| <= |last|;
      hide Ordered, Split, Named;
      NamedNumbering(blocks, Ord(), nodes, number);
      for w := 0 to |blocks|
        invariant |backPreds| == |nonBackPreds| == |ty| == |header| == |blocks|
        invariant forall x: nat :: w <= x < |blocks| ==> backPreds[x] == [] && nonBackPreds[x] == []
        invariant forall x: nat :: x < w && x < |names| ==>
                    Split(Ord(), number, blocks[names[x]].value.ins, x, backPreds[x], nonBackPreds[x])
        invariant forall x: nat :: x < w ==> header[x] == 0 && ty[x] == if x < |names| then NonHeader else Dead
      {
        header := header[w := 0];
        ty := ty[w := NonHeader];
        NodeNamed(blocks, Ord(), nodes, number, w);
        if nodes[w].bb.None? {
          ty := ty[w := Dead];
        } else {
          ClassifyPreds(w);
        }
      }
      SplitEdges(blocks, Ord(), nodes, number, backPreds, nonBackPreds);
      SplitReal(blocks, Ord(), nodes, number, backPreds, nonBackPreds);
    }

    /** Headers from the last number down. */
    method CollapseAll() returns (complete: bool)
      requires Ordered(blocks, Ord()) && lsg.Valid()
      requires Progress(blocks, Ord(), backPreds, Done(), |lsg.loops|, |blocks| - 1)
      modifies `nodes, `rank, `straight, `nonBackPreds, `ty, `header, `pools, lsg
      ensures lsg.Valid() && |old(lsg.loops)| <= |lsg.loops|
      ensures forall l: nat :: l < |old(lsg.loops)| ==> lsg.loops[l] == old(lsg.loops)[l]
      ensures complete ==> Progress(blocks, Ord(), backPreds, Done(), |old(lsg.loops)|, -1)
      ensures old(straight && ExactDone(|blocks| - 1)) ==>
                (complete && straight ==> ExactDone(-1)) && (Shallow(blocks, Ord()) ==> straight)
      ensures !complete ==> TooMany(nonBackPreds)
    {
      hide Ordered, Progress, Nested, ExactRun, Shallow;
      ghost var exact := straight && ExactDone(|blocks| - 1);
      ghost var base := |lsg.loops|;
      var w := |blocks| - 1;
      while w >= 0
        invariant -1 <= w < |blocks|
        invariant Progress(blocks, Ord(), backPreds, Done(), base, w)
        invariant exact ==> (straight ==> ExactDone(w)) && (Shallow(blocks, Ord()) ==> straight)
        invariant lsg.Valid() && base <= |lsg.loops|
        invariant forall l: nat :: l < base ==> lsg.loops[l] == old(lsg.loops)[l]
      {
        ProgressNode(blocks, Ord(), backPreds, Done(), base, w, w);
        if nodes[w].bb.Some? {
          complete := Collapse(w, base);
          if !complete { return; }
        } else {
          if straight && exact { RunSkip(blocks, Ord(), nodes, rank, nonBackPreds, pools, ty, w); }
          ProgressSkip(blocks, Ord(), backPreds, Done(), base, w);
        }
        w := w - 1;
      }
      complete := true;
    }

    /** Number the blocks reachable from the start and sort their edges, every node its own root. */
    method Prepare(name: nat)
      requires GraphOk(blocks) && HasBlock(blocks, name) && lsg.Valid()
      modifies this
      ensures Explored(blocks, name, names, number, last, tree) && Ordered(blocks, Ord())
      ensures Progress(blocks, Ord(), backPreds, Done(), |lsg.loops|, |blocks| - 1)
      ensures straight && ExactDone(|blocks| - 1)
    {
      hide Numbered, Searched, Ordered, EdgesOk, Progress, Named, Explored, Nested, Kept, NamesOf, Treed,
        OthersReal, ExactRun;
      Reset();
      var hi := DoDfs(name, 0);
      names := NamesOf(nodes, hi + 1);
      SearchExplored(blocks, State(), name, hi, names);
      Classify();
      rank := seq(|names|, _ => 0);
      header, straight := header[0 := 0], true;
      ProgressStart(blocks, Ord(), backPreds, Done(), number);
      RunStart(blocks, Ord(), nodes, rank, nonBackPreds, pools, ty);
    }

    /**
     * Number the blocks reachable from the start, then collapse loops from the last number down.
     * The run is incomplete only when a pool member has too many predecessors.
     */
    method FindLoops() returns (complete: bool)
      requires GraphOk(blocks) && lsg.Valid() && (start.Some? ==> HasBlock(blocks, start.value))
      modifies this, lsg
      ensures lsg.Valid() && |old(lsg.loops)| <= |lsg.loops|
      ensures forall l: nat :: l < |old(lsg.loops)| ==> lsg.loops[l] == old(lsg.loops)[l]
      ensures start.None? ==> lsg.loops == old(lsg.loops)
      ensures start.Some? ==>
                && Explored(blocks, start.value, names, number, last, tree) && Ordered(blocks, Ord())
                && (complete ==> Progress(blocks, Ord(), backPreds, Done(), |old(lsg.loops)|, -1))
                && (complete && straight ==> ExactDone(-1)) && (Shallow(blocks, Ord()) ==> straight)
      ensures !complete ==> TooMany(nonBackPreds)
    {
      hide Ordered, Progress, Explored, Nested, TooMany, Shallow, ExactRun;
      if start.None? { return true; }
      Prepare(start.value);
      complete := CollapseAll();
    }
  }
}
