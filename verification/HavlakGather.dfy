/** What a new loop collects from its header's pool. */
module HavlakGather {
  import opened HavlakDfs
  import opened HavlakLsg
  import opened Options

  /** Node x stands for loop l. */
  predicate HasLoop(nodes: seq<Uf>, x: nat, l: nat) { x < |nodes| && nodes[x].lp == Some(l) }

  /** Node x is the single block b. */
  predicate IsLeaf(nodes: seq<Uf>, x: nat, b: nat) { x < |nodes| && nodes[x].lp == None && nodes[x].bb == Some(b) }

  ghost predicate LoopIn(nodes: seq<Uf>, pool: seq<nat>, l: nat) { exists x: nat :: x in pool && HasLoop(nodes, x, l) }

  ghost predicate LeafIn(nodes: seq<Uf>, pool: seq<nat>, b: nat) { exists x: nat :: x in pool && IsLeaf(nodes, x, b) }

  /** Loops made since base each belong to one node, and no node has another loop. */
  ghost predicate Owned(nodes: seq<Uf>, base: nat, count: nat)
  {
    && (forall x: nat, l: nat :: HasLoop(nodes, x, l) ==> base <= l < count)
    && (forall x: nat, y: nat, l: nat :: HasLoop(nodes, x, l) && HasLoop(nodes, y, l) ==> x == y)
    && (forall l: nat :: base <= l < count ==> Taken(nodes, l))
  }

  ghost predicate Taken(nodes: seq<Uf>, l: nat) { exists x: nat :: HasLoop(nodes, x, l) }

  lemma OwnedRange(nodes: seq<Uf>, base: nat, count: nat, x: nat, l: nat)
    requires Owned(nodes, base, count) && HasLoop(nodes, x, l)
    ensures base <= l < count
  {}

  /** Loop l holds the header's block and the pool's single blocks, and has the pool's loops as children. */
  ghost predicate Collects(loop: SimpleLoop, name: nat, nodes: seq<Uf>, pool: seq<nat>)
  {
    && (forall b: nat :: b in loop.basicBlocks <==> b == name || LeafIn(nodes, pool, b))
    && (forall c: nat :: c in loop.children <==> LoopIn(nodes, pool, c))
  }

  /** The last loop took the pool: of the others only parents changed, and only those of the pool's loops. */
  ghost predicate Gathered(loops: seq<SimpleLoop>, loops': seq<SimpleLoop>, name: nat, nodes: seq<Uf>, pool: seq<nat>)
  {
    && |loops'| == |loops| + 1
    && Collects(loops'[|loops|], name, nodes, pool) && loops'[|loops|].parent == None
    && (forall l: nat :: l < |loops| ==>
          loops'[l] == loops[l].(parent := if LoopIn(nodes, pool, l) then Some(|loops|) else loops[l].parent))
  }

  lemma GatherNone(loops: seq<SimpleLoop>, name: nat, nodes: seq<Uf>)
    ensures Gathered(loops, loops + [NewLoop(Some(name))], name, nodes, [])
  {
    assert forall l: nat :: !LoopIn(nodes, [], l) && !LeafIn(nodes, [], l);
  }

  lemma PoolNext(nodes: seq<Uf>, pool: seq<nat>, x: nat)
    ensures forall l: nat :: LoopIn(nodes, pool + [x], l) <==> LoopIn(nodes, pool, l) || HasLoop(nodes, x, l)
    ensures forall b: nat :: LeafIn(nodes, pool + [x], b) <==> LeafIn(nodes, pool, b) || IsLeaf(nodes, x, b)
  {
    assert forall y: nat :: y in pool + [x] <==> y in pool || y == x;
    forall l: nat | LoopIn(nodes, pool, l) ensures LoopIn(nodes, pool + [x], l) {
      var y: nat :| y in pool && HasLoop(nodes, y, l);
      assert y in pool + [x];
    }
    forall b: nat | LeafIn(nodes, pool, b) ensures LeafIn(nodes, pool + [x], b) {
      var y: nat :| y in pool && IsLeaf(nodes, y, b);
      assert y in pool + [x];
    }
  }

  lemma GatherLoop(loops: seq<SimpleLoop>, loops': seq<SimpleLoop>, name: nat, nodes: seq<Uf>, pool: seq<nat>, x: nat,
                   l: nat)
    requires Gathered(loops, loops', name, nodes, pool) && HasLoop(nodes, x, l) && l < |loops|
    ensures Gathered(loops, WithParent(loops', l, |loops|), name, nodes, pool + [x])
  {
    hide LoopIn, LeafIn;
    PoolNext(nodes, pool, x);
  }

  lemma GatherLeaf(loops: seq<SimpleLoop>, loops': seq<SimpleLoop>, name: nat, nodes: seq<Uf>, pool: seq<nat>, x: nat,
                   b: nat)
    requires Gathered(loops, loops', name, nodes, pool) && IsLeaf(nodes, x, b)
    ensures Gathered(loops, WithNode(loops', |loops|, b), name, nodes, pool + [x])
  {
    hide LoopIn, LeafIn;
    PoolNext(nodes, pool, x);
  }
}
