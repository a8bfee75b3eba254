/** Control-flow graphs and the vocabulary of depth-first numbering. */
module HavlakGraph {
  import opened Options

  datatype Block = Block(ins: seq<nat>, outs: seq<nat>)

  type Blocks = seq<Option<Block>>

  predicate HasBlock(g: Blocks, n: nat) { n < |g| && g[n].Some? }

  predicate Edge(g: Blocks, u: nat, v: nat) { HasBlock(g, u) && v in g[u].value.outs }

  /** Edges join existing blocks and are recorded at both ends. */
  ghost predicate GraphOk(g: Blocks)
  {
    && (forall u: nat, v: nat :: Edge(g, u, v) ==> InEdge(g, u, v))
    && (forall u: nat, v: nat :: InEdge(g, u, v) ==> Edge(g, u, v))
  }

  predicate InEdge(g: Blocks, u: nat, v: nat) { HasBlock(g, v) && u in g[v].value.ins }

  /** g' has the blocks of g and name, and the same edges. */
  ghost predicate WithBlock(g: Blocks, g': Blocks, name: nat)
  {
    && |g'| == (if |g| <= name then name + 1 else |g|)
    && (forall n: nat :: HasBlock(g', n) <==> HasBlock(g, n) || n == name)
    && (forall u: nat, v: nat :: Edge(g', u, v) <==> Edge(g, u, v))
  }

  /** g' has the blocks of g and one more edge. */
  ghost predicate WithEdge(g: Blocks, g': Blocks, from: nat, to: nat)
  {
    && |g'| == |g|
    && (forall n: nat :: HasBlock(g', n) <==> HasBlock(g, n))
    && (forall u: nat, v: nat :: Edge(g', u, v) <==> Edge(g, u, v) || (u == from && v == to))
  }

  lemma AddingBlock(g: Blocks, g': Blocks, name: nat)
    requires GraphOk(g) && |g'| == (if |g| <= name then name + 1 else |g|)
    requires forall n: nat :: n < |g'| ==>
               g'[n] == if n < |g| && g[n].Some? then g[n] else if n == name then Some(Block([], [])) else None
    ensures GraphOk(g') && WithBlock(g, g', name)
  {
    forall u: nat, v: nat ensures Edge(g', u, v) <==> Edge(g, u, v) {}
    forall u: nat, v: nat ensures InEdge(g', u, v) <==> InEdge(g, u, v) {}
  }

  lemma AddingEdge(g: Blocks, g': Blocks, from: nat, to: nat)
    requires GraphOk(g) && HasBlock(g, from) && HasBlock(g, to) && |g'| == |g|
    requires forall n: nat :: n < |g| && n != from && n != to ==> g'[n] == g[n]
    requires g'[from].Some? && g'[from].value.outs == g[from].value.outs + [to]
    requires g'[to].Some? && g'[to].value.ins == g[to].value.ins + [from]
    requires from != to ==> g'[from].value.ins == g[from].value.ins && g'[to].value.outs == g[to].value.outs
    ensures GraphOk(g') && WithEdge(g, g', from, to)
  {
    forall u: nat, v: nat ensures Edge(g', u, v) <==> Edge(g, u, v) || (u == from && v == to) {}
    forall u: nat, v: nat ensures InEdge(g', u, v) <==> InEdge(g, u, v) || (u == from && v == to) {}
  }

  /** The graph under construction. */
  class Cfg {
    var blocks: Blocks
    var start: Option<nat>

    ghost predicate Valid()
      reads this
    {
      GraphOk(blocks) && (start.Some? ==> HasBlock(blocks, start.value))
    }

    constructor ()
      ensures Valid() && blocks == [] && start == None
    {
      blocks, start := [], None;
    }

    method CreateNode(name: nat)
      requires Valid()
      modifies this
      ensures Valid() && WithBlock(old(blocks), blocks, name)
      ensures start == if |blocks| == 1 then Some(name) else old(start)
    {
      if |blocks| <= name { blocks := blocks + seq(name + 1 - |blocks|, _ => None); }
      if blocks[name].None? {
        blocks := blocks[name := Some(Block([], []))];
      }
      if |blocks| == 1 { start := Some(name); }
      AddingBlock(old(blocks), blocks, name);
    }

    method AddEdge(from: nat, to: nat)
      requires Valid()
      modifies this
      ensures Valid() && HasBlock(blocks, from) && HasBlock(blocks, to)
      ensures forall n: nat :: HasBlock(blocks, n) <==> HasBlock(old(blocks), n) || n == from || n == to
      ensures forall u: nat, v: nat ::
                Edge(blocks, u, v) <==> Edge(old(blocks), u, v) || (u == from && v == to)
    {
      CreateNode(from);
      assert HasBlock(blocks, from);
      CreateNode(to);
      assert HasBlock(blocks, from) && HasBlock(blocks, to);
      ghost var g := blocks;
      blocks := blocks[from := Some(blocks[from].value.(outs := blocks[from].value.outs + [to]))];
      blocks := blocks[to := Some(blocks[to].value.(ins := blocks[to].value.ins + [from]))];
      AddingEdge(g, blocks, from, to);
      assert start.Some? ==> HasBlock(g, start.value);
    }
  }

  // ── Reachability ──────────────────────────────────────────────────

  /** p is a path of edges from its first block to its last. */
  ghost predicate Path(g: Blocks, p: seq<nat>)
  {
    p != [] && forall i :: 0 <= i < |p| - 1 ==> Edge(g, p[i], p[i + 1])
  }

  ghost predicate Reaches(g: Blocks, u: nat, v: nat)
  {
    exists p :: Path(g, p) && p[0] == u && p[|p| - 1] == v
  }

  lemma ReachesSelf(g: Blocks, u: nat)
    ensures Reaches(g, u, u)
  {
    assert Path(g, [u]);
  }

  lemma ReachesTrans(g: Blocks, u: nat, v: nat, w: nat)
    requires Reaches(g, u, v) && Reaches(g, v, w)
    ensures Reaches(g, u, w)
  {
    var p :| Path(g, p) && p[0] == u && p[|p| - 1] == v;
    var q :| Path(g, q) && q[0] == v && q[|q| - 1] == w;
    var r := p + q[1..];
    forall i | 0 <= i < |r| - 1 ensures Edge(g, r[i], r[i + 1]) {
      if i < |p| - 1 { assert Edge(g, p[i], p[i + 1]); } else { assert Edge(g, q[i + 1 - |p|], q[i + 2 - |p|]); }
    }
    assert Path(g, r) && r[0] == u && r[|r| - 1] == w;
  }

  lemma ReachesStep(g: Blocks, u: nat, v: nat, w: nat)
    requires Reaches(g, u, v) && Edge(g, v, w)
    ensures Reaches(g, u, w)
  {
    var p :| Path(g, p) && p[0] == u && p[|p| - 1] == v;
    var q := p + [w];
    forall i | 0 <= i < |q| - 1 ensures Edge(g, q[i], q[i + 1]) {
      if i < |p| - 1 { assert Edge(g, p[i], p[i + 1]); }
    }
    assert Path(g, q) && q[0] == u && q[|q| - 1] == w;
  }

  /** A set closed under edges holds everything reachable from its members. */
  lemma {:induction false} ClosedReaches(g: Blocks, s: set<nat>, p: seq<nat>)
    requires Path(g, p) && p[0] in s && forall u: nat, v: nat :: u in s && Edge(g, u, v) ==> v in s
    ensures p[|p| - 1] in s
  {
    if |p| > 1 {
      assert Edge(g, p[0], p[1]);
      var q := p[1..];
      forall i | 0 <= i < |q| - 1 ensures Edge(g, q[i], q[i + 1]) {
        assert Edge(g, p[i + 1], p[i + 2]);
      }
      ClosedReaches(g, s, q);
    }
  }
}
