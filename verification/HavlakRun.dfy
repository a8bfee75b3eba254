/** The whole run: what is finished above the current header, and how one header moves it on. */
module HavlakRun {
  import opened HavlakBody
  import opened HavlakCollapse
  import opened HavlakDfs
  import opened HavlakGather
  import opened HavlakGraph
  import opened HavlakLsg
  import opened HavlakSets
  import opened Options

  /** What the collapse writes; pools records the node pool of each header. */
  datatype Run = Run(nodes: seq<Uf>, rank: seq<nat>, others: seq<seq<nat>>, ty: seq<BbClass>,
                     header: seq<nat>, pools: seq<seq<nat>>, loops: seq<SimpleLoop>)

  ghost predicate Shaped(g: Blocks, o: Order, back: seq<seq<nat>>, r: Run)
  {
    |o.names| <= |g| == |back| == |r.nodes| == |r.others| == |r.ty| == |r.header| == |r.pools|
  }

  /** Everything the run leaves behind for header w. */
  ghost predicate HeaderDone(g: Blocks, o: Order, back: seq<seq<nat>>, r: Run, w: nat)
    requires Shaped(g, o, back, r) && w < |o.names|
  {
    && PoolOk(g, o, w, r.pools[w])
    && (forall x: nat :: x in r.pools[w] ==> Absorbed(g, o, r.others, w, x, r.pools[w]))
    && (r.pools[w] != [] <==> BelowIn(back[w], w))
    && (r.nodes[w].lp.Some? <==> back[w] != [])
    && r.ty[w] == ClassOf(o, back[w], r.others, w, r.pools[w])
    && (forall l: nat :: HasLoop(r.nodes, w, l) ==>
          l < |r.loops| && Collects(r.loops[l], o.names[w], r.nodes, r.pools[w]))
  }

  /** Some block other than w is listed. */
  ghost predicate BelowIn(vs: seq<nat>, w: nat) { exists v :: v in vs && v != w }

  predicate InPool(pools: seq<seq<nat>>, h: nat, x: nat) { h < |pools| && x in pools[h] }

  /** The header recorded for x is the outermost one that pooled it, or 0 when none did. */
  ghost predicate HeaderOf(pools: seq<seq<nat>>, x: nat, h: nat)
  {
    && (forall k: nat :: InPool(pools, k, x) ==> InPool(pools, h, x) && h <= k)
    && (h == 0 || InPool(pools, h, x))
  }

  /** Headers above w are finished, w and below are untouched, numbers past the reached ones are dead. */
  ghost predicate Progress(g: Blocks, o: Order, back: seq<seq<nat>>, r: Run, base: nat, w: int)
    ensures Progress(g, o, back, r, base, w) ==> Shaped(g, o, back, r)
  {
    && Shaped(g, o, back, r)
    && Collapsed(g, o, r.nodes, r.rank, w) && EdgesOk(g, o, back, r.others)
    && 0 < base <= |r.loops| && Owned(r.nodes, base, |r.loops|)
    && (forall x: nat :: x < |g| ==>
          if x >= |o.names| then Unreached(r, x)
          else if x <= w then Untouched(r, x) else HeaderDone(g, o, back, r, x))
    && (forall x: nat :: x < |g| ==> HeaderOf(r.pools, x, r.header[x]))
  }

  ghost predicate Untouched(r: Run, x: nat)
    requires x < |r.ty| && x < |r.pools| && x < |r.nodes|
  {
    r.ty[x] == NonHeader && r.pools[x] == [] && r.nodes[x].lp == None
  }

  ghost predicate Unreached(r: Run, x: nat)
    requires x < |r.ty| && x < |r.pools| && x < |r.nodes|
  {
    r.ty[x] == Dead && r.pools[x] == [] && r.nodes[x].lp == None && r.nodes[x].bb == None
  }

  // ── One header ────────────────────────────────────────────────────

  /** r' differs from r as the step of header w may make it differ. */
  ghost predicate Stepped(g: Blocks, o: Order, back: seq<seq<nat>>, r: Run, r': Run, w: nat, pool: seq<nat>)
  {
    && Shaped(g, o, back, r) && Shaped(g, o, back, r') && w < |o.names|
    && r'.pools == r.pools[w := pool]
    && r'.ty == r.ty[w := r'.ty[w]]
    && r'.others == r.others[w := r'.others[w]]
    && (forall x: nat :: x < |g| ==> r'.header[x] == if x in pool then w else r.header[x])
    && (forall x: nat :: x < |g| && x != w ==> r'.nodes[x].lp == r.nodes[x].lp && r'.nodes[x].bb == r.nodes[x].bb)
    && r'.nodes[w].bb == r.nodes[w].bb
  }

  lemma CollectsFrame(loop: SimpleLoop, name: nat, nodes: seq<Uf>, nodes': seq<Uf>, pool: seq<nat>)
    requires |nodes| == |nodes'|
    requires forall x: nat :: x in pool && x < |nodes| ==> nodes'[x].lp == nodes[x].lp && nodes'[x].bb == nodes[x].bb
    ensures Collects(loop, name, nodes, pool) <==> Collects(loop, name, nodes', pool)
  {
    forall l: nat ensures LoopIn(nodes, pool, l) <==> LoopIn(nodes', pool, l) {
      if LoopIn(nodes, pool, l) { var x: nat :| x in pool && HasLoop(nodes, x, l); assert HasLoop(nodes', x, l); }
      if LoopIn(nodes', pool, l) { var x: nat :| x in pool && HasLoop(nodes', x, l); assert HasLoop(nodes, x, l); }
    }
    forall b: nat ensures LeafIn(nodes, pool, b) <==> LeafIn(nodes', pool, b) {
      if LeafIn(nodes, pool, b) { var x: nat :| x in pool && IsLeaf(nodes, x, b); assert IsLeaf(nodes', x, b); }
      if LeafIn(nodes', pool, b) { var x: nat :| x in pool && IsLeaf(nodes', x, b); assert IsLeaf(nodes, x, b); }
    }
  }

  lemma EnteredFrame(g: Blocks, o: Order, others: seq<seq<nat>>, others': seq<seq<nat>>, w: nat, h: nat, pool: seq<nat>)
    requires w < |others| == |others'| && others' == others[w := others'[w]] && w !in pool
    ensures Entered(o, others, h, pool) <==> Entered(o, others', h, pool)
    ensures forall x: nat :: x in pool ==>
              (Absorbed(g, o, others, h, x, pool) <==> Absorbed(g, o, others', h, x, pool))
  {
    forall x: nat | x in pool
      ensures EnteredAt(o, others, h, x) <==> EnteredAt(o, others', h, x)
      ensures Absorbed(g, o, others, h, x, pool) <==> Absorbed(g, o, others', h, x, pool)
    {}
  }

  /** Finished headers stay finished while a lower one is processed. */
  lemma DoneKept(g: Blocks, o: Order, back: seq<seq<nat>>, r: Run, r': Run, w: nat, pool: seq<nat>, x: nat)
    requires Ordered(g, o) && Stepped(g, o, back, r, r', w, pool) && w < x < |o.names| && HeaderDone(g, o, back, r, x)
    requires |r.loops| <= |r'.loops|
    requires forall l: nat :: l < |r.loops| ==> r'.loops[l] == r.loops[l].(parent := r'.loops[l].parent)
    ensures HeaderDone(g, o, back, r', x)
  {
    hide Collects, Tied, Ordered, Absorbed, Entered;
    assert w !in r.pools[x];
    EnteredFrame(g, o, r.others, r'.others, w, x, r.pools[x]);
    forall l: nat | HasLoop(r'.nodes, x, l)
      ensures l < |r'.loops| && Collects(r'.loops[l], o.names[x], r'.nodes, r'.pools[x])
    {
      assert HasLoop(r.nodes, x, l);
      CollectsFrame(r.loops[l], o.names[x], r.nodes, r'.nodes, r.pools[x]);
      CollectsSame(r.loops[l], r'.loops[l], o.names[x], r'.nodes, r.pools[x]);
    }
  }

  lemma CollectsSame(a: SimpleLoop, b: SimpleLoop, name: nat, nodes: seq<Uf>, pool: seq<nat>)
    requires b == a.(parent := b.parent) && Collects(a, name, nodes, pool)
    ensures Collects(b, name, nodes, pool)
  {}

  /** The pool's members now have header w, the outermost so far. */
  lemma HeaderKept(pools: seq<seq<nat>>, w: nat, pool: seq<nat>, x: nat, h: nat)
    requires w < |pools| && HeaderOf(pools, x, h) && forall k: nat :: k <= w ==> !InPool(pools, k, x)
    ensures HeaderOf(pools[w := pool], x, if x in pool then w else h)
  {
    var p := pools[w := pool];
    forall k: nat ensures InPool(p, k, x) <==> if k == w then x in pool else InPool(pools, k, x) {}
  }

  lemma OwnedNext(nodes: seq<Uf>, nodes': seq<Uf>, base: nat, count: nat, w: nat)
    requires Owned(nodes, base, count) && base <= count && |nodes'| == |nodes| && w < |nodes| && nodes[w].lp == None
    requires forall x: nat :: x < |nodes| ==> nodes'[x].lp == if x == w then Some(count) else nodes[x].lp
    ensures Owned(nodes', base, count + 1)
  {
    forall x: nat, l: nat ensures HasLoop(nodes', x, l) <==> if x == w then l == count else HasLoop(nodes, x, l) {}
    forall l: nat | base <= l < count + 1 ensures Taken(nodes', l) {
      if l == count { assert HasLoop(nodes', w, l); }
      else { assert Taken(nodes, l); var x: nat :| HasLoop(nodes, x, l); assert HasLoop(nodes', x, l); }
    }
  }

  lemma OwnedSame(nodes: seq<Uf>, nodes': seq<Uf>, base: nat, count: nat)
    requires Owned(nodes, base, count) && |nodes'| == |nodes|
    requires forall x: nat :: x < |nodes| ==> nodes'[x].lp == nodes[x].lp
    ensures Owned(nodes', base, count)
  {
    forall x: nat, l: nat ensures HasLoop(nodes', x, l) <==> HasLoop(nodes, x, l) {}
    forall l: nat | base <= l < count ensures Taken(nodes', l) {
      assert Taken(nodes, l); var x: nat :| HasLoop(nodes, x, l); assert HasLoop(nodes', x, l);
    }
  }

  /** One header moves the run on. */
  lemma ProgressStep(g: Blocks, o: Order, back: seq<seq<nat>>, r: Run, r': Run, base: nat, w: nat, pool: seq<nat>)
    requires Ordered(g, o) && Progress(g, o, back, r, base, w) && Stepped(g, o, back, r, r', w, pool)
    requires Collapsed(g, o, r'.nodes, r'.rank, w - 1) && EdgesOk(g, o, back, r'.others)
    requires HeaderDone(g, o, back, r', w)
    requires |r.loops| <= |r'.loops| && Owned(r'.nodes, base, |r'.loops|)
    requires forall l: nat :: l < |r.loops| ==> r'.loops[l] == r.loops[l].(parent := r'.loops[l].parent)
    ensures Progress(g, o, back, r', base, w - 1)
  {
    hide Collapsed, EdgesOk, Ordered, HeaderDone, HeaderOf, Owned;
    forall x: nat | x < |g|
      ensures if x >= |o.names| then Unreached(r', x)
              else if x <= w - 1 then Untouched(r', x) else HeaderDone(g, o, back, r', x)
    {
      assert if x >= |o.names| then Unreached(r, x) else x <= w ==> Untouched(r, x);
      if w < x < |o.names| { DoneKept(g, o, back, r, r', w, pool, x); }
    }
    forall x: nat | x < |g| ensures HeaderOf(r'.pools, x, r'.header[x]) {
      forall k: nat | k <= w ensures !InPool(r.pools, k, x) { assert Untouched(r, k); }
      HeaderKept(r.pools, w, pool, x, r.header[x]);
    }
  }

  // ── Edge lists ────────────────────────────────────────────────────

  /** bs and ns split the numbered blocks of ins into sources below x and the rest. */
  ghost predicate Split(o: Order, number: Numbers, ins: seq<nat>, x: nat, bs: seq<nat>, ns: seq<nat>)
  {
    && (forall v: nat :: v in bs <==> NumberIn(number, ins, v) && Within(o, x, v))
    && (forall v: nat :: v in ns <==> NumberIn(number, ins, v) && !Within(o, x, v))
  }

  /** v is the number of a block in ins. */
  ghost predicate NumberIn(number: Numbers, ins: seq<nat>, v: nat)
  {
    exists m: nat :: m in ins && HasNumber(number, m, v)
  }

  lemma NumberInNone(number: Numbers)
    ensures forall v: nat :: !NumberIn(number, [], v)
  {}

  lemma NumberInNext(number: Numbers, ins: seq<nat>, m: nat)
    ensures forall v: nat :: NumberIn(number, ins + [m], v) <==> NumberIn(number, ins, v) || HasNumber(number, m, v)
  {
    assert forall k: nat :: k in ins + [m] <==> k in ins || k == m;
    forall v: nat ensures NumberIn(number, ins + [m], v) <==> NumberIn(number, ins, v) || HasNumber(number, m, v) {
      if NumberIn(number, ins, v) { var k: nat :| k in ins && HasNumber(number, k, v); assert k in ins + [m]; }
    }
  }

  /** Names agree with a finished numbering. */
  ghost predicate Named(g: Blocks, o: Order, nodes: seq<Uf>, number: Numbers)
  {
    && Numbered(g, nodes, number, |o.names|)
    && (forall i: nat :: i < |o.names| ==> IsNode(nodes, i, o.names[i]))
  }

  lemma SplitEdges(g: Blocks, o: Order, nodes: seq<Uf>, number: Numbers, back: seq<seq<nat>>, others: seq<seq<nat>>)
    requires GraphOk(g) && Ordered(g, o) && Named(g, o, nodes, number) && |back| == |others| == |g|
    requires forall x: nat :: x < |o.names| ==> HasBlock(g, o.names[x])
    requires forall x: nat :: x < |o.names| ==>
               Split(o, number, g[o.names[x]].value.ins, x, back[x], others[x])
    ensures EdgesOk(g, o, back, others)
  {
    forall x: nat, v: nat | x < |o.names|
      ensures NumberIn(number, g[o.names[x]].value.ins, v) <==> v < |o.names| && Edge(g, o.names[v], o.names[x])
    {
      SourceNumber(g, o, nodes, number, x, v);
    }
    forall x: nat, v: nat | x < |o.names| && v in others[x] ensures Comes(g, o, x, v) {
      assert Split(o, number, g[o.names[x]].value.ins, x, back[x], others[x]);
      EdgeFlows(g, o, v, x);
    }
    forall x: nat, v: nat | x < |o.names| ensures v in back[x] <==> IsBackPred(g, o, x, v) {
      assert Split(o, number, g[o.names[x]].value.ins, x, back[x], others[x]);
    }
    forall x: nat, v: nat | x < |o.names| && v < |o.names| && Edge(g, o.names[v], o.names[x])
      ensures v in others[x] || v in back[x]
    {
      assert Split(o, number, g[o.names[x]].value.ins, x, back[x], others[x]);
    }
  }

  lemma SplitReal(g: Blocks, o: Order, nodes: seq<Uf>, number: Numbers, back: seq<seq<nat>>, others: seq<seq<nat>>)
    requires GraphOk(g) && Named(g, o, nodes, number) && |back| == |others| == |g| && |o.names| <= |g|
    requires forall x: nat :: x < |o.names| ==> HasBlock(g, o.names[x])
    requires forall x: nat :: x < |o.names| ==>
               Split(o, number, g[o.names[x]].value.ins, x, back[x], others[x])
    ensures OthersReal(g, o, others)
  {
    hide Named;
    forall x: nat, v: nat | x < |o.names| && v in others[x] ensures Hop(g, o, v, x) && !Within(o, x, v) {
      assert Split(o, number, g[o.names[x]].value.ins, x, back[x], others[x]);
      SourceNumber(g, o, nodes, number, x, v);
    }
  }

  lemma SourceNumber(g: Blocks, o: Order, nodes: seq<Uf>, number: Numbers, x: nat, v: nat)
    requires GraphOk(g) && Named(g, o, nodes, number) && x < |o.names| && HasBlock(g, o.names[x])
    ensures NumberIn(number, g[o.names[x]].value.ins, v) <==> v < |o.names| && Edge(g, o.names[v], o.names[x])
  {
    var ins := g[o.names[x]].value.ins;
    if NumberIn(number, ins, v) {
      var m: nat :| m in ins && HasNumber(number, m, v);
      assert InEdge(g, m, o.names[x]);
      assert IsNode(nodes, v, m);
    }
    if v < |o.names| && Edge(g, o.names[v], o.names[x]) {
      assert InEdge(g, o.names[v], o.names[x]);
      assert IsNode(nodes, v, o.names[v]) && HasNumber(number, o.names[v], v);
    }
  }

  /** The header just processed is done: with a new loop when it has back edges, else with none. */
  lemma HeaderNew(g: Blocks, o: Order, back: seq<seq<nat>>, r: Run, r': Run, w: nat, pool: seq<nat>, name: nat,
                  base: nat)
    requires Ordered(g, o) && Stepped(g, o, back, r, r', w, pool) && Owned(r.nodes, base, |r.loops|)
        && base <= |r.loops|
    requires PoolOk(g, o, w, pool) && name == o.names[w] && r.nodes[w].lp == None
    requires forall x: nat :: x in pool ==> Absorbed(g, o, r.others, w, x, pool)
    requires pool != [] <==> BelowIn(back[w], w)
    requires r'.ty[w] == (if pool != [] then if Entered(o, r.others, w, pool) then Irreducible else Reducible
                          else if w in back[w] then SelfLoop else NonHeader)
    requires if pool != [] || w in back[w]
             then Gathered(r.loops, r'.loops, name, r.nodes, pool) && r'.nodes[w].lp == Some(|r.loops|)
             else r'.loops == r.loops && r'.nodes[w].lp == None
    ensures HeaderDone(g, o, back, r', w)
    ensures |r.loops| <= |r'.loops| && Owned(r'.nodes, base, |r'.loops|)
    ensures forall l: nat :: l < |r.loops| ==> r'.loops[l] == r.loops[l].(parent := r'.loops[l].parent)
    ensures forall l: nat :: l < base ==> r'.loops[l] == r.loops[l]
  {
    hide Collects, Absorbed, Entered, Tied, Owned, EnteredAt, LoopIn, LeafIn;
    assert w !in pool;
    EnteredFrame(g, o, r.others, r'.others, w, w, pool);
    CollectsWhen(r, r', name, pool);
    assert back[w] != [] <==> BelowIn(back[w], w) || w in back[w] by {
      if back[w] != [] { assert back[w][0] in back[w]; }
    }
    if pool != [] || w in back[w] {
      OwnedNext(r.nodes, r'.nodes, base, |r.loops|, w);
      forall l: nat | l < base ensures r'.loops[l] == r.loops[l] { NotPooled(r.nodes, base, |r.loops|, pool, l); }
    } else {
      OwnedSame(r.nodes, r'.nodes, base, |r.loops|);
    }
  }

  lemma CollectsWhen(r: Run, r': Run, name: nat, pool: seq<nat>)
    requires |r.nodes| == |r'.nodes|
    requires forall x: nat :: x in pool && x < |r.nodes| ==>
               r'.nodes[x].lp == r.nodes[x].lp && r'.nodes[x].bb == r.nodes[x].bb
    ensures forall l: nat :: l < |r'.loops| ==>
              (Collects(r'.loops[l], name, r.nodes, pool) <==> Collects(r'.loops[l], name, r'.nodes, pool))
  {
    hide Collects;
    forall l: nat | l < |r'.loops|
      ensures Collects(r'.loops[l], name, r.nodes, pool) <==> Collects(r'.loops[l], name, r'.nodes, pool)
    {
      CollectsFrame(r'.loops[l], name, r.nodes, r'.nodes, pool);
    }
  }

  lemma NotPooled(nodes: seq<Uf>, base: nat, count: nat, pool: seq<nat>, l: nat)
    requires Owned(nodes, base, count) && l < base
    ensures !LoopIn(nodes, pool, l)
  {}

  // ── Start and end ─────────────────────────────────────────────────

  /** number and names are inverse to each other, and number knows exactly the blocks. */
  ghost predicate Numbering(g: Blocks, names: seq<nat>, number: Numbers)
  {
    && (forall n: nat :: n in number <==> HasBlock(g, n))
    && (forall n: nat, i: nat :: HasNumber(number, n, i) <==> i < |names| && names[i] == n)
  }

  ghost function NamesOf(nodes: seq<Uf>, count: nat): (names: seq<nat>)
    requires count <= |nodes|
    ensures |names| == count
    ensures forall i: nat :: i < count && nodes[i].bb.Some? ==> nodes[i].bb == Some(names[i])
  {
    seq(count, i requires 0 <= i < count => if nodes[i].bb.Some? then nodes[i].bb.value else 0)
  }

  lemma NamedNumbering(g: Blocks, o: Order, nodes: seq<Uf>, number: Numbers)
    requires Named(g, o, nodes, number)
    ensures Numbering(g, o.names, number)
    ensures forall x: nat :: x < |o.names| ==> HasBlock(g, o.names[x])
  {
    forall n: nat, i: nat ensures HasNumber(number, n, i) <==> i < |o.names| && o.names[i] == n {
      if i < |o.names| { assert IsNode(nodes, i, o.names[i]); }
      assert IsNode(nodes, i, n) <==> HasNumber(number, n, i);
    }
    forall x: nat | x < |o.names| ensures HasBlock(g, o.names[x]) { assert HasNumber(number, o.names[x], x); }
  }

  lemma NodeNamed(g: Blocks, o: Order, nodes: seq<Uf>, number: Numbers, w: nat)
    requires Named(g, o, nodes, number) && w < |g|
    ensures |nodes| == |g| && (nodes[w].bb == if w < |o.names| then Some(o.names[w]) else None)
  {
    if w < |o.names| { assert IsNode(nodes, w, o.names[w]); }
  }

  /** Before the first header every node is its own root and has no loop. */
  lemma ProgressStart(g: Blocks, o: Order, back: seq<seq<nat>>, r: Run, number: Numbers)
    requires Ordered(g, o) && Shaped(g, o, back, r) && EdgesOk(g, o, back, r.others)
    requires Named(g, o, r.nodes, number) && r.loops != []
    requires forall i: nat :: i < |o.names| ==> r.nodes[i] == Uf(i, r.nodes[i].bb, None, i)
    requires r.rank == seq(|o.names|, _ => 0) && r.pools == seq(|g|, _ => [])
    requires forall x: nat :: x < |g| ==> r.header[x] == 0 && r.ty[x] == if x < |o.names| then NonHeader else Dead
    ensures Progress(g, o, back, r, |r.loops|, |g| - 1)
  {
    hide Ordered, Kin;
    forall x: nat | x < |r.rank| ensures Kin(g, o, |g| - 1, x, r.nodes[x].parent) && Link(r.nodes, r.rank, x) {
      KinSelf(g, o, |g| - 1, x);
    }
    forall x: nat | x < |o.names| ensures r.nodes[x].bb == Some(o.names[x]) {
      assert IsNode(r.nodes, x, o.names[x]);
    }
    forall x: nat, l: nat ensures !HasLoop(r.nodes, x, l) {}
  }

  /** Numbers that were not given out are passed over. */
  lemma ProgressSkip(g: Blocks, o: Order, back: seq<seq<nat>>, r: Run, base: nat, w: int)
    requires Progress(g, o, back, r, base, w) && w >= |o.names|
    ensures Progress(g, o, back, r, base, w - 1)
  {
    hide EdgesOk, Forest, Owned, HeaderDone, Tied, HeaderOf;
    forall x: nat | x < |r.rank| ensures Kin(g, o, w - 1, x, r.nodes[x].parent) {
      assert Kin(g, o, w, x, r.nodes[x].parent);
    }
  }

  lemma ProgressAt(g: Blocks, o: Order, back: seq<seq<nat>>, r: Run, base: nat, w: nat)
    requires Progress(g, o, back, r, base, w) && w < |o.names|
    ensures Collapsed(g, o, r.nodes, r.rank, w) && EdgesOk(g, o, back, r.others)
    ensures 0 < base <= |r.loops| && Owned(r.nodes, base, |r.loops|)
    ensures r.ty[w] == NonHeader && r.nodes[w].lp == None
  {
    hide HeaderDone, Forest, Kin, EdgesOk, Owned, HeaderOf;
    assert Untouched(r, w);
  }

  lemma ProgressNode(g: Blocks, o: Order, back: seq<seq<nat>>, r: Run, base: nat, w: int, x: nat)
    requires Progress(g, o, back, r, base, w) && x < |g|
    ensures r.nodes[x].bb.Some? <==> x < |o.names|
  {
    hide HeaderDone, Untouched, Forest, Kin, EdgesOk, Owned, HeaderOf;
    if x >= |o.names| { assert Unreached(r, x); }
  }

  /**
   * What the numbering says at the end: names and numbers are inverse, the numbered blocks are those
   * the start reaches, intervals are the subtrees of the search tree, and no edge leaves a block for
   * a number past the end of its interval.
   */
  ghost predicate Explored(g: Blocks, start: nat, names: seq<nat>, number: Numbers, last: seq<nat>, tree: seq<nat>)
    ensures Explored(g, start, names, number, last, tree) ==> names != []
  {
    && Numbering(g, names, number) && names != [] && names[0] == start
    && (forall m: nat :: Visited(number, m) <==> Reaches(g, start, m))
    && Laminar(last, tree, 0, 0, |names| - 1)
    && (forall u: nat, v: nat {:trigger Edge(g, names[u], names[v])} ::
          u < |names| && v < |names| && Edge(g, names[u], names[v]) ==> v <= last[u])
  }

  lemma SearchExplored(g: Blocks, s: Search, name: nat, hi: nat, names: seq<nat>)
    requires Searched(g, s, name, 0, 0, hi) && s.last[0] == hi && names == NamesOf(s.nodes, hi + 1)
    ensures Explored(g, name, names, s.number, s.last, s.tree)
    ensures Ordered(g, Order(names, s.last)) && Named(g, Order(names, s.last), s.nodes, s.number)
    ensures forall i: nat :: i < |names| ==> s.nodes[i] == Uf(i, s.nodes[i].bb, None, i)
    ensures Treed(g, Order(names, s.last))
  {
    hide Laminar, TreeEdges, Reaches, Treed;
    forall i: nat | i <= hi ensures IsNode(s.nodes, i, names[i]) { SearchedNode(g, s, name, hi, i); }
    SearchOrdered(g, s, name, hi, names);
    SearchTreed(g, s, name, hi, names);
    NamedNumbering(g, Order(names, s.last), s.nodes, s.number);
    forall m: nat ensures Visited(s.number, m) <==> Reaches(g, name, m) {
      NumberedReachable(g, s.nodes, s.number, s.last, s.tree, hi, m);
    }
    forall u: nat, v: nat | u <= hi && v <= hi && Edge(g, names[u], names[v]) ensures v <= s.last[u] {
      assert IsNode(s.nodes, u, names[u]) && Before(s.number, names[v], s.last[u]);
      assert HasNumber(s.number, names[v], v);
    }
  }

  // ── What a complete run means ─────────────────────────────────────

  /** A reached block gets a loop exactly when it has an edge from itself or from a block below it. */
  lemma LoopsExactly(g: Blocks, o: Order, back: seq<seq<nat>>, r: Run, base: nat, w: nat)
    requires Progress(g, o, back, r, base, -1) && w < |o.names|
    ensures r.nodes[w].lp.Some? <==> exists v: nat :: IsBackPred(g, o, w, v)
  {
    hide Collapsed, Owned, HeaderOf, ClassOf, PoolOk, Absorbed, Collects;
    assert HeaderDone(g, o, back, r, w);
    if back[w] != [] { assert back[w][0] in back[w]; }
  }

  /** The loop's kind: only itself, entered at its header only, or entered elsewhere too. */
  lemma KindExactly(g: Blocks, o: Order, back: seq<seq<nat>>, r: Run, base: nat, w: nat)
    requires Progress(g, o, back, r, base, -1) && w < |o.names|
    ensures r.ty[w] == NonHeader <==> !exists v: nat :: IsBackPred(g, o, w, v)
    ensures r.ty[w] == SelfLoop <==> IsBackPred(g, o, w, w) && !exists v: nat :: v != w && IsBackPred(g, o, w, v)
    ensures r.ty[w] == Irreducible <==>
              exists x: nat, y: nat :: x in r.pools[w] && x < |g| && y in r.others[x] && !Within(o, w, y)
    ensures r.ty[w] == Reducible <==>
              (exists v: nat :: v != w && IsBackPred(g, o, w, v))
              && forall x: nat, y: nat :: x in r.pools[w] && x < |g| && y in r.others[x] ==> Within(o, w, y)
  {
    hide Collapsed, Owned, HeaderOf, PoolOk, Absorbed, Collects;
    assert HeaderDone(g, o, back, r, w);
    if back[w] != [] { assert back[w][0] in back[w]; }
    if Entered(o, r.others, w, r.pools[w]) {
      var x: nat :| x in r.pools[w] && EnteredAt(o, r.others, w, x);
      var y: nat :| y in r.others[x] && !Within(o, w, y);
    }
    forall x: nat, y: nat | x in r.pools[w] && x < |g| && y in r.others[x] && !Within(o, w, y)
      ensures Entered(o, r.others, w, r.pools[w])
    {
      assert EnteredAt(o, r.others, w, x);
    }
  }

  /** No path was hooked in the whole run, so what it says of every loop is so of the graph. */
  ghost predicate ExactEnd(g: Blocks, o: Order, back: seq<seq<nat>>, r: Run, base: nat)
  {
    Progress(g, o, back, r, base, -1) && ExactRun(g, o, r.nodes, r.rank, r.others, r.pools, r.ty, -1)
  }

  lemma ExactAt(g: Blocks, o: Order, back: seq<seq<nat>>, r: Run, base: nat, w: nat)
    requires ExactEnd(g, o, back, r, base) && w < |o.names|
    ensures LoopExact(g, o, r.pools[w], r.ty[w], w) && HeaderDone(g, o, back, r, w) && EdgesOk(g, o, back, r.others)
  {
    hide Exact, LoopExact, HeaderDone, Collapsed, Owned, HeaderOf, EdgesOk;
  }

  /** Then a header's pool is the blocks whose innermost loop it heads, and its kind is told by the graph's edges. */
  lemma BodyExactly(g: Blocks, o: Order, back: seq<seq<nat>>, r: Run, base: nat, w: nat)
    requires ExactEnd(g, o, back, r, base) && w < |o.names|
    ensures forall x: nat :: x in r.pools[w] <==> Innermost(g, o, w, x)
    ensures r.ty[w] == Irreducible <==> BodyEntered(g, o, w)
    ensures r.ty[w] == Reducible <==> (exists x: nat :: InBody(g, o, w, x)) && !BodyEntered(g, o, w)
  {
    hide Exact, ExactRun, HeaderDone, Innermost, BodyEntered, InBody;
    ExactAt(g, o, back, r, base, w);
    KindExactly(g, o, back, r, base, w);
    assert (exists v: nat :: v != w && IsBackPred(g, o, w, v)) <==> exists x: nat :: InBody(g, o, w, x) by {
      BodyBack(g, o, w);
    }
    if BodyEntered(g, o, w) { EnteredBody(g, o, w); }
  }

  lemma EnteredBody(g: Blocks, o: Order, w: nat)
    requires BodyEntered(g, o, w)
    ensures exists x: nat :: InBody(g, o, w, x)
  {
    hide InBody;
  }

  /** A body is not empty exactly when an edge from below comes back to its header. */
  lemma BodyBack(g: Blocks, o: Order, w: nat)
    requires w < |o.names|
    ensures (exists v: nat :: v != w && IsBackPred(g, o, w, v)) <==> exists x: nat :: InBody(g, o, w, x)
  {
    if v: nat :| v != w && IsBackPred(g, o, w, v) {
      hide Inner;
      InnerSelf(g, o, w, v);
      InnerSelf(g, o, w, w);
      InnerStep(g, o, w, v, v, w);
      assert InBody(g, o, w, v);
    }
    if x: nat :| InBody(g, o, w, x) {
      var p: seq<nat> :| TripOf(g, o, w, p, x, w);
      var v := LastHop(g, o, w, p);
      assert IsBackPred(g, o, w, v);
    }
  }

  /** On a path to w that starts elsewhere, the last block before w. */
  lemma {:induction false} LastHop(g: Blocks, o: Order, w: nat, p: seq<nat>) returns (v: nat)
    requires Trip(g, o, w, p) && p[0] != w && p[|p| - 1] == w
    ensures v != w && Hop(g, o, v, w) && Within(o, w, v)
    decreases |p|
  {
    assert Hop(g, o, p[0], p[1]);
    if p[1] == w { v := p[0]; } else { TripTail(g, o, w, p); v := LastHop(g, o, w, p[1..]); }
  }

  /** The header recorded for a block is that of its innermost loop, and 0 when no loop holds it. */
  lemma HeaderExactly(g: Blocks, o: Order, back: seq<seq<nat>>, r: Run, base: nat, x: nat)
    requires ExactEnd(g, o, back, r, base) && x < |o.names|
    ensures if exists u: nat :: InBody(g, o, u, x) then Innermost(g, o, r.header[x], x) else r.header[x] == 0
  {
    hide Exact, ExactRun, HeaderDone, InBody, Innermost, Collapsed, EdgesOk;
    assert HeaderOf(r.pools, x, r.header[x]);
    var h := r.header[x];
    if u: nat :| InBody(g, o, u, x) {
      var w := InnermostOver(g, o, u, x);
      InnermostBound(g, o, w, x);
      ExactAt(g, o, back, r, base, w);
      assert InPool(r.pools, w, x);
      assert InPool(r.pools, h, x) && h <= w;
      ExactAt(g, o, back, r, base, h);
    } else if h != 0 {
      PoolReached(g, o, back, r, base, h);
      ExactAt(g, o, back, r, base, h);
      InnermostBound(g, o, h, x);
    }
  }

  lemma InnermostBound(g: Blocks, o: Order, w: nat, x: nat)
    requires Innermost(g, o, w, x)
    ensures InBody(g, o, w, x) && w < x < |o.names|
  {
    hide InBody;
    BodyBound(g, o, w, x);
  }

  /** Among the headers with x in their bodies there is a last one. */
  lemma {:induction false} InnermostOver(g: Blocks, o: Order, u: nat, x: nat) returns (w: nat)
    requires InBody(g, o, u, x)
    ensures Innermost(g, o, w, x)
    decreases x - u
  {
    hide InBody;
    BodyBound(g, o, u, x);
    if v: nat :| u < v && InBody(g, o, v, x) {
      BodyBound(g, o, v, x);
      w := InnermostOver(g, o, v, x);
    } else {
      w := u;
    }
  }

  /** The header recorded for a block is a proper ancestor on a common cycle, and heads a loop. */
  lemma HeaderSound(g: Blocks, o: Order, back: seq<seq<nat>>, r: Run, base: nat, x: nat)
    requires Progress(g, o, back, r, base, -1) && x < |g| && r.header[x] != 0
    ensures Under(o, r.header[x], x) && Tied(g, o, r.header[x], x)
    ensures r.header[x] < |o.names| && r.nodes[r.header[x]].lp.Some?
  {
    var h := r.header[x];
    assert HeaderOf(r.pools, x, h);
    PoolReached(g, o, back, r, base, h);
    assert HeaderDone(g, o, back, r, h);
    var v :| v in back[h] && v != h;
  }

  lemma PoolReached(g: Blocks, o: Order, back: seq<seq<nat>>, r: Run, base: nat, h: nat)
    requires Progress(g, o, back, r, base, -1) && h < |g|
    ensures h >= |o.names| ==> r.pools[h] == []
  {
    if h >= |o.names| { assert Unreached(r, h); }
  }
}
