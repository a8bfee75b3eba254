/** Red-black trees as values: what the arena of `Rbt` represents. A tree is
    seen either whole or as a subtree in its context (a zipper). */
module RedBlackTree {

  const NIL := -1

  /** An arena slot's index, key and value. */
  datatype Entry<V> = Entry(id: nat, key: int, value: V)

  datatype Tree<V> = Leaf | Fork(left: Tree<V>, e: Entry<V>, red: bool, right: Tree<V>)

  /** A tree with a hole: the path from the hole up to the root. */
  datatype Ctx<V> =
    | Top
    | LeftOf(e: Entry<V>, red: bool, right: Tree<V>, up: Ctx<V>)
    | RightOf(left: Tree<V>, e: Entry<V>, red: bool, up: Ctx<V>)

  function Plug<V>(c: Ctx<V>, t: Tree<V>): Tree<V>
    decreases c
  {
    match c
    case Top => t
    case LeftOf(e, red, r, up) => Plug(up, Fork(t, e, red, r))
    case RightOf(l, e, red, up) => Plug(up, Fork(l, e, red, t))
  }

  function Depth<V>(c: Ctx<V>): nat
  {
    if c.Top? then 0 else 1 + Depth(c.up)
  }

  // ── In-order entries ──────────────────────────────────────────────

  function Inorder<V>(t: Tree<V>): seq<Entry<V>>
  {
    if t.Leaf? then [] else Inorder(t.left) + [t.e] + Inorder(t.right)
  }

  function Before<V>(c: Ctx<V>): seq<Entry<V>>
  {
    match c
    case Top => []
    case LeftOf(e, red, r, up) => Before(up)
    case RightOf(l, e, red, up) => Before(up) + Inorder(l) + [e]
  }

  function After<V>(c: Ctx<V>): seq<Entry<V>>
  {
    match c
    case Top => []
    case LeftOf(e, red, r, up) => [e] + Inorder(r) + After(up)
    case RightOf(l, e, red, up) => After(up)
  }

  lemma {:induction false} InorderPlug<V>(c: Ctx<V>, t: Tree<V>)
    ensures Inorder(Plug(c, t)) == Before(c) + Inorder(t) + After(c)
    decreases c
  {
    match c
    case Top =>
    case LeftOf(e, red, r, up) => InorderPlug(up, Fork(t, e, red, r));
    case RightOf(l, e, red, up) => InorderPlug(up, Fork(l, e, red, t));
  }

  /** Search order: keys strictly increase along the in-order walk. */
  ghost predicate Sorted<V>(s: seq<Entry<V>>)
  {
    forall i, j :: 0 <= i < j < |s| ==> s[i].key < s[j].key
  }

  ghost predicate KeysBelow<V>(s: seq<Entry<V>>, k: int) { forall i :: 0 <= i < |s| ==> s[i].key < k }

  ghost predicate KeysAbove<V>(s: seq<Entry<V>>, k: int) { forall i :: 0 <= i < |s| ==> k < s[i].key }

  ghost function KeySet<V>(s: seq<Entry<V>>): set<int> { set i | 0 <= i < |s| :: s[i].key }

  /** The abstract map of a walk. */
  ghost function Contents<V>(s: seq<Entry<V>>): (m: map<int, V>)
    ensures m.Keys == KeySet(s)
  {
    if s == [] then map[]
    else
      var m := Contents(s[..|s| - 1])[s[|s| - 1].key := s[|s| - 1].value];
      assert KeySet(s) == KeySet(s[..|s| - 1]) + {s[|s| - 1].key};
      m
  }

  lemma {:induction false} ContentsAt<V>(s: seq<Entry<V>>, i: nat)
    requires Sorted(s) && i < |s|
    ensures s[i].key in Contents(s) && Contents(s)[s[i].key] == s[i].value
  {
    if i < |s| - 1 {
      var s' := s[..|s| - 1];
      ContentsAt(s', i);
      assert s'[i] == s[i];
    }
  }

  lemma ContentsIndex<V>(s: seq<Entry<V>>, k: int) returns (i: nat)
    requires Sorted(s) && k in Contents(s)
    ensures i < |s| && s[i].key == k && Contents(s)[k] == s[i].value
  {
    assert k in KeySet(s);
    i :| 0 <= i < |s| && s[i].key == k;
    ContentsAt(s, i);
  }

  lemma ContentsSnoc<V>(s: seq<Entry<V>>, e: Entry<V>)
    ensures Contents(s + [e]) == Contents(s)[e.key := e.value]
  {
    assert (s + [e])[..|s|] == s;
  }

  lemma SortedWithout<V>(b: seq<Entry<V>>, e: Entry<V>, a: seq<Entry<V>>)
    requires Sorted(b + [e] + a)
    ensures Sorted(b + a) && e.key !in KeySet(b + a)
  {
    var s, r := b + [e] + a, b + a;
    forall i, j | 0 <= i < j < |r| ensures r[i].key < r[j].key {
      assert r[i] == s[if i < |b| then i else i + 1] && r[j] == s[if j < |b| then j else j + 1];
    }
    forall i | 0 <= i < |r| ensures r[i].key != e.key {
      assert s[|b|] == e && r[i] == s[if i < |b| then i else i + 1];
    }
  }

  /** One entry of a sorted walk: taking it out takes its key out of the map. */
  lemma {:induction false} ContentsSplit<V>(b: seq<Entry<V>>, e: Entry<V>, a: seq<Entry<V>>)
    requires Sorted(b + [e] + a)
    ensures Sorted(b + a) && e.key !in Contents(b + a)
    ensures Contents(b + [e] + a) == Contents(b + a)[e.key := e.value]
    decreases a
  {
    hide Contents, KeySet;
    SortedWithout(b, e, a);
    if a == [] {
      assert b + [e] + a == b + [e] && b + a == b;
      ContentsSnoc(b, e);
    } else {
      var a', z := a[..|a| - 1], a[|a| - 1];
      assert b + [e] + a == (b + [e] + a') + [z] && b + a == (b + a') + [z];
      LastAbove(b + [e] + a', z, |b|);
      ContentsSplit(b, e, a');
      ContentsSnoc(b + [e] + a', z);
      ContentsSnoc(b + a', z);
    }
  }

  lemma LastAbove<V>(s: seq<Entry<V>>, z: Entry<V>, i: nat)
    requires Sorted(s + [z]) && i < |s|
    ensures Sorted(s) && s[i].key < z.key
  {
    assert forall j :: 0 <= j < |s| ==> (s + [z])[j] == s[j];
    assert (s + [z])[|s|] == z;
  }

  /** A new entry between smaller and larger keys. */
  lemma SortedInsert<V>(b: seq<Entry<V>>, e: Entry<V>, a: seq<Entry<V>>)
    requires Sorted(b + a) && KeysBelow(b, e.key) && KeysAbove(a, e.key)
    ensures Sorted(b + [e] + a)
  {
    var s, r := b + [e] + a, b + a;
    forall i, j | 0 <= i < j < |s| ensures s[i].key < s[j].key {
      assert i < |b| ==> s[i] == r[i];
      assert j < |b| ==> s[j] == r[j];
      assert i > |b| ==> s[i] == r[i - 1] && s[i] == a[i - |b| - 1];
      assert j > |b| ==> s[j] == r[j - 1] && s[j] == a[j - |b| - 1];
      assert i < |b| ==> s[i] == b[i];
    }
  }

  // ── Distinct arena slots ──────────────────────────────────────────

  ghost function Ids<V>(t: Tree<V>): set<nat>
  {
    if t.Leaf? then {} else Ids(t.left) + {t.e.id} + Ids(t.right)
  }

  ghost function CtxIds<V>(c: Ctx<V>): set<nat>
  {
    match c
    case Top => {}
    case LeftOf(e, red, r, up) => {e.id} + Ids(r) + CtxIds(up)
    case RightOf(l, e, red, up) => Ids(l) + {e.id} + CtxIds(up)
  }

  ghost predicate Distinct<V>(t: Tree<V>)
  {
    t.Fork? ==>
      && Distinct(t.left) && Distinct(t.right)
      && t.e.id !in Ids(t.left) && t.e.id !in Ids(t.right) && Ids(t.left) !! Ids(t.right)
  }

  ghost predicate CtxDistinct<V>(c: Ctx<V>)
  {
    match c
    case Top => true
    case LeftOf(e, red, r, up) =>
      Distinct(r) && CtxDistinct(up) && e.id !in Ids(r) && e.id !in CtxIds(up) && Ids(r) !! CtxIds(up)
    case RightOf(l, e, red, up) =>
      Distinct(l) && CtxDistinct(up) && e.id !in Ids(l) && e.id !in CtxIds(up) && Ids(l) !! CtxIds(up)
  }

  ghost predicate Apart<V>(c: Ctx<V>, t: Tree<V>)
  {
    CtxDistinct(c) && Distinct(t) && Ids(t) !! CtxIds(c)
  }

  lemma {:induction false} PlugIds<V>(c: Ctx<V>, t: Tree<V>)
    ensures Ids(Plug(c, t)) == Ids(t) + CtxIds(c)
    ensures Distinct(Plug(c, t)) <==> Apart(c, t)
    decreases c
  {
    match c
    case Top =>
    case LeftOf(e, red, r, up) => PlugIds(up, Fork(t, e, red, r));
    case RightOf(l, e, red, up) => PlugIds(up, Fork(l, e, red, t));
  }

  // ── Colours and black heights ─────────────────────────────────────

  predicate Red<V>(t: Tree<V>) { t.Fork? && t.red }

  predicate ParentRed<V>(c: Ctx<V>) { !c.Top? && c.red }

  /** Black nodes on the leftmost path. */
  function Height<V>(t: Tree<V>): nat
  {
    if t.Leaf? then 0 else Height(t.left) + if t.red then 0 else 1
  }

  /** No red node has a red child and all paths have equally many black nodes. */
  predicate Balanced<V>(t: Tree<V>)
  {
    t.Fork? ==>
      && Balanced(t.left) && Balanced(t.right)
      && Height(t.left) == Height(t.right)
      && (t.red ==> !Red(t.left) && !Red(t.right))
  }

  /** The subtree on the other side of the hole's parent. */
  function Sibling<V>(c: Ctx<V>): Tree<V>
    requires !c.Top?
  {
    if c.LeftOf? then c.right else c.left
  }

  /** The context is balanced around a hole of black height h. */
  predicate CtxBalanced<V>(c: Ctx<V>, h: nat)
  {
    match c
    case Top => true
    case LeftOf(e, red, r, up) =>
      && Balanced(r) && Height(r) == h && (red ==> !Red(r) && !ParentRed(up))
      && CtxBalanced(up, if red then h else h + 1)
    case RightOf(l, e, red, up) =>
      && Balanced(l) && Height(l) == h && (red ==> !Red(l) && !ParentRed(up))
      && CtxBalanced(up, if red then h else h + 1)
  }

  /** A tree is balanced exactly when the subtree in the hole is, its context is
      around it, and no red meets red at the hole. */
  lemma {:induction false} PlugBalanced<V>(c: Ctx<V>, t: Tree<V>)
    ensures Balanced(Plug(c, t)) <==> Balanced(t) && CtxBalanced(c, Height(t)) && !(ParentRed(c) && Red(t))
    decreases c
  {
    match c
    case Top =>
    case LeftOf(e, red, r, up) => PlugBalanced(up, Fork(t, e, red, r));
    case RightOf(l, e, red, up) => PlugBalanced(up, Fork(l, e, red, t));
  }

  /** The root of the plugged tree is black, whatever is in the hole below it. */
  predicate TopBlack<V>(c: Ctx<V>)
  {
    c.Top? || if c.up.Top? then !c.red else TopBlack(c.up)
  }

  lemma {:induction false} PlugRoot<V>(c: Ctx<V>, t: Tree<V>)
    ensures Red(Plug(c, t)) <==> if c.Top? then Red(t) else !TopBlack(c)
    decreases c
  {
    match c
    case Top =>
    case LeftOf(e, red, r, up) => PlugRoot(up, Fork(t, e, red, r));
    case RightOf(l, e, red, up) => PlugRoot(up, Fork(l, e, red, t));
  }

  /** The red-black laws. */
  ghost predicate RedBlack<V>(t: Tree<V>)
  {
    Distinct(t) && Balanced(t) && !Red(t) && Sorted(Inorder(t))
  }

  // ── Finding a node ────────────────────────────────────────────────

  /** Every slot of a tree is the root of a subtree in some context. */
  lemma {:induction false} FocusIn<V>(c: Ctx<V>, t: Tree<V>, id: nat) returns (c': Ctx<V>, t': Tree<V>)
    requires id in Ids(t)
    ensures t'.Fork? && t'.e.id == id && Plug(c', t') == Plug(c, t)
    decreases t
  {
    if id == t.e.id {
      c', t' := c, t;
    } else if id in Ids(t.left) {
      c', t' := FocusIn(LeftOf(t.e, t.red, t.right, c), t.left, id);
    } else {
      c', t' := FocusIn(RightOf(t.left, t.e, t.red, c), t.right, id);
    }
  }
}
