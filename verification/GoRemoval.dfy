/** The daemon's removeByPeer: a removed node with two children is replaced by the first one
    alone. What it loses is stated exactly. */
module GoRemoval {
  import opened Options
  import opened PrefixTree
  import opened GoTrie

  /** What removeByPeer makes of a tree. */
  function RemoveFirst(t: Tree, p: Peer): Tree {
    if t.Nil? then Nil
    else FirstTop(t.(left := RemoveFirst(t.left, p), right := RemoveFirst(t.right, p)), p)
  }

  function FirstTop(t: Tree, p: Peer): Tree
    requires t.Node?
  {
    if t.peer != Some(p) then t
    else if t.left.Nil? then t.right
    else t.left
  }

  /** Every node of the tree belongs to p. */
  predicate AllOf(t: Tree, p: Peer) {
    t.Node? ==> t.peer == Some(p) && AllOf(t.left, p) && AllOf(t.right, p)
  }

  /** No other peer has a prefix in the tree. */
  predicate NoOther(t: Tree, p: Peer) {
    t.Node? ==> (t.peer.None? || t.peer == Some(p)) && NoOther(t.left, p) && NoOther(t.right, p)
  }

  /** No node of p has, on its first side, a node that stays and, on its second, a prefix of another peer. */
  predicate Lossless(t: Tree, p: Peer) {
    t.Node? ==>
      && Lossless(t.left, p) && Lossless(t.right, p)
      && (t.peer == Some(p) ==> AllOf(t.left, p) || NoOther(t.right, p))
  }

  lemma {:induction false} GoneIff(t: Tree, p: Peer)
    ensures RemoveFirst(t, p).Nil? <==> AllOf(t, p)
  {
    if t.Node? {
      GoneIff(t.left, p);
      GoneIff(t.right, p);
    }
  }

  lemma {:induction false} NoOtherLossless(t: Tree, p: Peer)
    ensures AllOf(t, p) ==> NoOther(t, p)
    ensures NoOther(t, p) ==> Lossless(t, p)
  {
    if t.Node? {
      NoOtherLossless(t.left, p);
      NoOtherLossless(t.right, p);
    }
  }

  lemma {:induction false} Apart(t: Tree, under: Key, bits: nat)
    requires WellFormed(t, under, bits) && t.Node?
    ensures Entries(t.left).Keys !! Entries(t.right).Keys
    ensures t.prefix !in Entries(t.left) && t.prefix !in Entries(t.right)
  {
    EntriesUnder(t.left, t.prefix + [false], bits);
    EntriesUnder(t.right, t.prefix + [true], bits);
    hide Entries;
    Sides(t.prefix, Entries(t.left), Entries(t.right));
  }

  lemma {:induction false} NoOtherIff(t: Tree, under: Key, bits: nat, p: Peer)
    requires WellFormed(t, under, bits)
    ensures NoOther(t, p) <==> Without(Entries(t), p) == map[]
  {
    if t.Node? {
      Apart(t, under, bits);
      NoOtherIff(t.left, t.prefix + [false], bits, p);
      NoOtherIff(t.right, t.prefix + [true], bits, p);
      WithoutSum(Entries(t.left), Entries(t.right), Own(t.prefix, t.peer), p);
      hide Entries;
      var l, r, o := Without(Entries(t.left), p), Without(Entries(t.right), p), Without(Own(t.prefix, t.peer), p);
      NothingIn(l, r, o);
    }
  }

  lemma {:induction false} NothingIn(l: map<Key, Peer>, r: map<Key, Peer>, o: map<Key, Peer>)
    ensures l + r + o == map[] <==> l == map[] && r == map[] && o == map[]
  {
    var s := l + r + o;
    assert forall k | k in l :: k in s;
    assert forall k | k in r :: k in s;
    assert forall k | k in o :: k in s;
  }

  // ---------- parts of maps

  ghost predicate Within(a: map<Key, Peer>, b: map<Key, Peer>) {
    forall k | k in a :: k in b && a[k] == b[k]
  }

  lemma {:induction false} SumWithin(a: map<Key, Peer>, b: map<Key, Peer>, l: map<Key, Peer>, r: map<Key, Peer>,
                                     o: map<Key, Peer>)
    requires Within(a, l) && Within(b, r) && l.Keys !! r.Keys && l.Keys !! o.Keys && r.Keys !! o.Keys
    ensures Within(a + b + o, l + r + o)
    ensures a + b + o == l + r + o <==> a == l && b == r
  {
    if a + b + o == l + r + o {
      assert forall k | k in l :: k in l + r + o;
      assert forall k | k in r :: k in l + r + o;
      assert a == l;
      assert b == r;
    }
  }

  /** Keeping one side is enough only when the other holds nothing. */
  lemma {:induction false} OneSide(a: map<Key, Peer>, l: map<Key, Peer>, r: map<Key, Peer>)
    requires Within(a, l) && l.Keys !! r.Keys
    ensures Within(a, l + r) && Within(a, r + l)
    ensures a == l + r <==> a == l && r == map[]
  {
    assert forall k | k in l :: k in l + r;
    assert forall k | k in r :: k in l + r;
    if a == l + r {
      assert forall k | k in r :: k in a && k in l;
      assert a == l;
    }
    if r == map[] {
      assert l + r == l;
    }
  }

  lemma {:induction false} Flip(l: map<Key, Peer>, r: map<Key, Peer>)
    requires l.Keys !! r.Keys
    ensures l + r == r + l
  {
  }

  lemma {:induction false} WithoutApart(m: map<Key, Peer>, p: Peer)
    ensures Without(m, p).Keys <= m.Keys
  {
  }

  // ---------- the exact condition

  /** Without(Entries(t), p), side by side. */
  lemma {:induction false} Expected(t: Tree, under: Key, bits: nat, p: Peer)
    requires WellFormed(t, under, bits) && t.Node?
    ensures var l, r, o := Without(Entries(t.left), p), Without(Entries(t.right), p), Without(Own(t.prefix, t.peer), p);
      && l.Keys !! r.Keys && l.Keys !! o.Keys && r.Keys !! o.Keys
      && Without(Entries(t), p) == l + r + o
      && o == if t.peer == Some(p) then map[] else Own(t.prefix, t.peer)
  {
    Apart(t, under, bits);
    WithoutSum(Entries(t.left), Entries(t.right), Own(t.prefix, t.peer), p);
    WithoutApart(Entries(t.left), p);
    WithoutApart(Entries(t.right), p);
    WithoutApart(Own(t.prefix, t.peer), p);
    OwnWithout(t.prefix, t.peer, p);
  }

  lemma {:induction false} OwnWithout(k: Key, peer: Option<Peer>, p: Peer)
    ensures Without(Own(k, peer), p) == if peer == Some(p) then map[] else Own(k, peer)
  {
  }

  /** The map left by a node: mine if it belongs to the peer, gone if its first side vanishes. */
  lemma {:induction false} Decide(a: map<Key, Peer>, b: map<Key, Peer>, l: map<Key, Peer>, r: map<Key, Peer>,
                                  o: map<Key, Peer>, mine: bool, gone: bool)
    requires Within(a, l) && Within(b, r) && l.Keys !! r.Keys && l.Keys !! o.Keys && r.Keys !! o.Keys
    requires (mine ==> o == map[]) && (gone ==> l == map[])
    ensures var result := if !mine then a + b + o else if gone then b else a;
      && Within(result, l + r + o)
      && (result == l + r + o <==> if !mine then a == l && b == r else if gone then b == r else a == l && r == map[])
  {
    if !mine {
      SumWithin(a, b, l, r, o);
    } else {
      assert l + r + o == l + r;
      if gone {
        Flip(l, r);
        OneSide(b, r, l);
      } else {
        OneSide(a, l, r);
      }
    }
  }

  /** removeByPeer never adds or changes a prefix, and it removes exactly the prefixes of the
      peer if and only if the tree is lossless for it. */
  lemma {:induction false} RemoveFirstExact(t: Tree, under: Key, bits: nat, p: Peer)
    requires WellFormed(t, under, bits)
    ensures Within(Entries(RemoveFirst(t, p)), Without(Entries(t), p))
    ensures Entries(RemoveFirst(t, p)) == Without(Entries(t), p) <==> Lossless(t, p)
  {
    if t.Node? {
      RemoveFirstExact(t.left, t.prefix + [false], bits, p);
      RemoveFirstExact(t.right, t.prefix + [true], bits, p);
      GoneIff(t.left, p);
      NoOtherLossless(t.left, p);
      NoOtherLossless(t.right, p);
      NoOtherIff(t.left, t.prefix + [false], bits, p);
      NoOtherIff(t.right, t.prefix + [true], bits, p);
      Expected(t, under, bits, p);
      LosslessIs(t, p);
      TopIs(t, p);
      hide *;
      var a, b := Entries(RemoveFirst(t.left, p)), Entries(RemoveFirst(t.right, p));
      var l, r, o := Without(Entries(t.left), p), Without(Entries(t.right), p), Without(Own(t.prefix, t.peer), p);
      Decide(a, b, l, r, o, t.peer == Some(p), RemoveFirst(t.left, p).Nil?);
    } else {
      assert Without(map[], p) == map[];
    }
  }

  lemma {:induction false} LosslessIs(t: Tree, p: Peer)
    requires t.Node?
    ensures Lossless(t, p) <==> (
      && Lossless(t.left, p) && Lossless(t.right, p)
      && (t.peer == Some(p) ==> AllOf(t.left, p) || NoOther(t.right, p)))
  {
  }

  lemma {:induction false} TopIs(t: Tree, p: Peer)
    requires t.Node?
    ensures var left, right := RemoveFirst(t.left, p), RemoveFirst(t.right, p);
      Entries(RemoveFirst(t, p)) ==
      if t.peer != Some(p) then Entries(left) + Entries(right) + Own(t.prefix, t.peer)
      else if left.Nil? then Entries(right) else Entries(left)
  {
    var u := t.(left := RemoveFirst(t.left, p), right := RemoveFirst(t.right, p));
    assert RemoveFirst(t, p) == FirstTop(u, p);
    hide RemoveFirst;
  }

  /** A peer with the default route, and two others below it. */
  const SMALL: Tree := Node([], Some(0), Leaf([false], Some(1)), Leaf([true], Some(2)))

  lemma {:induction false} SmallShape()
    ensures WellFormed(SMALL, [], 32) && !Lossless(SMALL, 0) && RemoveFirst(SMALL, 0) == Leaf([false], Some(1))
  {
    assert [] + [false] == [false] && [] + [true] == [true];
    LeafWellFormed([false], 1, [false], 32);
    LeafWellFormed([true], 2, [true], 32);
    assert RemoveFirst(SMALL.left, 0) == SMALL.left;
  }

  lemma {:induction false} SmallEntries()
    ensures Without(Entries(SMALL), 0) == map[[false] := 1, [true] := 2]
  {
    SmallShape();
    LeafEntries([false], 1);
    LeafEntries([true], 2);
    hide Entries;
    hide WellFormed;
    Expected(SMALL, [], 32, 0);
    assert Without(map[[false] := 1], 0) == map[[false] := 1] && Without(map[[true] := 2], 0) == map[[true] := 2];
    assert map[[false] := 1] + map[[true] := 2] + map[] == map[[false] := 1, [true] := 2];
  }

  lemma {:induction false} SmallBuilt()
    ensures SMALL == PrefixTree.Insert(PrefixTree.Insert(PrefixTree.Insert(Nil, [], 0), [false], 1), [true], 2)
  {
    var a := Leaf([], Some(0));
    var b := Node([], Some(0), Leaf([false], Some(1)), Nil);
    assert PrefixTree.Insert(Nil, [], 0) == a;
    assert PrefixTree.Insert(a, [false], 1) == b;
    assert PrefixTree.Insert(b, [true], 2) == SMALL;
  }

  /** Three insertions make a tree from which removing one peer loses the route of another. */
  lemma {:induction false} LosesASide()
    ensures SMALL == PrefixTree.Insert(PrefixTree.Insert(PrefixTree.Insert(Nil, [], 0), [false], 1), [true], 2)
    ensures WellFormed(SMALL, [], 32) && !Lossless(SMALL, 0)
    ensures Without(Entries(SMALL), 0) == map[[false] := 1, [true] := 2] == Entries(Remove(SMALL, 0))
    ensures Entries(RemoveFirst(SMALL, 0)) == map[[false] := 1]
  {
    hide *;
    SmallBuilt();
    SmallShape();
    SmallEntries();
    LeafEntries([false], 1);
    RemoveEntries(SMALL, [], 32, 0);
  }

  // ---------- in place

  /** removeByPeer */
  method RemoveByPeer(node: Entry?, p: Peer, bytes: nat, ghost s: Shape, ghost m: Memory)
    returns (r: Entry?, ghost u: Shape, ghost w: Memory)
    requires Holds(m) && Linked(m, node, s, bytes) && Separate(s)
    modifies m.Keys
    ensures Holds(w) && w.Keys == m.Keys && Linked(w, r, u, bytes) && Separate(u) && Nodes(u) <= Nodes(s)
    ensures forall n | n in m && n !in Nodes(s) :: w[n] == m[n]
    ensures TreeOf(u) == RemoveFirst(TreeOf(s), p)
    decreases s, 1
  {
    hide Entry.Prefix;
    hide Entry.Good;
    if node == null {
      return node, s, m;
    }
    ghost var b;
    b, w := RemoveBelow(node, p, bytes, s, m);
    Unfold(s, b, p);
    if node.peer != Some(p) {
      return node, b, w;
    }
    u := if node.child0 == null then b.right else b.left;
    r := if node.child0 == null then node.child1 else node.child0;
    Detached(w, node, b, r, u, bytes);
    w := w[node := w[node].(peer := None)];
    node.peer := None;
  }

  /** Both recursive calls, each followed by the assignment of the child. */
  method RemoveBelow(node: Entry, p: Peer, bytes: nat, ghost s: Shape, ghost m: Memory)
    returns (ghost b: Shape, ghost w: Memory)
    requires Holds(m) && Linked(m, node, s, bytes) && Separate(s) && s.Bin?
    modifies m.Keys
    ensures Holds(w) && w.Keys == m.Keys && Linked(w, node, b, bytes) && Separate(b) && Nodes(b) <= Nodes(s)
    ensures forall n | n in m && n !in Nodes(s) :: w[n] == m[n]
    ensures b.Bin? && b.node == s.node && b.peer == s.peer
    ensures TreeOf(b.left) == RemoveFirst(TreeOf(s.left), p) && TreeOf(b.right) == RemoveFirst(TreeOf(s.right), p)
    decreases s, 0
  {
    hide Entry.Prefix;
    hide Entry.Good;
    hide TreeOf;
    hide RemoveFirst;
    var child;
    ghost var c, v, a;
    child, c, v := RemoveByPeer(node.child0, p, bytes, s.left, m);
    a, v := Hook(node, false, child, bytes, s, m, c, v);
    child, c, w := RemoveByPeer(node.child1, p, bytes, a.right, v);
    b, w := Hook(node, true, child, bytes, a, v, c, w);
  }

  lemma {:induction false} Unfold(s: Shape, b: Shape, p: Peer)
    requires s.Bin? && b.Bin? && b.node == s.node && b.peer == s.peer
    requires TreeOf(b.left) == RemoveFirst(TreeOf(s.left), p) && TreeOf(b.right) == RemoveFirst(TreeOf(s.right), p)
    ensures RemoveFirst(TreeOf(s), p) ==
      if s.peer != Some(p) then TreeOf(b) else if b.left.Empty? then TreeOf(b.right) else TreeOf(b.left)
  {
    hide Entry.Prefix;
  }

  lemma {:induction false} Detached(w: Memory, node: Entry, b: Shape, r: Entry?, u: Shape, bytes: nat)
    requires b.Bin? && Linked(w, node, b, bytes) && Separate(b)
    requires (u == b.left && r == w[node].child0) || (u == b.right && r == w[node].child1)
    ensures Linked(w[node := w[node].(peer := None)], r, u, bytes) && Separate(u) && Nodes(u) <= Nodes(b)
  {
    LinkedNodes(w, r, u, bytes);
    LinkedFrame(w, w[node := w[node].(peer := None)], r, u, bytes);
  }
}
