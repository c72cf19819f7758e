/** The kernel's allowed-IPs trie, wireguard_kernel/src/allowedips.c: lookup and
    insertion by loops over nodes that are spliced in place. */
module AllowedIps {
  import opened Bits
  import opened Options
  import opened PrefixTree
  import opened AddressBits
  import opened TrieHeap

  /** One root pointer, root4 or root6, with the width of its addresses. */
  class Trie {
    var top: TrieNode?
    const bytes: nat
    ghost var shape: Shape
    ghost var memory: Memory

    ghost predicate Valid()
      reads this, memory.Keys
    {
      && (bytes == 4 || bytes == 16) && Holds(memory)
      && Separate(shape) && Linked(memory, top, shape, bytes)
      && WellFormed(TreeOf(shape), [], 8 * bytes)
    }

    constructor (bytes: nat)
      requires bytes == 4 || bytes == 16
      ensures Valid() && this.bytes == bytes && shape == Empty && memory == map[]
    {
      top := null;
      this.bytes := bytes;
      shape := Empty;
      memory := map[];
    }

    /** find_node */
    method FindNode(key: seq<u8>) returns (found: TrieNode?)
      requires Valid() && |key| == bytes
      ensures found != null ==> found in memory && found.peer.Some?
      ensures PrefixTree.Lookup(TreeOf(shape), KeyBits(key)) == if found == null then None else found.peer
    {
      hide KeyBits;
      hide CommonBits;
      hide TrieNode.Prefix;
      hide TrieNode.Pick;
      ghost var m, x := memory, KeyBits(key);
      var node := top;
      ghost var cur := shape;
      found := null;
      while node != null && CommonBits(node.bits, key) >= node.cidr
        invariant Linked(m, node, cur, bytes)
        invariant found != null ==> found in memory && found.peer.Some?
        invariant PrefixTree.Lookup(TreeOf(shape), x) ==
          var d := PrefixTree.Lookup(TreeOf(cur), x);
          if d.Some? then d else if found == null then None else found.peer
        decreases cur
      {
        MatchesIs(node, key);
        PrefixIs(node, bytes);
        if node.peer.Some? {
          found := node;
        }
        if node.cidr == 8 * bytes {
          return;
        }
        PickIs(node, key);
        cur := Kid(cur, x[node.cidr]);
        node := node.Side(node.Pick(key));
      }
      if node != null {
        MatchesIs(node, key);
      }
    }

    /** node_placement: the node that already holds the prefix, or the one below
        which it belongs; path leads to the pointer to be replaced. */
    method NodePlacement(key: seq<u8>, cidr: nat) returns (exact: bool, rnode: TrieNode?, ghost path: Path)
      requires Valid() && |key| == bytes && cidr <= 8 * bytes
      ensures Leads(shape, path, KeyBits(key)[..cidr])
      ensures exact ==> At(shape, path).Bin? && rnode == At(shape, path).node && rnode.Prefix() == KeyBits(key)[..cidr]
      ensures !exact && At(shape, path).Bin? ==> !(At(shape, path).node.Prefix() <= KeyBits(key)[..cidr])
      ensures Inside(shape, path)
      ensures !exact ==> rnode == if path == [] then null else Above(shape, path)
      ensures !exact && rnode != null ==> rnode.bitAtA < |key| && rnode.Pick(key) == path[|path| - 1]
    {
      hide KeyBits;
      hide CommonBits;
      hide TrieNode.Prefix;
      hide TrieNode.Pick;
      ghost var m, x := memory, KeyBits(key);
      ghost var k := x[..cidr];
      var node := top;
      rnode := null;
      exact := false;
      path := [];
      while node != null && node.cidr <= cidr && CommonBits(node.bits, key) >= node.cidr
        invariant Linked(m, node, At(shape, path), bytes)
        invariant Leads(shape, path, k) && Inside(shape, path)
        invariant rnode == if path == [] then null else Above(shape, path)
        invariant rnode != null ==> rnode.bitAtA < |key| && rnode.Pick(key) == path[|path| - 1]
        decreases At(shape, path)
      {
        MatchesIs(node, key);
        PrefixIs(node, bytes);
        assert node.Prefix() <= k;
        rnode := node;
        if rnode.cidr == cidr {
          exact := true;
          return;
        }
        PickIs(node, key);
        LeadsOn(shape, path, k);
        node := rnode.Side(rnode.Pick(key));
        path := path + [x[rnode.cidr]];
      }
      if node != null {
        MatchesIs(node, key);
        PrefixIs(node, bytes);
        NotPrefix(node.Prefix(), k, x);
      }
    }

    /** The assignment that publishes a new subtree: *trie, or a child of parent. */
    method Attach(parent: TrieNode?, side: bool, n: TrieNode?, ghost path: Path, ghost u: Shape, ghost m: Memory)
      requires Valid() && Inside(shape, path)
      requires parent == if path == [] then null else Above(shape, path)
      requires path != [] ==> side == path[|path| - 1]
      requires Holds(m) && memory.Keys <= m.Keys && Separate(u) && Linked(m, n, u, bytes)
      requires Nodes(u) !! (Nodes(shape) - Nodes(At(shape, path)))
      requires WellFormed(TreeOf(Put(shape, path, u)), [], 8 * bytes)
      modifies this, memory.Keys
      ensures Valid() && shape == Put(old(shape), path, u) && memory.Keys == m.Keys
    {
      hide TrieNode.Prefix;
      hide TrieNode.Good;
      hide WellFormed;
      hide TreeOf;
      hide Linked;
      hide Separate;
      hide Put;
      hide At;
      hide Inside;
      hide Above;
      hide Nodes;
      ghost var s := shape;
      LinkedNodes(memory, top, s, bytes);
      LinkedFrame(memory, m, top, s, bytes);
      PutNodes(s, path, u);
      AtNodes(s, path);
      shape := Put(s, path, u);
      if parent == null {
        PutHere(s, u);
        top := n;
        memory := m;
      } else {
        if side { parent.bit1 := n; } else { parent.bit0 := n; }
        memory := m[parent := if side then m[parent].(bit1 := n) else m[parent].(bit0 := n)];
        Publish(m, memory, top, s, path, n, u, bytes);
      }
    }

    /** Overwrites the peer of a node in place. */
    method SetPeer(n: TrieNode, peer: Option<Peer>, ghost path: Path)
      requires Valid() && Inside(shape, path) && At(shape, path).Bin? && n == At(shape, path).node
      requires WellFormed(TreeOf(Put(shape, path, At(shape, path).(peer := peer))), [], 8 * bytes)
      modifies this, memory.Keys
      ensures Valid() && shape == Put(old(shape), path, At(old(shape), path).(peer := peer))
      ensures memory.Keys == old(memory.Keys) && top == old(top)
    {
      hide TrieNode.Prefix;
      hide TrieNode.Good;
      hide WellFormed;
      ghost var s, m := shape, memory;
      ghost var u := At(s, path).(peer := peer);
      LinkedNodes(m, top, s, bytes);
      AtNodes(s, path);
      AtSeparate(s, path);
      PutNodes(s, path, u);
      n.peer := peer;
      shape := Put(s, path, u);
      memory := m[n := m[n].(peer := peer)];
      Repeer(m, memory, top, s, path, peer, bytes);
    }

    /** The end of add: newnode takes the place of down, which becomes its child. */
    method InsertAbove(parent: TrieNode?, side: bool, down: TrieNode, newnode: TrieNode, ghost path: Path, ghost k: Key)
      requires Valid() && Leads(shape, path, k) && Inside(shape, path)
      requires parent == if path == [] then null else Above(shape, path)
      requires path != [] ==> side == path[|path| - 1]
      requires At(shape, path).Bin? && down == At(shape, path).node && !(down.Prefix() <= k)
      requires newnode.Good(bytes) && newnode.Prefix() == k && newnode !in memory
      requires newnode.peer.Some? && newnode.bit0 == null && newnode.bit1 == null
      requires Common(down.Prefix(), k) == |k|
      modifies this, memory.Keys, newnode
      ensures Valid() && memory.Keys == old(memory.Keys) + {newnode}
      ensures TreeOf(shape) == Insert(TreeOf(old(shape)), k, old(newnode.peer).value)
    {
      hide Common;
      hide At;
      hide TrieNode.Prefix;
      hide TrieNode.Pick;
      hide TrieNode.Good;
      hide WellFormed;
      ghost var s, c, p := shape, At(shape, path), newnode.peer.value;
      ghost var leaf := Bin(newnode, Some(p), Empty, Empty);
      SubtrieLinked(path);
      SplitBelow(down, newnode, bytes);
      PickBit(newnode, down, bytes);
      ghost var m := memory[newnode := Cell(newnode.peer, null, null)];
      LinkedFrame(memory, m, down, c, bytes);
      LeafShape(m, newnode, newnode.peer, bytes);
      hide Linked;
      hide Separate;
      hide Nodes;
      ghost var u;
      u, m := Hang(newnode, newnode.Pick(down.bits), down, bytes, m, leaf, c);
      SplitTree(u, leaf, c, k, p);
      InsertAt(s, path, k, p, u, bytes);
      Attach(parent, side, newnode, path, u, m);
    }

    /** The end of add: a glue node over down and newnode. */
    method InsertGlue(parent: TrieNode?, side: bool, down: TrieNode, newnode: TrieNode, cidr: nat, ghost path: Path,
                      ghost k: Key)
      requires Valid() && Leads(shape, path, k) && Inside(shape, path)
      requires parent == if path == [] then null else Above(shape, path)
      requires path != [] ==> side == path[|path| - 1]
      requires At(shape, path).Bin? && down == At(shape, path).node && !(down.Prefix() <= k)
      requires newnode.Good(bytes) && newnode.Prefix() == k && newnode !in memory
      requires newnode.peer.Some? && newnode.bit0 == null && newnode.bit1 == null
      requires cidr == Common(down.Prefix(), k) < |k|
      modifies this, memory.Keys
      ensures Valid() && fresh(memory.Keys - old(memory.Keys) - {newnode})
      ensures TreeOf(shape) == Insert(TreeOf(old(shape)), k, old(newnode.peer).value)
    {
      hide TrieNode.Prefix;
      hide TrieNode.Good;
      hide WellFormed;
      hide Linked;
      hide Separate;
      hide Nodes;
      hide Common;
      ghost var c := At(shape, path);
      SubtrieLinked(path);
      var node;
      ghost var u, m;
      node, u, m := BuildGlue(down, newnode, cidr, bytes, memory, c, k);
      SplitBelow(down, newnode, bytes);
      InsertAt(shape, path, k, newnode.peer.value, u, bytes);
      Attach(parent, side, node, path, u, m);
    }

    /** add into an empty trie. */
    method AddFirst(key: seq<u8>, cidr: nat, peer: Option<Peer>)
      requires Valid() && |key| == bytes && cidr <= 8 * bytes && peer.Some? && top == null
      modifies this, memory.Keys
      ensures Valid() && fresh(memory.Keys - old(memory.Keys))
      ensures TreeOf(shape) == Insert(TreeOf(old(shape)), KeyBits(key)[..cidr], peer.value)
    {
      hide KeyBits;
      hide BitAtA;
      var node := new TrieNode(key, cidr, peer);
      ghost var u := Bin(node, peer, Empty, Empty);
      InsertAt(shape, [], KeyBits(key)[..cidr], peer.value, u, bytes);
      Attach(null, false, node, [], u, memory[node := Cell(peer, null, null)]);
    }

    /** The part of add after a placement that is not exact. */
    method AddBelow(node: TrieNode?, key: seq<u8>, cidr: nat, peer: Option<Peer>, available: nat, ghost path: Path)
      returns (ret: int)
      requires Valid() && |key| == bytes && cidr <= 8 * bytes && peer.Some? && top != null
      requires Leads(shape, path, KeyBits(key)[..cidr]) && Inside(shape, path)
      requires At(shape, path).Bin? ==> !(At(shape, path).node.Prefix() <= KeyBits(key)[..cidr])
      requires node == if path == [] then null else Above(shape, path)
      requires node != null ==> node.bitAtA < |key| && node.Pick(key) == path[|path| - 1]
      modifies this, memory.Keys
      ensures Valid() && fresh(memory.Keys - old(memory.Keys))
      ensures ret == 0 || (ret == -ENOMEM && available < 2)
      ensures ret == 0 ==> TreeOf(shape) == Insert(TreeOf(old(shape)), KeyBits(key)[..cidr], peer.value)
      ensures ret != 0 ==> shape == old(shape) && top == old(top)
    {
      hide TrieNode.Prefix;
      hide TrieNode.Pick;
      hide KeyBits;
      hide BitAtA;
      hide CommonBits;
      hide WellFormed;
      if available == 0 {
        return -ENOMEM;
      }
      ghost var k := KeyBits(key)[..cidr];
      SubtrieLinked(path);
      var newnode := new TrieNode(key, cidr, peer);
      NewPrefix(newnode);
      var side := node != null && node.Pick(key);
      var down := if node == null then top else node.Side(side);
      if down == null {
        ghost var u := Bin(newnode, peer, Empty, Empty);
        InsertAt(shape, path, k, peer.value, u, bytes);
        Attach(node, side, newnode, path, u, memory[newnode := Cell(peer, null, null)]);
        return 0;
      }
      SplitPoint(down, newnode, bytes);
      var split := if cidr <= CommonBits(down.bits, key) then cidr else CommonBits(down.bits, key);
      if newnode.cidr == split {
        InsertAbove(node, side, down, newnode, path, k);
      } else {
        if available < 2 {
          return -ENOMEM;
        }
        InsertGlue(node, side, down, newnode, split, path, k);
      }
      return 0;
    }

    /** add: the trie afterwards is exactly the tree with the prefix inserted. */
    method Add(key: seq<u8>, cidr: nat, peer: Option<Peer>, available: nat) returns (ret: int)
      requires Valid() && |key| == bytes
      modifies this, memory.Keys
      ensures Valid() && fresh(memory.Keys - old(memory.Keys))
      ensures ret == -EINVAL <==> cidr > 8 * bytes || peer.None?
      ensures ret == 0 || ret == -EINVAL || (ret == -ENOMEM && available < 2)
      ensures ret == 0 ==> TreeOf(shape) == Insert(TreeOf(old(shape)), KeyBits(key)[..cidr], peer.value)
      ensures ret != 0 ==> shape == old(shape) && top == old(top)
    {
      hide TrieNode.Prefix;
      hide TrieNode.Pick;
      hide KeyBits;
      hide WellFormed;
      if cidr > 8 * bytes || peer.None? {
        return -EINVAL;
      }
      if top == null {
        if available == 0 {
          return -ENOMEM;
        }
        AddFirst(key, cidr, peer);
        return 0;
      }
      var exact, node;
      ghost var path;
      exact, node, path := NodePlacement(key, cidr);
      if exact {
        SubtrieLinked(path);
        InsertAt(shape, path, KeyBits(key)[..cidr], peer.value, At(shape, path).(peer := peer), bytes);
        SetPeer(node, peer, path);
        return 0;
      }
      ret := AddBelow(node, key, cidr, peer, available, path);
    }

    /** The pointer at the end of a path and the shape below it. */
    lemma {:induction false} SubtrieLinked(path: Path)
      requires Valid() && Inside(shape, path)
      ensures Separate(At(shape, path)) && Nodes(At(shape, path)) <= Nodes(shape) <= memory.Keys
      ensures var slot := if path == [] then top else Above(shape, path).Side(path[|path| - 1]);
              Linked(memory, slot, At(shape, path), bytes)
      ensures At(shape, path).Bin? ==> At(shape, path).node.Good(bytes)
      ensures path != [] ==> Above(shape, path) in Nodes(shape) && Above(shape, path) !in Nodes(At(shape, path))
    {
      LinkedNodes(memory, top, shape, bytes);
      AtNodes(shape, path);
      AtSeparate(shape, path);
      if path != [] { SlotLinked(memory, top, shape, path, bytes); }
    }
  }

  const EINVAL := 22
  const ENOMEM := 12

  /** Replacing the shape at the insertion point is insertion into the tree. */
  lemma {:induction false} InsertAt(s: Shape, path: Path, k: Key, p: Peer, u: Shape, bytes: nat)
    requires Leads(s, path, k) && TreeOf(u) == Insert(TreeOf(At(s, path)), k, p)
    requires WellFormed(TreeOf(s), [], 8 * bytes) && |k| <= 8 * bytes
    ensures TreeOf(Put(s, path, u)) == Insert(TreeOf(s), k, p) && WellFormed(TreeOf(Put(s, path, u)), [], 8 * bytes)
  {
    hide Insert;
    LeadsInsert(s, path, k, p, u);
    InsertEntries(TreeOf(s), [], 8 * bytes, k, p);
  }

  /** min(cidr, common_bits(down, key)) is where the two prefixes part. */
  lemma {:induction false} SplitPoint(down: TrieNode, n: TrieNode, bytes: nat)
    requires down.Good(bytes) && n.Good(bytes) && !(down.Prefix() <= n.Prefix())
    ensures var c := CommonBits(down.bits, n.bits);
            (if n.cidr <= c then n.cidr else c) == Common(down.Prefix(), n.Prefix()) < down.cidr
  {
    hide KeyBits;
    hide CommonBits;
    var x, y := KeyBits(down.bits), KeyBits(n.bits);
    CommonBitsIs(down.bits, n.bits);
    CommonPrefixes(x, down.cidr, y, n.cidr);
  }

  /** The new prefix parts from the old one inside both nodes' bits. */
  lemma {:induction false} SplitBelow(down: TrieNode, n: TrieNode, bytes: nat)
    requires down.Good(bytes) && n.Good(bytes) && !(down.Prefix() <= n.Prefix())
    ensures |down.Prefix()| == down.cidr && |n.Prefix()| == n.cidr <= 8 * bytes
    ensures Common(down.Prefix(), n.Prefix()) < down.cidr
    ensures var c := Common(down.Prefix(), n.Prefix()); c < n.cidr ==> down.Prefix()[c] != n.Prefix()[c]
  {
    hide TrieNode.Prefix;
    hide KeyBits;
    hide CommonBits;
    SplitPoint(down, n, bytes);
    PrefixIs(down, bytes);
    PrefixIs(n, bytes);
    CommonIs(down.Prefix(), n.Prefix());
  }

  lemma {:induction false} NewPrefix(n: TrieNode)
    requires n.Good(|n.bits|)
    ensures n.Prefix() == KeyBits(n.bits)[..n.cidr]
  {
    hide KeyBits;
  }

  lemma {:induction false} GluePrefix(g: TrieNode, n: TrieNode, bytes: nat)
    requires g.Good(bytes) && n.Good(bytes) && g.bits == n.bits && g.cidr <= n.cidr
    ensures |n.Prefix()| == n.cidr && g.Prefix() == n.Prefix()[..g.cidr]
  {
    hide KeyBits;
  }

  /** choose_node on the bits of a deeper node reads that node's prefix. */
  lemma {:induction false} PickBit(n: TrieNode, d: TrieNode, bytes: nat)
    requires n.Good(bytes) && d.Good(bytes)
    ensures n.cidr < d.cidr ==> n.bitAtA < |d.bits| && |d.Prefix()| == d.cidr && n.Pick(d.bits) == d.Prefix()[n.cidr]
  {
    hide KeyBits;
    if n.cidr < d.cidr {
      PickIs(n, d.bits);
    }
  }

  lemma {:induction false} SplitTree(u: Shape, leaf: Shape, c: Shape, k: Key, p: Peer)
    requires leaf.Bin? && leaf.left.Empty? && leaf.right.Empty? && leaf.peer == Some(p) && leaf.node.Prefix() == k
    requires c.Bin? && !(c.node.Prefix() <= k) && Common(c.node.Prefix(), k) == |k| < |c.node.Prefix()|
    requires u == WithKid(leaf, c.node.Prefix()[|k|], c)
    ensures TreeOf(u) == Split(TreeOf(c), k, p)
  {
    hide TrieNode.Prefix;
  }

  lemma {:induction false} GlueTree(u: Shape, g: TrieNode, leaf: Shape, c: Shape, k: Key, p: Peer)
    requires leaf.Bin? && leaf.left.Empty? && leaf.right.Empty? && leaf.peer == Some(p) && leaf.node.Prefix() == k
    requires c.Bin? && !(c.node.Prefix() <= k)
    requires var n := Common(c.node.Prefix(), k);
             && n < |k| && n < |c.node.Prefix()| && c.node.Prefix()[n] != k[n] && g.Prefix() == k[..n]
             && u == WithKid(WithKid(Bin(g, None, Empty, Empty), c.node.Prefix()[n], c), k[n], leaf)
    ensures TreeOf(u) == Split(TreeOf(c), k, p)
  {
    hide TrieNode.Prefix;
    hide Common;
    assert TreeOf(leaf) == Leaf(k, Some(p));
    assert TreeOf(Bin(g, None, Empty, Empty)) == Leaf(g.Prefix(), None);
  }

  /** A glue node with down and newnode as its children. */
  method BuildGlue(down: TrieNode, newnode: TrieNode, cidr: nat, bytes: nat, ghost memory: Memory, ghost c: Shape,
                   ghost k: Key)
    returns (node: TrieNode, ghost u: Shape, ghost m: Memory)
    requires Holds(memory) && c.Bin? && down == c.node && down.Good(bytes) && Separate(c)
    requires Linked(memory, down, c, bytes) && Nodes(c) <= memory.Keys
    requires newnode.Good(bytes) && newnode.Prefix() == k && newnode !in memory && !(down.Prefix() <= k)
    requires newnode.peer.Some? && newnode.bit0 == null && newnode.bit1 == null
    requires cidr == Common(down.Prefix(), k) < |k|
    ensures fresh(node) && Holds(m) && m.Keys == memory.Keys + {newnode, node}
    ensures Separate(u) && Linked(m, node, u, bytes) && Nodes(u) == Nodes(c) + {newnode, node}
    ensures TreeOf(u) == Split(TreeOf(c), k, newnode.peer.value)
  {
    hide TrieNode.Prefix;
    hide TrieNode.Pick;
    hide BitAtA;
    hide Linked;
    hide Separate;
    hide Nodes;
    hide TreeOf;
    hide Split;
    hide Common;
    SplitBelow(down, newnode, bytes);
    node := new TrieNode(newnode.bits, cidr, None);
    GluePrefix(node, newnode, bytes);
    PickBit(node, down, bytes);
    PickBit(node, newnode, bytes);
    u, m := HangBoth(node, down, newnode, bytes, memory, c);
    GlueTree(u, node, Bin(newnode, newnode.peer, Empty, Empty), c, k, newnode.peer.value);
  }

  /** Both children of a glue node. */
  method HangBoth(node: TrieNode, down: TrieNode, newnode: TrieNode, bytes: nat, ghost memory: Memory, ghost c: Shape)
    returns (ghost u: Shape, ghost m: Memory)
    requires Holds(memory) && c.Bin? && down == c.node && Separate(c) && Linked(memory, down, c, bytes)
    requires Nodes(c) <= memory.Keys
    requires newnode.Good(bytes) && newnode !in memory && newnode.bit0 == null && newnode.bit1 == null
    requires node.Good(bytes) && node !in memory && node != newnode && node.peer == None && node.bit0 == null
    requires node.bit1 == null
    requires node.bitAtA < |down.bits| && node.bitAtA < |newnode.bits|
    requires node.Pick(down.bits) != node.Pick(newnode.bits)
    modifies node
    ensures Holds(m) && m.Keys == memory.Keys + {newnode, node}
    ensures Separate(u) && Linked(m, node, u, bytes) && Nodes(u) == Nodes(c) + {newnode, node}
    ensures u == WithKid(WithKid(Bin(node, None, Empty, Empty), node.Pick(down.bits), c), node.Pick(newnode.bits),
                         Bin(newnode, newnode.peer, Empty, Empty))
  {
    hide TrieNode.Prefix;
    hide TrieNode.Pick;
    hide TrieNode.Good;
    hide Linked;
    hide Separate;
    hide Nodes;
    m := memory[newnode := Cell(newnode.peer, null, null)][node := Cell(None, null, null)];
    LinkedFrame(memory, m, down, c, bytes);
    LeafShape(m, node, None, bytes);
    ghost var v;
    v, m := Hang(node, node.Pick(down.bits), down, bytes, m, Bin(node, None, Empty, Empty), c);
    LeafShape(m, newnode, newnode.peer, bytes);
    u, m := Hang(node, node.Pick(newnode.bits), newnode, bytes, m, v, Bin(newnode, newnode.peer, Empty, Empty));
  }

  /** Stores a child pointer in a node that is not yet part of the trie. */
  method Hang(n: TrieNode, side: bool, child: TrieNode, bytes: nat, ghost m: Memory, ghost ns: Shape, ghost cs: Shape)
    returns (ghost u: Shape, ghost w: Memory)
    requires Holds(m) && ns.Bin? && ns.node == n && Kid(ns, side).Empty?
    requires Separate(ns) && Linked(m, n, ns, bytes)
    requires Separate(cs) && Linked(m, child, cs, bytes)
    requires Nodes(ns) !! Nodes(cs)
    modifies n
    ensures u == WithKid(ns, side, cs) && Nodes(u) == Nodes(ns) + Nodes(cs)
    ensures Holds(w) && Separate(u) && Linked(w, n, u, bytes)
    ensures w.Keys == m.Keys && forall k | k in m && k != n :: w[k] == m[k]
  {
    hide TrieNode.Prefix;
    hide TrieNode.Good;
    u := WithKid(ns, side, cs);
    ghost var o := Kid(ns, !side);
    n.SetSide(side, child);
    w := m[n := Cell(n.peer, n.bit0, n.bit1)];
    LinkedNodes(m, child, cs, bytes);
    LinkedFrame(m, w, child, cs, bytes);
    LinkedNodes(m, m[n].Side(!side), o, bytes);
    LinkedFrame(m, w, m[n].Side(!side), o, bytes);
  }
}
