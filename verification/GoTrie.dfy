/** The daemon's allowed-IPs trie, wireguard-go/allowedips.go: insertion recurses and
    overwrites child pointers on the way back; addresses stay in network order. */
module GoTrie {
  import opened Bits
  import opened Options
  import opened PrefixTree
  import opened AddressBits

  /** type trieEntry */
  class Entry {
    var peer: Option<Peer>
    var child0: Entry?
    var child1: Entry?
    const bits: seq<u8>
    const cidr: nat
    const bitAtByte: nat
    const bitAtShift: nat

    constructor (ip: seq<u8>, cidr: nat, peer: Option<Peer>)
      requires IsAddress(ip) && cidr <= 8 * |ip|
      ensures this.peer == peer && child0 == null && child1 == null
      ensures bits == ip && this.cidr == cidr && Good(|ip|)
    {
      this.peer := peer;
      child0 := null;
      child1 := null;
      bits := ip;
      this.cidr := cidr;
      bitAtByte := cidr / 8;
      bitAtShift := 7 - cidr % 8;
    }

    predicate Good(bytes: nat) {
      && IsAddress(bits) && |bits| == bytes && cidr <= 8 * bytes
      && bitAtByte == cidr / 8 && bitAtShift == 7 - cidr % 8
    }

    ghost function Prefix(): Key {
      if cidr <= 8 * |bits| then ToBits(bits)[..cidr] else []
    }

    function Side(b: bool): Entry?
      reads this
    {
      if b then child1 else child0
    }

    /** choose */
    function Pick(ip: seq<u8>): bool
      requires bitAtByte < |ip|
    {
      Choose(ip, bitAtByte, bitAtShift)
    }

    method SetSide(b: bool, n: Entry?)
      modifies this
      ensures Side(b) == n && Side(!b) == old(Side(!b)) && peer == old(peer)
    {
      if b { child1 := n; } else { child0 := n; }
    }
  }

  datatype Cell = Cell(peer: Option<Peer>, child0: Entry?, child1: Entry?) {
    ghost function Side(b: bool): Entry? {
      if b then child1 else child0
    }
  }

  type Memory = map<Entry, Cell>

  ghost predicate Holds(m: Memory)
    reads m.Keys
  {
    forall n | n in m.Keys :: m[n] == Cell(n.peer, n.child0, n.child1)
  }

  datatype Shape = Empty | Bin(node: Entry, peer: Option<Peer>, left: Shape, right: Shape)

  ghost function Kid(s: Shape, b: bool): Shape
    requires s.Bin?
  {
    if b then s.right else s.left
  }

  ghost function WithKid(s: Shape, b: bool, u: Shape): Shape
    requires s.Bin?
  {
    if b then s.(right := u) else s.(left := u)
  }

  ghost function Nodes(s: Shape): set<Entry> {
    if s.Empty? then {} else {s.node} + Nodes(s.left) + Nodes(s.right)
  }

  ghost predicate Separate(s: Shape) {
    s.Bin? ==>
      && s.node !in Nodes(s.left) && s.node !in Nodes(s.right) && Nodes(s.left) !! Nodes(s.right)
      && Separate(s.left) && Separate(s.right)
  }

  ghost predicate Linked(m: Memory, root: Entry?, s: Shape, bytes: nat) {
    match s
    case Empty => root == null
    case Bin(n, p, l, r) =>
      && root == n && n.Good(bytes) && n in m && m[n].peer == p
      && Linked(m, m[n].child0, l, bytes) && Linked(m, m[n].child1, r, bytes)
  }

  ghost function TreeOf(s: Shape): Tree {
    if s.Empty? then Nil else Node(s.node.Prefix(), s.peer, TreeOf(s.left), TreeOf(s.right))
  }

  lemma {:induction false} LinkedFrame(m: Memory, w: Memory, root: Entry?, s: Shape, bytes: nat)
    requires Linked(m, root, s, bytes) && forall n | n in Nodes(s) :: n in w && n in m && w[n] == m[n]
    ensures Linked(w, root, s, bytes)
  {
    if s.Bin? {
      LinkedFrame(m, w, m[s.node].child0, s.left, bytes);
      LinkedFrame(m, w, m[s.node].child1, s.right, bytes);
    }
  }

  lemma {:induction false} LinkedNodes(m: Memory, root: Entry?, s: Shape, bytes: nat)
    requires Linked(m, root, s, bytes)
    ensures Nodes(s) <= m.Keys
  {
    if s.Bin? {
      LinkedNodes(m, m[s.node].child0, s.left, bytes);
      LinkedNodes(m, m[s.node].child1, s.right, bytes);
    }
  }

  // ---------- prefixes

  lemma {:induction false} PrefixIs(n: Entry, bytes: nat)
    requires n.Good(bytes)
    ensures |n.Prefix()| == n.cidr && n.Prefix() <= ToBits(n.bits) && n.Prefix() == ToBits(n.bits)[..n.cidr]
  {
    hide ToBits;
  }

  lemma {:induction false} PickIs(n: Entry, ip: seq<u8>)
    requires n.Good(|ip|) && n.cidr < 8 * |ip|
    ensures n.bitAtByte < |ip| && n.Pick(ip) == ToBits(ip)[n.cidr]
  {
    hide ToBits;
    GoChooseIs(ip, n.cidr);
  }

  lemma {:induction false} MatchesIs(n: Entry, ip: seq<u8>)
    requires n.Good(|ip|)
    ensures GoCommonBits(n.bits, ip) >= n.cidr <==> n.Prefix() <= ToBits(ip)
  {
    hide ToBits;
    hide GoCommonBits;
    GoCommonBitsIs(n.bits, ip);
    PrefixOfCommon(ToBits(n.bits), n.cidr, ToBits(ip));
  }

  lemma {:induction false} CutPrefix(a: Key, x: Key, cidr: nat)
    requires cidr <= |x|
    ensures a <= x[..cidr] <==> |a| <= cidr && a <= x
  {
  }

  /** min(cidr, common) is where the two prefixes part. */
  lemma {:induction false} SplitPoint(n: Entry, ip: seq<u8>, cidr: nat)
    requires n.Good(|ip|) && cidr <= 8 * |ip| && !(n.Prefix() <= ToBits(ip)[..cidr])
    ensures var c, k := GoCommonBits(n.bits, ip), ToBits(ip)[..cidr];
      && (if cidr <= c then cidr else c) == Common(n.Prefix(), k) < n.cidr
      && |n.Prefix()| == n.cidr
      && (Common(n.Prefix(), k) < cidr ==> n.Prefix()[Common(n.Prefix(), k)] != k[Common(n.Prefix(), k)])
  {
    hide ToBits;
    hide GoCommonBits;
    GoCommonBitsIs(n.bits, ip);
    CommonPrefixes(ToBits(n.bits), n.cidr, ToBits(ip), cidr);
    CommonIs(n.Prefix(), ToBits(ip)[..cidr]);
  }

  // ---------- lookup

  /** lookup */
  method Lookup(root: Entry?, ip: seq<u8>, ghost s: Shape, ghost m: Memory) returns (found: Option<Peer>)
    requires IsAddress(ip) && Holds(m) && Linked(m, root, s, |ip|)
    ensures found == PrefixTree.Lookup(TreeOf(s), ToBits(ip))
  {
    hide ToBits;
    hide GoCommonBits;
    hide Entry.Prefix;
    hide Entry.Pick;
    ghost var x, cur := ToBits(ip), s;
    var node := root;
    found := None;
    while node != null && GoCommonBits(node.bits, ip) >= node.cidr
      invariant Linked(m, node, cur, |ip|)
      invariant PrefixTree.Lookup(TreeOf(s), x) ==
        var d := PrefixTree.Lookup(TreeOf(cur), x);
        if d.Some? then d else found
      decreases cur
    {
      MatchesIs(node, ip);
      PrefixIs(node, |ip|);
      if node.peer.Some? {
        found := node.peer;
      }
      if node.bitAtByte == |ip| {
        return;
      }
      PickIs(node, ip);
      cur := Kid(cur, x[node.cidr]);
      node := node.Side(node.Pick(ip));
    }
    if node != null {
      MatchesIs(node, ip);
    }
  }

  // ---------- insertion

  lemma {:induction false} LeafShape(m: Memory, n: Entry, peer: Option<Peer>, bytes: nat)
    requires n in m && m[n] == Cell(peer, null, null) && n.Good(bytes)
    ensures var s := Bin(n, peer, Empty, Empty);
            Linked(m, n, s, bytes) && Separate(s) && Nodes(s) == {n} && TreeOf(s) == Leaf(n.Prefix(), peer)
  {
  }

  /** node.peer = peer */
  method SetPeer(node: Entry, peer: Peer, bytes: nat, ghost s: Shape, ghost m: Memory)
    returns (ghost u: Shape, ghost w: Memory)
    requires Holds(m) && Linked(m, node, s, bytes) && Separate(s) && s.Bin?
    modifies node
    ensures u == s.(peer := Some(peer)) && w.Keys == m.Keys && Holds(w) && Linked(w, node, u, bytes) && Separate(u)
    ensures forall n | n in m && n != node :: w[n] == m[n]
  {
    hide Entry.Prefix;
    node.peer := Some(peer);
    u := s.(peer := Some(peer));
    w := m[node := m[node].(peer := Some(peer))];
    LinkedNodes(m, m[node].child0, s.left, bytes);
    LinkedNodes(m, m[node].child1, s.right, bytes);
    LinkedFrame(m, w, m[node].child0, s.left, bytes);
    LinkedFrame(m, w, m[node].child1, s.right, bytes);
  }

  /** node.child[bit] = child, where child is what the recursive call made of that side. */
  method Hook(node: Entry, bit: bool, child: Entry?, bytes: nat, ghost s: Shape, ghost m: Memory, ghost cu: Shape,
              ghost v: Memory)
    returns (ghost u: Shape, ghost w: Memory)
    requires s.Bin? && Linked(m, node, s, bytes) && Separate(s)
    requires Holds(v) && Linked(v, child, cu, bytes) && Separate(cu) && m.Keys <= v.Keys
    requires forall n | n in m && n !in Nodes(Kid(s, bit)) :: v[n] == m[n]
    requires Nodes(cu) <= Nodes(Kid(s, bit)) + (v.Keys - m.Keys)
    modifies node
    ensures u == WithKid(s, bit, cu) && w.Keys == v.Keys && Holds(w) && Linked(w, node, u, bytes) && Separate(u)
    ensures Nodes(u) <= Nodes(s) + (v.Keys - m.Keys)
    ensures forall n | n in m && n !in Nodes(s) :: w[n] == m[n]
  {
    hide Entry.Prefix;
    hide Entry.Good;
    ghost var o := Kid(s, !bit);
    node.SetSide(bit, child);
    u := WithKid(s, bit, cu);
    w := v[node := Cell(node.peer, node.child0, node.child1)];
    LinkedNodes(m, m[node].Side(!bit), o, bytes);
    LinkedFrame(m, w, m[node].Side(!bit), o, bytes);
    LinkedNodes(v, child, cu, bytes);
    LinkedFrame(v, w, child, cu, bytes);
  }

  /** A shorter prefix takes the place of the node, which becomes its child. */
  method PutAbove(node: Entry, newNode: Entry, ip: seq<u8>, cidr: nat, peer: Peer, ghost s: Shape, ghost m: Memory)
    returns (ghost u: Shape, ghost w: Memory)
    requires IsAddress(ip) && cidr <= 8 * |ip| && s.Bin?
    requires Holds(m) && Linked(m, node, s, |ip|) && Separate(s) && !(node.Prefix() <= ToBits(ip)[..cidr])
    requires newNode !in m && newNode.Good(|ip|) && newNode.bits == ip && newNode.cidr == cidr
    requires newNode.peer == Some(peer) && newNode.child0 == null && newNode.child1 == null
    requires Common(node.Prefix(), ToBits(ip)[..cidr]) == cidr < node.cidr && node.Good(|ip|) && node == s.node
    requires Nodes(s) <= m.Keys
    modifies newNode
    ensures Holds(w) && Linked(w, newNode, u, |ip|) && Separate(u)
    ensures w.Keys == m.Keys + {newNode} && Nodes(u) == Nodes(s) + {newNode}
    ensures forall n | n in m :: w[n] == m[n]
    ensures TreeOf(u) == PrefixTree.Split(TreeOf(s), ToBits(ip)[..cidr], peer)
  {
    hide ToBits;
    hide GoCommonBits;
    hide Entry.Prefix;
    hide Entry.Pick;
    hide Linked;
    hide Separate;
    hide Common;
    hide Nodes;
    hide TreeOf;
    hide PrefixTree.Split;
    PrefixIs(newNode, |ip|);
    PrefixPick(newNode, node, |ip|);
    var bit := newNode.Pick(node.bits);
    newNode.SetSide(bit, node);
    NoShape(m, |ip|);
    u, w := Joined(m, newNode, Some(peer), bit, node, s, null, Empty, |ip|);
    SplitTree(u, s, ToBits(ip)[..cidr], peer, newNode);
  }

  lemma {:induction false} NoShape(m: Memory, bytes: nat)
    ensures Linked(m, null, Empty, bytes) && Separate(Empty) && Nodes(Empty) == {}
  {
  }

  /** A new parent for the node and the new prefix. */
  method PutParent(node: Entry, newNode: Entry, split: nat, ip: seq<u8>, cidr: nat, peer: Peer, ghost s: Shape,
                   ghost m: Memory)
    returns (parent: Entry, ghost u: Shape, ghost w: Memory)
    requires IsAddress(ip) && cidr <= 8 * |ip| && s.Bin?
    requires Holds(m) && Linked(m, node, s, |ip|) && Separate(s) && !(node.Prefix() <= ToBits(ip)[..cidr])
    requires newNode !in m && newNode.Good(|ip|) && newNode.bits == ip && newNode.cidr == cidr
    requires newNode.peer == Some(peer) && newNode.child0 == null && newNode.child1 == null
    requires var k := ToBits(ip)[..cidr];
      && Common(node.Prefix(), k) == split < cidr && node.Good(|ip|) && node == s.node && Nodes(s) <= m.Keys
      && split < |node.Prefix()| && node.Prefix()[split] != k[split]
    ensures Holds(w) && Linked(w, parent, u, |ip|) && Separate(u)
    ensures fresh(parent) && w.Keys == m.Keys + {newNode, parent} && Nodes(u) == Nodes(s) + {newNode, parent}
    ensures forall n | n in m :: w[n] == m[n]
    ensures TreeOf(u) == PrefixTree.Split(TreeOf(s), ToBits(ip)[..cidr], peer)
  {
    hide ToBits;
    hide GoCommonBits;
    hide Entry.Prefix;
    hide Entry.Pick;
    hide Linked;
    hide Separate;
    hide Common;
    hide Nodes;
    hide TreeOf;
    hide PrefixTree.Split;
    ghost var k := ToBits(ip)[..cidr];
    PrefixIs(newNode, |ip|);
    parent := new Entry(ip, split, None);
    PrefixIs(parent, |ip|);
    assert parent.Prefix() == k[..split];
    PickIs(parent, ip);
    var bit := parent.Pick(ip);
    parent.SetSide(bit, newNode);
    parent.SetSide(!bit, node);
    ghost var v := m[newNode := Cell(Some(peer), null, null)];
    LeafShape(v, newNode, Some(peer), |ip|);
    LinkedKeep(m, v, node, s, |ip|);
    u, w := Joined(v, parent, None, !bit, node, s, newNode, Bin(newNode, Some(peer), Empty, Empty), |ip|);
    GlueTree(u, s, k, peer, parent, newNode);
  }

  /** The last part of insert: a new node above this one, or a parent for both. */
  method Split(node: Entry, ip: seq<u8>, cidr: nat, peer: Peer, ghost s: Shape, ghost m: Memory)
    returns (r: Entry, ghost u: Shape, ghost w: Memory)
    requires IsAddress(ip) && cidr <= 8 * |ip| && s.Bin?
    requires Holds(m) && Linked(m, node, s, |ip|) && Separate(s) && !(node.Prefix() <= ToBits(ip)[..cidr])
    ensures Holds(w) && Linked(w, r, u, |ip|) && Separate(u)
    ensures m.Keys <= w.Keys && fresh(w.Keys - m.Keys) && Nodes(u) <= Nodes(s) + (w.Keys - m.Keys)
    ensures forall n | n in m :: w[n] == m[n]
    ensures TreeOf(u) == PrefixTree.Split(TreeOf(s), ToBits(ip)[..cidr], peer)
  {
    hide ToBits;
    hide GoCommonBits;
    hide Entry.Prefix;
    hide Entry.Pick;
    hide Linked;
    hide Separate;
    hide Common;
    hide Nodes;
    hide TreeOf;
    hide PrefixTree.Split;
    TopIs(m, node, s, |ip|);
    SplitPoint(node, ip, cidr);
    var newNode := new Entry(ip, cidr, Some(peer));
    var common := GoCommonBits(node.bits, ip);
    var split := if cidr <= common then cidr else common;
    if newNode.cidr == split {
      r := newNode;
      u, w := PutAbove(node, newNode, ip, cidr, peer, s, m);
    } else {
      r, u, w := PutParent(node, newNode, split, ip, cidr, peer, s, m);
    }
  }

  lemma {:induction false} TopIs(m: Memory, node: Entry, s: Shape, bytes: nat)
    requires Linked(m, node, s, bytes) && s.Bin?
    ensures s.node == node && node.Good(bytes) && Nodes(s) <= m.Keys
  {
    LinkedNodes(m, node, s, bytes);
  }

  lemma {:induction false} LinkedKeep(m: Memory, v: Memory, root: Entry?, s: Shape, bytes: nat)
    requires Linked(m, root, s, bytes) && Nodes(s) <= m.Keys && forall n | n in m :: n in v && v[n] == m[n]
    ensures Linked(v, root, s, bytes)
  {
    LinkedFrame(m, v, root, s, bytes);
  }

  /** choose on the bits of a deeper node reads that node's prefix. */
  lemma {:induction false} PrefixPick(n: Entry, d: Entry, bytes: nat)
    requires n.Good(bytes) && d.Good(bytes) && n.cidr < d.cidr
    ensures n.bitAtByte < |d.bits| && |d.Prefix()| == d.cidr && n.Pick(d.bits) == d.Prefix()[n.cidr]
  {
    hide ToBits;
    PickIs(n, d.bits);
  }

  /** A fresh node with one or two subtrees. */
  ghost method Joined(m: Memory, n: Entry, peer: Option<Peer>, b: bool, x: Entry?, xs: Shape, y: Entry?, ys: Shape,
                      bytes: nat)
    returns (u: Shape, w: Memory)
    requires Holds(m) && n !in m && n.Good(bytes) && n.peer == peer && n.Side(b) == x && n.Side(!b) == y
    requires Linked(m, x, xs, bytes) && Linked(m, y, ys, bytes)
    requires Separate(xs) && Separate(ys) && Nodes(xs) !! Nodes(ys)
    ensures u == WithKid(WithKid(Bin(n, peer, Empty, Empty), b, xs), !b, ys)
    ensures w == m[n := Cell(n.peer, n.child0, n.child1)] && Holds(w) && Linked(w, n, u, bytes) && Separate(u)
    ensures Nodes(u) == {n} + Nodes(xs) + Nodes(ys)
  {
    hide Entry.Prefix;
    hide Entry.Good;
    u := WithKid(WithKid(Bin(n, peer, Empty, Empty), b, xs), !b, ys);
    w := m[n := Cell(n.peer, n.child0, n.child1)];
    LinkedNodes(m, x, xs, bytes);
    LinkedNodes(m, y, ys, bytes);
    LinkedFrame(m, w, x, xs, bytes);
    LinkedFrame(m, w, y, ys, bytes);
  }

  lemma {:induction false} SplitTree(u: Shape, c: Shape, k: Key, p: Peer, n: Entry)
    requires c.Bin? && n.Prefix() == k && !(c.node.Prefix() <= k)
    requires Common(c.node.Prefix(), k) == |k| < |c.node.Prefix()|
    requires u == WithKid(WithKid(Bin(n, Some(p), Empty, Empty), c.node.Prefix()[|k|], c), !c.node.Prefix()[|k|], Empty)
    ensures TreeOf(u) == PrefixTree.Split(TreeOf(c), k, p)
  {
    hide Entry.Prefix;
    hide Common;
  }

  lemma {:induction false} GlueTree(u: Shape, c: Shape, k: Key, p: Peer, g: Entry, n: Entry)
    requires c.Bin? && n.Prefix() == k && !(c.node.Prefix() <= k)
    requires var i := Common(c.node.Prefix(), k);
      && i < |k| && i < |c.node.Prefix()| && c.node.Prefix()[i] != k[i] && g.Prefix() == k[..i]
      && u == WithKid(WithKid(Bin(g, None, Empty, Empty), !k[i], c), k[i], Bin(n, Some(p), Empty, Empty))
    ensures TreeOf(u) == PrefixTree.Split(TreeOf(c), k, p)
  {
    hide Entry.Prefix;
    hide Common;
    assert TreeOf(Bin(n, Some(p), Empty, Empty)) == Leaf(k, Some(p));
    assert TreeOf(Bin(g, None, Empty, Empty)) == Leaf(g.Prefix(), None);
  }

  /** insert: the same tree as the kernel's loop builds. */
  method Insert(node: Entry?, ip: seq<u8>, cidr: nat, peer: Peer, ghost s: Shape, ghost m: Memory)
    returns (r: Entry, ghost u: Shape, ghost w: Memory)
    requires IsAddress(ip) && cidr <= 8 * |ip|
    requires Holds(m) && Linked(m, node, s, |ip|) && Separate(s)
    modifies m.Keys
    ensures Holds(w) && Linked(w, r, u, |ip|) && Separate(u)
    ensures m.Keys <= w.Keys && fresh(w.Keys - m.Keys) && Nodes(u) <= Nodes(s) + (w.Keys - m.Keys)
    ensures forall n | n in m && n !in Nodes(s) :: w[n] == m[n]
    ensures TreeOf(u) == PrefixTree.Insert(TreeOf(s), ToBits(ip)[..cidr], peer)
    decreases s
  {
    hide ToBits;
    hide GoCommonBits;
    hide Entry.Prefix;
    hide Entry.Pick;
    ghost var k := ToBits(ip)[..cidr];
    if node == null {
      r := new Entry(ip, cidr, Some(peer));
      PrefixIs(r, |ip|);
      u := Bin(r, Some(peer), Empty, Empty);
      w := m[r := Cell(Some(peer), null, null)];
      return;
    }
    var common := GoCommonBits(node.bits, ip);
    MatchesIs(node, ip);
    PrefixIs(node, |ip|);
    CutPrefix(node.Prefix(), ToBits(ip), cidr);
    if node.cidr <= cidr && common >= node.cidr {
      if node.cidr == cidr {
        r := node;
        u, w := SetPeer(node, peer, |ip|, s, m);
        return;
      }
      PickIs(node, ip);
      var bit := node.Pick(ip);
      var child;
      ghost var cu, v;
      child, cu, v := Insert(node.Side(bit), ip, cidr, peer, Kid(s, bit), m);
      r := node;
      u, w := Hook(node, bit, child, |ip|, s, m, cu, v);
      return;
    }
    r, u, w := Split(node, ip, cidr, peer, s, m);
  }
}
