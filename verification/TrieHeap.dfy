/** Trie nodes on the heap, and the ghost shape that says which tree they form. */
module TrieHeap {
  import opened Bits
  import opened Options
  import opened PrefixTree
  import opened AddressBits

  ghost function Max(a: nat, b: nat): nat {
    if a >= b then a else b
  }

  lemma {:induction false} MaxIs(a: nat, b: nat)
    ensures Max(a, b) >= a && Max(a, b) >= b && (Max(a, b) == a || Max(a, b) == b)
  {
  }

  /** struct allowedips_node */
  class TrieNode {
    var peer: Option<Peer>
    var bit0: TrieNode?
    var bit1: TrieNode?
    const bits: seq<u8>
    const cidr: nat
    const bitAtA: nat
    const bitAtB: nat

    /** kzalloc, copy_and_assign_cidr and the peer assignment. */
    constructor (key: seq<u8>, cidr: nat, peer: Option<Peer>)
      requires IsAddress(key) && cidr <= 8 * |key|
      ensures this.peer == peer && bit0 == null && bit1 == null
      ensures bits == key && this.cidr == cidr && Good(|key|)
    {
      this.peer := peer;
      bit0 := null;
      bit1 := null;
      bits := key;
      this.cidr := cidr;
      bitAtA := BitAtA(cidr, 8 * |key|);
      bitAtB := BitAtB(cidr);
    }

    predicate Good(bytes: nat) {
      && IsAddress(bits) && |bits| == bytes && cidr <= 8 * bytes
      && bitAtA == BitAtA(cidr, 8 * bytes) && bitAtB == BitAtB(cidr)
    }

    /** The prefix this node stands for. */
    ghost function Prefix(): Key {
      if IsAddress(bits) && cidr <= 8 * |bits| then KeyBits(bits)[..cidr] else []
    }

    function Side(b: bool): TrieNode?
      reads this
    {
      if b then bit1 else bit0
    }

    /** The index choose_node computes. */
    function Pick(key: seq<u8>): bool
      requires bitAtA < |key|
    {
      Choose(key, bitAtA, bitAtB)
    }

    method SetSide(b: bool, n: TrieNode?)
      modifies this
      ensures Side(b) == n && Side(!b) == old(Side(!b)) && peer == old(peer)
    {
      if b { bit1 := n; } else { bit0 := n; }
    }
  }

  lemma {:induction false} PickIs(n: TrieNode, key: seq<u8>)
    requires n.Good(|key|) && n.cidr < 8 * |key|
    ensures n.bitAtA < |key| && n.Pick(key) == KeyBits(key)[n.cidr]
  {
    hide KeyBits;
    ChooseIs(key, n.cidr);
  }

  lemma {:induction false} PrefixIs(n: TrieNode, bytes: nat)
    requires n.Good(bytes)
    ensures |n.Prefix()| == n.cidr && n.Prefix() <= KeyBits(n.bits)
  {
    hide KeyBits;
  }

  /** prefix_matches, in terms of prefixes. */
  lemma {:induction false} MatchesIs(n: TrieNode, key: seq<u8>)
    requires n.Good(|key|)
    ensures CommonBits(n.bits, key) >= n.cidr <==> n.Prefix() <= KeyBits(key)
  {
    hide KeyBits;
    hide CommonBits;
    PrefixMatches(n.bits, n.cidr, key);
  }

  // ---------- shapes

  datatype Shape = Empty | Bin(node: TrieNode, peer: Option<Peer>, left: Shape, right: Shape)

  ghost function Nodes(s: Shape): set<TrieNode> {
    if s.Empty? then {} else {s.node} + Nodes(s.left) + Nodes(s.right)
  }

  /** No node occurs twice. */
  ghost predicate Separate(s: Shape) {
    s.Bin? ==>
      && s.node !in Nodes(s.left) && s.node !in Nodes(s.right) && Nodes(s.left) !! Nodes(s.right)
      && Separate(s.left) && Separate(s.right)
  }

  /** The mutable fields of a node. */
  datatype Cell = Cell(peer: Option<Peer>, bit0: TrieNode?, bit1: TrieNode?) {
    ghost function Side(b: bool): TrieNode? {
      if b then bit1 else bit0
    }
  }

  type Memory = map<TrieNode, Cell>

  /** The heap agrees with a recorded memory. */
  ghost predicate Holds(m: Memory)
    reads m.Keys
  {
    forall n | n in m.Keys :: m[n] == Cell(n.peer, n.bit0, n.bit1)
  }

  /** The memory holds exactly this shape below the pointer. */
  ghost predicate Linked(m: Memory, root: TrieNode?, s: Shape, bytes: nat) {
    match s
    case Empty => root == null
    case Bin(n, p, l, r) =>
      && root == n && n.Good(bytes) && n in m && m[n].peer == p
      && Linked(m, m[n].bit0, l, bytes) && Linked(m, m[n].bit1, r, bytes)
  }

  /** Only the nodes of the shape matter. */
  lemma {:induction false} LinkedFrame(m: Memory, w: Memory, root: TrieNode?, s: Shape, bytes: nat)
    requires Linked(m, root, s, bytes) && forall n | n in Nodes(s) :: n in w && n in m && w[n] == m[n]
    ensures Linked(w, root, s, bytes)
  {
    if s.Bin? {
      LinkedFrame(m, w, m[s.node].bit0, s.left, bytes);
      LinkedFrame(m, w, m[s.node].bit1, s.right, bytes);
    }
  }

  /** The tree of prefixes a shape stands for. */
  ghost function TreeOf(s: Shape): Tree {
    if s.Empty? then Nil else Node(s.node.Prefix(), s.peer, TreeOf(s.left), TreeOf(s.right))
  }

  ghost function Kid(s: Shape, b: bool): Shape
    requires s.Bin?
  {
    if b then s.right else s.left
  }

  ghost function WithKid(s: Shape, b: bool, u: Shape): (r: Shape)
    requires s.Bin?
    ensures r.Bin?
  {
    if b then s.(right := u) else s.(left := u)
  }

  lemma {:induction false} LeafShape(m: Memory, n: TrieNode, peer: Option<Peer>, bytes: nat)
    requires n in m && m[n] == Cell(peer, null, null) && n.Good(bytes)
    ensures var s := Bin(n, peer, Empty, Empty);
            Linked(m, n, s, bytes) && Separate(s) && Nodes(s) == {n} && TreeOf(s) == Leaf(n.Prefix(), peer)
  {
  }

  // ---------- positions

  type Path = seq<bool>

  ghost function At(s: Shape, path: Path): Shape {
    if path == [] || s.Empty? then s else At(Kid(s, path[0]), path[1..])
  }

  ghost function Put(s: Shape, path: Path, u: Shape): Shape {
    if path == [] then u
    else if s.Empty? then s
    else WithKid(s, path[0], Put(Kid(s, path[0]), path[1..], u))
  }

  lemma {:induction false} PutHere(s: Shape, u: Shape)
    ensures Put(s, [], u) == u && At(s, []) == s
  {
  }

  /** The path runs through nodes only, up to its end. */
  ghost predicate Inside(s: Shape, path: Path) {
    path != [] ==> s.Bin? && Inside(Kid(s, path[0]), path[1..])
  }

  /** The node whose child pointer lies at the end of the path. */
  ghost function Above(s: Shape, path: Path): TrieNode
    requires Inside(s, path) && path != []
  {
    if |path| == 1 then s.node else Above(Kid(s, path[0]), path[1..])
  }

  lemma {:induction false} AtNodes(s: Shape, path: Path)
    requires Inside(s, path)
    ensures Nodes(At(s, path)) <= Nodes(s)
    ensures path != [] ==> Above(s, path) in Nodes(s)
  {
    if path != [] { AtNodes(Kid(s, path[0]), path[1..]); }
  }

  lemma {:induction false} AtSeparate(s: Shape, path: Path)
    requires Inside(s, path) && Separate(s)
    ensures Separate(At(s, path))
    ensures path != [] ==> Above(s, path) !in Nodes(At(s, path))
  {
    if path != [] {
      AtSeparate(Kid(s, path[0]), path[1..]);
      AtNodes(Kid(s, path[0]), path[1..]);
    }
  }

  /** Replacing what lies at a path. */
  lemma {:induction false} PutNodes(s: Shape, path: Path, u: Shape)
    requires Inside(s, path) && Separate(s) && Separate(u)
    requires Nodes(u) !! (Nodes(s) - Nodes(At(s, path)))
    ensures Separate(Put(s, path, u))
    ensures Nodes(Put(s, path, u)) == Nodes(s) - Nodes(At(s, path)) + Nodes(u)
  {
    if path != [] {
      var k := Kid(s, path[0]);
      AtNodes(k, path[1..]);
      assert Nodes(u) !! (Nodes(k) - Nodes(At(k, path[1..])));
      PutNodes(k, path[1..], u);
      hide At;
      hide Put;
      var w := Put(k, path[1..], u);
      assert Put(s, path, u) == WithKid(s, path[0], w) && At(s, path)
        == At(k, path[1..]) by { PathUnfolds(s, path, u); }
    }
  }

  lemma {:induction false} PathUnfolds(s: Shape, path: Path, u: Shape)
    requires s.Bin? && path != []
    ensures Put(s, path, u) == WithKid(s, path[0], Put(Kid(s, path[0]), path[1..], u))
    ensures At(s, path) == At(Kid(s, path[0]), path[1..])
  {
  }

  /** The pointer stored at the end of the path. */
  lemma {:induction false} SlotLinked(m: Memory, root: TrieNode?, s: Shape, path: Path, bytes: nat)
    requires Linked(m, root, s, bytes) && Inside(s, path) && path != []
    ensures var a := Above(s, path);
            a in m && a.Good(bytes) && Linked(m, m[a].Side(path[|path| - 1]), At(s, path), bytes)
  {
    var k := Kid(s, path[0]);
    if |path| > 1 {
      SlotLinked(m, m[s.node].Side(path[0]), k, path[1..], bytes);
    } else {
      assert At(k, path[1..]) == k;
    }
  }

  /** Changing the pointer at a path, and anything below it, replaces the shape there. */
  lemma {:induction false} Graft(m: Memory, w: Memory, root: TrieNode?, s: Shape, path: Path, u: Shape, bytes: nat)
    requires Linked(m, root, s, bytes) && Inside(s, path) && Separate(s) && path != []
    requires var a, b := Above(s, path), path[|path| - 1];
      && a in m && a in w && w[a].peer == m[a].peer && w[a].Side(!b) == m[a].Side(!b)
      && Linked(w, w[a].Side(b), u, bytes)
    requires forall n | n in Nodes(s) && n !in Nodes(At(s, path)) && n != Above(s, path) ::
      n in m && n in w && w[n] == m[n]
    ensures Linked(w, root, Put(s, path, u), bytes)
  {
    var b, n := path[0], s.node;
    var k, o := Kid(s, b), Kid(s, !b);
    AtNodes(k, path[1..]);
    PathUnfolds(s, path, u);
    LinkedNodes(m, m[n].Side(!b), o, bytes);
    LinkedFrame(m, w, m[n].Side(!b), o, bytes);
    if |path| > 1 {
      Graft(m, w, m[n].Side(b), k, path[1..], u, bytes);
    } else {
      assert Put(k, path[1..], u) == u;
    }
  }

  /** Pointing the end of a path at another subtree. */
  lemma {:induction false} Publish(m: Memory, w: Memory, root: TrieNode?, s: Shape, path: Path, n: TrieNode?, u: Shape,
                                   bytes: nat)
    requires Linked(m, root, s, bytes) && Inside(s, path) && Separate(s) && path != []
    requires Linked(m, n, u, bytes) && Separate(u) && Nodes(u) !! (Nodes(s) - Nodes(At(s, path)))
    requires var a, b := Above(s, path), path[|path| - 1];
      a in m && w == m[a := if b then m[a].(bit1 := n) else m[a].(bit0 := n)]
    ensures Linked(w, root, Put(s, path, u), bytes)
  {
    hide Linked;
    hide Separate;
    hide Put;
    AtNodes(s, path);
    AtSeparate(s, path);
    LinkedNodes(m, root, s, bytes);
    LinkedNodes(m, n, u, bytes);
    hide Nodes;
    LinkedFrame(m, w, n, u, bytes);
    Graft(m, w, root, s, path, u, bytes);
  }

  /** Changing the peer of one node in place. */
  lemma {:induction false} Repeer(m: Memory, w: Memory, root: TrieNode?, s: Shape, path: Path, peer: Option<Peer>,
                                  bytes: nat)
    requires Linked(m, root, s, bytes) && Inside(s, path) && Separate(s) && At(s, path).Bin? && At(s, path).node in m
    requires w == m[At(s, path).node := m[At(s, path).node].(peer := peer)]
    ensures Linked(w, root, Put(s, path, At(s, path).(peer := peer)), bytes)
  {
    if path == [] {
      LinkedFrame(m, w, m[s.node].bit0, s.left, bytes) by { LinkedNodes(m, m[s.node].bit0, s.left, bytes); }
      LinkedFrame(m, w, m[s.node].bit1, s.right, bytes) by { LinkedNodes(m, m[s.node].bit1, s.right, bytes); }
    } else {
      var b := path[0];
      var k, o := Kid(s, b), Kid(s, !b);
      AtNodes(k, path[1..]);
      PathUnfolds(s, path, At(s, path).(peer := peer));
      LinkedNodes(m, m[s.node].Side(!b), o, bytes);
      LinkedFrame(m, w, m[s.node].Side(!b), o, bytes);
      Repeer(m, w, m[s.node].Side(b), k, path[1..], peer, bytes);
    }
  }

  lemma {:induction false} LinkedNodes(m: Memory, root: TrieNode?, s: Shape, bytes: nat)
    requires Linked(m, root, s, bytes)
    ensures Nodes(s) <= m.Keys
  {
    if s.Bin? {
      LinkedNodes(m, m[s.node].bit0, s.left, bytes);
      LinkedNodes(m, m[s.node].bit1, s.right, bytes);
    }
  }

  // ---------- the way to a prefix

  /** The path that insertion of k takes: every node passed is a proper prefix of k. */
  ghost predicate Leads(s: Shape, path: Path, k: Key) {
    path != [] ==>
      && s.Bin? && s.node.Prefix() < k && path[0] == k[|s.node.Prefix()|]
      && Leads(Kid(s, path[0]), path[1..], k)
  }

  /** One more step down. */
  lemma {:induction false} LeadsOn(s: Shape, path: Path, k: Key)
    requires Leads(s, path, k) && At(s, path).Bin? && At(s, path).node.Prefix() < k
    ensures var b := k[|At(s, path).node.Prefix()|];
            && Leads(s, path + [b], k) && Inside(s, path + [b])
            && At(s, path + [b]) == Kid(At(s, path), b) && Above(s, path + [b]) == At(s, path).node
  {
    hide TrieNode.Prefix;
    var b := k[|At(s, path).node.Prefix()|];
    if path == [] {
      assert [b][1..] == [];
    } else {
      assert (path + [b])[1..] == path[1..] + [b];
      LeadsOn(Kid(s, path[0]), path[1..], k);
    }
  }

  /** Inserting at the end of that path is inserting into the whole tree. */
  lemma {:induction false} LeadsInsert(s: Shape, path: Path, k: Key, p: Peer, u: Shape)
    requires Leads(s, path, k) && TreeOf(u) == Insert(TreeOf(At(s, path)), k, p)
    ensures TreeOf(Put(s, path, u)) == Insert(TreeOf(s), k, p)
  {
    hide TrieNode.Prefix;
    if path != [] {
      LeadsInsert(Kid(s, path[0]), path[1..], k, p, u);
    }
  }
}
