/** walk_remove_by_peer: removal by an explicit stack of slots and the previously
    visited node, without parent pointers. After a leaf is freed the walk starts
    over at the parent and goes down again. */
module TrieRemoval {
  import opened Options
  import opened PrefixTree
  import opened TrieHeap
  import opened AllowedIps

  /** Where a pointer is stored: the root pointer or a child of a node. */
  datatype Slot = Top | Of(node: TrieNode, side: bool)

  /** What the walk does next at the node on top of the stack. */
  datatype Phase = Down | FromLeft | Up

  /** The slots on the way along a path. */
  ghost function Slots(s: Shape, path: Path): seq<Slot>
    requires Inside(s, path)
    decreases path
  {
    if path == [] then []
    else [Of(s.node, path[0])] + Slots(Kid(s, path[0]), path[1..])
  }

  lemma {:induction false} SlotsPush(s: Shape, path: Path, b: bool)
    requires Inside(s, path) && At(s, path).Bin?
    ensures Inside(s, path + [b]) && Slots(s, path + [b]) == Slots(s, path) + [Of(At(s, path).node, b)]
    ensures At(s, path + [b]) == Kid(At(s, path), b) && Above(s, path + [b]) == At(s, path).node
    decreases path
  {
    if path == [] {
      assert [b][1..] == [];
      assert Slots(Kid(s, b), [b][1..]) == [];
    } else {
      assert (path + [b])[1..] == path[1..] + [b];
      SlotsPush(Kid(s, path[0]), path[1..], b);
    }
  }

  /** Going back one step. */
  lemma {:induction false} SlotsPop(s: Shape, path: Path)
    requires Inside(s, path) && path != []
    ensures var q, b := path[..|path| - 1], path[|path| - 1];
            && Inside(s, q) && At(s, q).Bin? && At(s, path) == Kid(At(s, q), b) && Above(s, path) == At(s, q).node
            && Slots(s, path) == Slots(s, q) + [Of(Above(s, path), b)]
    decreases path
  {
    var q, b := path[..|path| - 1], path[|path| - 1];
    if |path| > 1 {
      assert path[1..][..|path| - 2] == q[1..];
      SlotsPop(Kid(s, path[0]), path[1..]);
      assert q[0] == path[0];
    } else {
      assert q == [] && path == [b];
      SlotsPush(s, [], b);
    }
  }

  /** Replacing the subtree at the end does not move the slots on the way. */
  lemma {:induction false} SlotsPut(s: Shape, path: Path, u: Shape)
    requires Inside(s, path)
    ensures Inside(Put(s, path, u), path) && Slots(Put(s, path, u), path) == Slots(s, path)
    ensures At(Put(s, path, u), path) == u
    ensures path != [] ==> Above(Put(s, path, u), path) == Above(s, path)
    decreases path
  {
    if path != [] { SlotsPut(Kid(s, path[0]), path[1..], u); }
  }

  /** Where the path turned right, the left side is finished. */
  ghost predicate LeftDone(s: Shape, path: Path, p: Peer)
    requires Inside(s, path)
    decreases path
  {
    path != [] ==>
      && (path[0] ==> Clean(TreeOf(s.left), p))
      && LeftDone(Kid(s, path[0]), path[1..], p)
  }

  lemma {:induction false} LeftDonePush(s: Shape, path: Path, b: bool, p: Peer)
    requires Inside(s, path) && At(s, path).Bin? && LeftDone(s, path, p)
    requires b ==> Clean(TreeOf(At(s, path).left), p)
    ensures Inside(s, path + [b]) && LeftDone(s, path + [b], p)
    decreases path
  {
    SlotsPush(s, path, b);
    if path == [] {
      assert [b][1..] == [];
    } else {
      assert (path + [b])[1..] == path[1..] + [b];
      LeftDonePush(Kid(s, path[0]), path[1..], b, p);
    }
  }

  lemma {:induction false} LeftDonePop(s: Shape, path: Path, p: Peer)
    requires Inside(s, path) && path != [] && LeftDone(s, path, p)
    ensures var q := path[..|path| - 1];
            && Inside(s, q) && At(s, q).Bin? && LeftDone(s, q, p)
            && (path[|path| - 1] ==> Clean(TreeOf(At(s, q).left), p))
    decreases path
  {
    SlotsPop(s, path);
    var q := path[..|path| - 1];
    if |path| > 1 {
      assert path[1..][..|path| - 2] == q[1..] && q[0] == path[0];
      LeftDonePop(Kid(s, path[0]), path[1..], p);
    }
  }

  lemma {:induction false} LeftDonePut(s: Shape, path: Path, u: Shape, p: Peer)
    requires Inside(s, path) && LeftDone(s, path, p)
    ensures Inside(Put(s, path, u), path) && LeftDone(Put(s, path, u), path, p)
    decreases path
  {
    SlotsPut(s, path, u);
    if path != [] { LeftDonePut(Kid(s, path[0]), path[1..], u, p); }
  }

  // ---------- measures

  ghost function Size(s: Shape): nat {
    if s.Empty? then 0 else 1 + Size(s.left) + Size(s.right)
  }

  /** Visits a full walk of the subtree takes: three for every node. */
  ghost function Work(s: Shape): nat {
    if s.Empty? then 0 else 3 + Work(s.left) + Work(s.right)
  }

  ghost function WorkHere(c: Shape, phase: Phase): nat
    requires c.Bin?
  {
    match phase
    case Down => 3 + Work(c.left) + Work(c.right)
    case FromLeft => 2 + Work(c.right)
    case Up => 1
  }

  /** What is left to do at the nodes above the end of the path. */
  ghost function WorkAbove(s: Shape, path: Path): nat
    requires Inside(s, path)
    decreases path
  {
    if path == [] then 0
    else (if path[0] then 1 else 2 + Work(s.right)) + WorkAbove(Kid(s, path[0]), path[1..])
  }

  lemma {:induction false} WorkPush(s: Shape, path: Path, b: bool)
    requires Inside(s, path) && At(s, path).Bin?
    ensures Inside(s, path + [b])
    ensures WorkAbove(s, path + [b]) == WorkAbove(s, path) + if b then 1 else 2 + Work(At(s, path).right)
    decreases path
  {
    SlotsPush(s, path, b);
    if path == [] {
      assert [b][1..] == [];
    } else {
      assert (path + [b])[1..] == path[1..] + [b];
      WorkPush(Kid(s, path[0]), path[1..], b);
    }
  }

  lemma {:induction false} PutSize(s: Shape, path: Path, u: Shape)
    requires Inside(s, path)
    ensures Size(Put(s, path, u)) == Size(s) - Size(At(s, path)) + Size(u)
    decreases path
  {
    if path != [] { PutSize(Kid(s, path[0]), path[1..], u); }
  }

  /** A new peer in place leaves the measures alone. */
  lemma {:induction false} PutWork(s: Shape, path: Path, u: Shape)
    requires Inside(s, path)
    ensures Inside(Put(s, path, u), path) && WorkAbove(Put(s, path, u), path) == WorkAbove(s, path)
    decreases path
  {
    SlotsPut(s, path, u);
    if path != [] { PutWork(Kid(s, path[0]), path[1..], u); }
  }

  // ---------- how deep the walk goes

  /** The most nodes on a path from the root. */
  ghost function Height(t: Tree): nat {
    if t.Nil? then 0 else 1 + Max(Height(t.left), Height(t.right))
  }

  ghost function Below(s: Shape): nat {
    Height(TreeOf(s))
  }

  lemma {:induction false} BelowIs(s: Shape)
    ensures Below(s) == if s.Empty? then 0 else 1 + Max(Below(s.left), Below(s.right))
  {
    hide TrieNode.Prefix;
  }

  /** How deep the nodes lie that are still to be entered, at a node and above it. */
  ghost function AheadHere(c: Shape, phase: Phase): nat
    requires c.Bin?
  {
    match phase
    case Down => Below(c)
    case FromLeft => 1 + Below(c.right)
    case Up => 1
  }

  ghost function AheadAbove(s: Shape, path: Path): nat
    requires Inside(s, path)
    decreases path
  {
    if path == [] then 0
    else 1 + Max(if path[0] then 0 else Below(s.right), AheadAbove(Kid(s, path[0]), path[1..]))
  }

  ghost function Ahead(s: Shape, path: Path, phase: Phase): nat
    requires Inside(s, path) && At(s, path).Bin?
  {
    Max(|path| + AheadHere(At(s, path), phase), AheadAbove(s, path))
  }

  lemma {:induction false} AheadPush(s: Shape, path: Path, b: bool)
    requires Inside(s, path) && At(s, path).Bin?
    ensures Inside(s, path + [b])
    ensures AheadAbove(s, path + [b]) == Max(AheadAbove(s, path), |path| + 1 + if b then 0
                                             else Below(At(s, path).right))
    decreases path
  {
    hide Below;
    SlotsPush(s, path, b);
    if path == [] {
      assert [b][1..] == [];
    } else {
      assert (path + [b])[1..] == path[1..] + [b];
      AheadPush(Kid(s, path[0]), path[1..], b);
    }
  }

  lemma {:induction false} AheadPut(s: Shape, path: Path, u: Shape)
    requires Inside(s, path)
    ensures Inside(Put(s, path, u), path) && AheadAbove(Put(s, path, u), path) == AheadAbove(s, path)
    decreases path
  {
    hide Below;
    SlotsPut(s, path, u);
    if path != [] { AheadPut(Kid(s, path[0]), path[1..], u); }
  }

  /** A smaller subtree does not make the tree higher. */
  lemma {:induction false} PutBelow(s: Shape, path: Path, u: Shape)
    requires Inside(s, path) && Below(u) <= Below(At(s, path))
    ensures Below(Put(s, path, u)) <= Below(s)
    decreases path
  {
    hide Below;
    if path != [] {
      BelowIs(s);
      BelowIs(Put(s, path, u));
      PutBelow(Kid(s, path[0]), path[1..], u);
    }
  }

  lemma {:induction false} PathBelow(s: Shape, path: Path)
    requires Inside(s, path) && At(s, path).Bin?
    ensures |path| + 1 <= Below(s)
    decreases path
  {
    hide Below;
    BelowIs(s);
    if path != [] { PathBelow(Kid(s, path[0]), path[1..]); }
  }

  lemma {:induction false} RemoveTopHeight(t: Tree, p: Peer)
    requires t.Node?
    ensures Height(RemoveTop(t, p)) <= Height(t)
  {
  }

  /** Going on without leaving: what was ahead still is, or has been entered. */
  lemma {:induction false} AdvanceAhead(s: Shape, path: Path, phase: Phase)
    requires Inside(s, path) && At(s, path).Bin? && phase != Up
    ensures var push := Pushed(At(s, path), phase);
      var q, next := Onward(path, push), PhaseAfter(push);
      && Inside(s, q) && At(s, q).Bin? && Ahead(s, path, phase) <= Max(|path| + 1, Ahead(s, q, next))
  {
    hide Below;
    hide AheadAbove;
    var c := At(s, path);
    var push := Pushed(c, phase);
    BelowIs(c);
    BelowIs(c.left);
    BelowIs(c.right);
    if push.Some? {
      SlotsPush(s, path, push.value);
      AheadPush(s, path, push.value);
    }
  }

  /** Leaving a node: what was ahead above it still is. */
  lemma {:induction false} LeaveAhead(s: Shape, path: Path, u: Shape, next: Phase)
    requires Inside(s, path) && path != [] && At(s, path).Bin?
    requires next == if u.Empty? then Down else if path[|path| - 1] then Up else FromLeft
    ensures var w, q := Put(s, path, u), path[..|path| - 1];
      && Inside(w, q) && At(w, q).Bin? && Ahead(s, path, Up) <= Max(|path| + 1, Ahead(w, q, next))
  {
    hide Below;
    hide AheadAbove;
    var w, q, b := Put(s, path, u), path[..|path| - 1], path[|path| - 1];
    AheadPut(s, path, u);
    SlotsPop(w, path);
    AheadPush(w, q, b);
    assert q + [b] == path;
    BelowIs(At(w, q));
  }

  /** A tree is as high as its longest path. */
  lemma {:induction false} HeightPath(s: Shape, n: nat)
    requires n > 0
    ensures Below(s) >= n <==> exists path: Path | |path| == n - 1 :: Inside(s, path) && At(s, path).Bin?
    decreases n
  {
    hide Below;
    BelowIs(s);
    if exists path: Path | |path| == n - 1 :: Inside(s, path) && At(s, path).Bin? {
      var path: Path :| |path| == n - 1 && Inside(s, path) && At(s, path).Bin?;
      PathBelow(s, path);
    }
    if Below(s) >= n {
      LongPath(s, n);
    }
  }

  lemma {:induction false} LongPath(s: Shape, n: nat)
    requires 0 < n <= Below(s)
    ensures exists path: Path | |path| == n - 1 :: Inside(s, path) && At(s, path).Bin?
    decreases n
  {
    hide Below;
    BelowIs(s);
    if n == 1 {
      var path: Path := [];
      assert |path| == n - 1 && Inside(s, path) && At(s, path).Bin?;
    } else {
      var b := Below(s.left) < n - 1;
      LongPath(Kid(s, b), n - 1);
      var rest: Path :| |rest| == n - 2 && Inside(Kid(s, b), rest) && At(Kid(s, b), rest).Bin?;
      var path := [b] + rest;
      assert path[1..] == rest;
      assert |path| == n - 1 && Inside(s, path) && At(s, path).Bin?;
    }
  }

  function Zeros(n: nat): (k: Key)
    ensures |k| == n
  {
    seq(n, _ => false)
  }

  /** The prefixes of k to n - 1 zero bits, nested. */
  function Nested(n: nat, k: nat): Tree
    requires k <= n
    decreases n - k
  {
    if k == n then Nil else Node(Zeros(k), Some(0), Nested(n, k + 1), Nil)
  }

  lemma {:induction false} NestedInsert(n: nat, k: nat)
    requires k <= n
    ensures Insert(Nested(n, k), Zeros(n), 0) == Nested(n + 1, k)
    decreases n - k
  {
    if k < n {
      assert Zeros(k) <= Zeros(n) && Zeros(n)[k] == false;
      NestedInsert(n, k + 1);
    } else {
      assert Nested(n + 1, n + 1) == Nil;
    }
  }

  lemma {:induction false} NestedHeight(n: nat, k: nat, bits: nat)
    requires k <= n <= bits + 1
    ensures WellFormed(Nested(n, k), Zeros(k), bits) && Height(Nested(n, k)) == n - k
    decreases n - k
  {
    if k < n {
      assert Zeros(k) + [false] == Zeros(k + 1);
      NestedHeight(n, k + 1, bits);
    }
  }

  /** The bound is reached: one peer with the prefixes of every length, each inserted after the shorter ones,
      makes a tree as high as an address has bits, plus one: 129 for IPv6. */
  lemma {:induction false} BoundReached(bits: nat)
    ensures WellFormed(Nested(bits + 1, 0), [], bits) && Height(Nested(bits + 1, 0)) == bits + 1
    ensures Nested(0, 0) == Nil && forall n: nat :: Insert(Nested(n, 0), Zeros(n), 0) == Nested(n + 1, 0)
  {
    NestedHeight(bits + 1, 0, bits);
    forall n: nat ensures Insert(Nested(n, 0), Zeros(n), 0) == Nested(n + 1, 0) {
      NestedInsert(n, 0);
    }
    assert Zeros(0) == [];
  }

  // ---------- meaning

  /** Replacing a subtree by one with the same outcome keeps the outcome. */
  lemma {:induction false} RemoveAt(s: Shape, path: Path, u: Shape, p: Peer)
    requires Inside(s, path) && Remove(TreeOf(u), p) == Remove(TreeOf(At(s, path)), p)
    ensures Remove(TreeOf(Put(s, path, u)), p) == Remove(TreeOf(s), p)
    decreases path
  {
    hide TrieNode.Prefix;
    if path != [] { RemoveAt(Kid(s, path[0]), path[1..], u, p); }
  }

  lemma {:induction false} WellFormedPut(s: Shape, path: Path, u: Shape, under: Key, bits: nat)
    requires Inside(s, path) && WellFormed(TreeOf(s), under, bits)
    requires forall v: Key :: WellFormed(TreeOf(At(s, path)), v, bits) ==> WellFormed(TreeOf(u), v, bits)
    ensures WellFormed(TreeOf(Put(s, path, u)), under, bits)
    decreases path
  {
    hide TrieNode.Prefix;
    if path != [] {
      WellFormedPut(Kid(s, path[0]), path[1..], u, s.node.Prefix() + [path[0]], bits);
    }
  }

  /** Prefixes grow along a path, so it has at most as many steps as an address has bits. */
  lemma {:induction false} PathDepth(s: Shape, path: Path, under: Key, bits: nat)
    requires Inside(s, path) && WellFormed(TreeOf(s), under, bits) && At(s, path).Bin?
    ensures |under| + |path| <= bits
    decreases path
  {
    hide TrieNode.Prefix;
    if path != [] {
      PathDepth(Kid(s, path[0]), path[1..], s.node.Prefix() + [path[0]], bits);
    }
  }

  // ---------- steps of the walk

  /** How the previously visited node tells the phase. */
  ghost predicate Fits(c: Shape, prev: TrieNode?, phase: Phase, p: Peer)
    requires c.Bin?
  {
    match phase
    case Down => true
    case FromLeft => c.left.Bin? && prev == c.left.node && Clean(TreeOf(c.left), p)
    case Up => (
      && (prev == c.node || (c.right.Bin? && prev == c.right.node))
      && Clean(TreeOf(c.left), p) && Clean(TreeOf(c.right), p))
  }

  ghost predicate Walking(s: Shape, path: Path, prev: TrieNode?, phase: Phase, p: Peer) {
    && Inside(s, path) && At(s, path).Bin? && LeftDone(s, path, p)
    && Fits(At(s, path), prev, phase, p)
    && (phase == Down ==> prev == null || (path != [] && prev == Above(s, path)))
  }

  ghost function Remaining(s: Shape, path: Path, phase: Phase): nat
    requires Inside(s, path) && At(s, path).Bin?
  {
    WorkHere(At(s, path), phase) + WorkAbove(s, path)
  }

  lemma {:induction false} Descend(s: Shape, path: Path, b: bool, p: Peer)
    requires Inside(s, path) && At(s, path).Bin? && LeftDone(s, path, p)
    requires Kid(At(s, path), b).Bin? && (b ==> Clean(TreeOf(At(s, path).left), p))
    ensures Walking(s, path + [b], At(s, path).node, Down, p)
    ensures Slots(s, path + [b]) == Slots(s, path) + [Of(At(s, path).node, b)]
    ensures Remaining(s, path + [b], Down)
         == WorkAbove(s, path) + Work(Kid(At(s, path), b)) + if b then 1 else 2 + Work(At(s, path).right)
  {
    hide LeftDone;
    hide Clean;
    hide WorkAbove;
    SlotsPush(s, path, b);
    LeftDonePush(s, path, b, p);
    WorkPush(s, path, b);
  }

  /** Leaving a finished subtree. */
  lemma {:induction false} Ascend(s: Shape, path: Path, p: Peer)
    requires Inside(s, path) && path != [] && LeftDone(s, path, p) && Clean(TreeOf(At(s, path)), p)
    ensures Inside(s, path[..|path| - 1]) && |Slots(s, path)| == |path|
    ensures var q, b, c := path[..|path| - 1], path[|path| - 1], At(s, path);
      && Slots(s, path)[..|q|] == Slots(s, q)
      && (c.Bin? ==>
            && Walking(s, q, c.node, if b then Up else FromLeft, p)
            && Remaining(s, q, if b then Up else FromLeft) == WorkAbove(s, path))
      && Walking(s, q, null, Down, p)
  {
    hide LeftDone;
    hide Clean;
    hide WorkAbove;
    var q, b := path[..|path| - 1], path[|path| - 1];
    SlotsPop(s, path);
    SlotsLength(s, q);
    LeftDonePop(s, path, p);
    WorkPush(s, q, b);
    assert q + [b] == path;
  }

  lemma {:induction false} SlotsLength(s: Shape, path: Path)
    requires Inside(s, path)
    ensures |Slots(s, path)| == |path|
    decreases path
  {
    if path != [] { SlotsLength(Kid(s, path[0]), path[1..]); }
  }

  /** The comparisons of the loop tell the phases apart, because no node is its own descendant. */
  lemma {:induction false} Classify(m: Memory, c: Shape, prev: TrieNode, phase: Phase, p: Peer, bytes: nat)
    requires c.Bin? && Separate(c) && Linked(m, c.node, c, bytes) && Fits(c, prev, phase, p) && phase != Down
    ensures prev in m && m[prev].bit0 != c.node && m[prev].bit1 != c.node
    ensures m[c.node].bit0 == prev <==> phase == FromLeft
  {
    hide Clean;
    ChildrenIn(m, m[c.node].bit0, c.left, bytes);
    ChildrenIn(m, m[c.node].bit1, c.right, bytes);
  }

  lemma {:induction false} ChildrenIn(m: Memory, n: TrieNode?, s: Shape, bytes: nat)
    requires Linked(m, n, s, bytes)
    ensures n != null ==>
      n in m && n in Nodes(s) && (m[n].bit0 != null ==> m[n].bit0 in Nodes(s))
        && (m[n].bit1 != null ==> m[n].bit1 in Nodes(s))
  {
  }

  // ---------- the method

  method Deref(t: Trie, slot: Slot) returns (n: TrieNode?)
    ensures n == match slot case Top => t.top case Of(a, b) => a.Side(b)
  {
    match slot
    case Top => n := t.top;
    case Of(a, b) => n := a.Side(b);
  }

  lemma {:induction false} PutPut(s: Shape, path: Path, u: Shape, v: Shape)
    requires Inside(s, path)
    ensures Put(Put(s, path, u), path, v) == Put(s, path, v)
    decreases path
  {
    if path != [] { PutPut(Kid(s, path[0]), path[1..], u, v); }
  }

  lemma {:induction false} PutSame(s: Shape, path: Path)
    requires Inside(s, path)
    ensures Put(s, path, At(s, path)) == s
    decreases path
  {
    if path != [] { PutSame(Kid(s, path[0]), path[1..]); }
  }

  /** The fields of the node at the top of a shape. */
  lemma {:induction false} NodeFields(m: Memory, n: TrieNode?, c: Shape, bytes: nat)
    requires Linked(m, n, c, bytes) && Separate(c) && c.Bin?
    ensures n == c.node && n in m && m[n].peer == c.peer
    ensures forall b :: Linked(m, m[n].Side(b), Kid(c, b), bytes) && Separate(Kid(c, b)) && Nodes(Kid(c, b)) <= Nodes(c)
    ensures forall b :: m[n].Side(b) == null <==> Kid(c, b).Empty?
    ensures forall b :: Kid(c, b).Bin? ==> m[n].Side(b) == Kid(c, b).node
  {
  }

  lemma {:induction false} ClearedWellFormed(s: Shape, path: Path, bits: nat)
    requires Inside(s, path) && At(s, path).Bin? && WellFormed(TreeOf(s), [], bits)
    ensures WellFormed(TreeOf(Put(s, path, At(s, path).(peer := None))), [], bits)
  {
    hide TrieNode.Prefix;
    WellFormedPut(s, path, At(s, path).(peer := None), [], bits);
  }

  lemma {:induction false} SplicedWellFormed(s: Shape, path: Path, b: bool, bits: nat)
    requires Inside(s, path) && At(s, path).Bin? && WellFormed(TreeOf(s), [], bits)
    ensures WellFormed(TreeOf(Put(s, path, Kid(At(s, path), b))), [], bits)
  {
    hide TrieNode.Prefix;
    var c, u := At(s, path), Kid(At(s, path), b);
    forall v: Key | WellFormed(TreeOf(c), v, bits) ensures WellFormed(TreeOf(u), v, bits) {
      assert WellFormed(TreeOf(Kid(c, false)), c.node.Prefix() + [false], bits);
      assert WellFormed(TreeOf(Kid(c, true)), c.node.Prefix() + [true], bits);
      if u.Bin? {
        Extends(c.node.Prefix(), b, u.node.Prefix());
        PrefixTrans(v, c.node.Prefix(), u.node.Prefix());
      }
    }
    WellFormedPut(s, path, u, [], bits);
  }

  /** The slot takes over the only child of the node, if it has one. */
  method Splice(t: Trie, nptr: Slot, node: TrieNode, ghost path: Path) returns (next: TrieNode?, ghost b: bool)
    requires t.Valid() && Inside(t.shape, path) && At(t.shape, path).Bin? && node == At(t.shape, path).node
    requires nptr == if path == [] then Top else Of(Above(t.shape, path), path[|path| - 1])
    requires node.bit0 == null || node.bit1 == null
    modifies t, t.memory.Keys
    ensures t.Valid() && t.memory.Keys == old(t.memory.Keys)
    ensures var c := At(old(t.shape), path);
      && t.shape == Put(old(t.shape), path, Kid(c, b)) && b == c.left.Empty? && Kid(c, !b).Empty?
      && next == if Kid(c, b).Empty? then null else Kid(c, b).node
  {
    hide TrieNode.Prefix;
    hide WellFormed;
    hide Linked;
    hide Separate;
    ghost var c := At(t.shape, path);
    t.SubtrieLinked(path);
    NodeFields(t.memory, node, c, t.bytes);
    hide Nodes;
    assert node.Side(false) == node.bit0 && node.Side(true) == node.bit1;
    assert node.bit0 == null <==> Kid(c, false).Empty?;
    assert node.bit1 == null <==> Kid(c, true).Empty?;
    b := node.bit0 == null;
    SplicedWellFormed(t.shape, path, b, 8 * t.bytes);
    next := node.Side(node.bit0 == null);
    match nptr
    case Top => t.Attach(null, false, next, path, Kid(c, b), t.memory);
    case Of(a, side) => t.Attach(a, side, next, path, Kid(c, b), t.memory);
  }

  lemma {:induction false} VisitTree(c: Shape, p: Peer, u: Shape)
    requires c.Bin?
    requires if c.peer != Some(p) then u == c
             else if c.left.Empty? then u == c.right
             else if c.right.Empty? then u == c.left
             else u == c.(peer := None)
    ensures TreeOf(u) == RemoveTop(TreeOf(c), p)
    ensures Size(u) < Size(c) || (Size(u) == Size(c) && u.Bin?)
  {
    hide TrieNode.Prefix;
  }

  /** The visit on the way up: the node loses its peer, and its place if a child is missing. */
  method Visit(t: Trie, nptr: Slot, node: TrieNode, p: Peer, ghost path: Path) returns (next: TrieNode?, ghost u: Shape)
    requires t.Valid() && Inside(t.shape, path) && At(t.shape, path).Bin? && node == At(t.shape, path).node
    requires nptr == if path == [] then Top else Of(Above(t.shape, path), path[|path| - 1])
    modifies t, t.memory.Keys
    ensures t.Valid() && t.memory.Keys == old(t.memory.Keys) && t.shape == Put(old(t.shape), path, u)
    ensures TreeOf(u) == RemoveTop(TreeOf(At(old(t.shape), path)), p)
    ensures next == if u.Empty? then null else u.node
    ensures Size(u) < Size(At(old(t.shape), path)) || (Size(u) == Size(At(old(t.shape), path)) && next != null)
  {
    hide TrieNode.Prefix;
    hide WellFormed;
    hide Linked;
    hide Separate;
    hide TreeOf;
    ghost var s, c := t.shape, At(t.shape, path);
    t.SubtrieLinked(path);
    NodeFields(t.memory, node, c, t.bytes);
    next := node;
    u := c;
    PutSame(s, path);
    if node.peer == Some(p) {
      u := c.(peer := None);
      ClearedWellFormed(s, path, 8 * t.bytes);
      t.SetPeer(node, None, path);
      SlotsPut(s, path, u);
      t.SubtrieLinked(path);
      NodeFields(t.memory, node, u, t.bytes);
      assert node.Side(false) == node.bit0 && node.Side(true) == node.bit1;
      assert (node.bit0 == null <==> Kid(u, false).Empty?) && (node.bit1 == null <==> Kid(u, true).Empty?);
      if node.bit0 == null || node.bit1 == null {
        ghost var b;
        next, b := Splice(t, nptr, node, path);
        PutPut(s, path, u, Kid(u, b));
        u := Kid(u, b);
      }
    }
    VisitTree(c, p, u);
  }

  /** One round of the walk at a node that is not left yet: the slot to push, if any. */
  method Next(node: TrieNode, prev: TrieNode?) returns (push: Option<Slot>, leave: bool)
    ensures var down := prev == null || prev.bit0 == node || prev.bit1 == node;
      && leave == (!down && node.bit0 != prev)
      && push == (if down && node.bit0 != null then Some(Of(node, false))
                  else if !leave && node.bit1 != null then Some(Of(node, true)) else None)
  {
    push, leave := None, false;
    if prev == null || prev.bit0 == node || prev.bit1 == node {
      if node.bit0 != null {
        push := Some(Of(node, false));
      } else if node.bit1 != null {
        push := Some(Of(node, true));
      }
    } else if node.bit0 == prev {
      if node.bit1 != null {
        push := Some(Of(node, true));
      }
    } else {
      leave := true;
    }
  }

  /** What Next pushes, on shapes. */
  ghost function Pushed(c: Shape, phase: Phase): Option<bool>
    requires c.Bin?
  {
    if phase == Down && c.left.Bin? then Some(false) else if phase != Up && c.right.Bin? then Some(true) else None
  }

  ghost function PushedSlot(c: Shape, phase: Phase): Option<Slot>
    requires c.Bin?
  {
    match Pushed(c, phase) case None => None case Some(b) => Some(Of(c.node, b))
  }

  ghost function Onward(path: Path, push: Option<bool>): Path {
    if push.Some? then path + [push.value] else path
  }

  ghost function PhaseAfter(push: Option<bool>): Phase {
    if push.Some? then Down else Up
  }

  /** A round that does not leave the node. */
  lemma {:induction false} Advance(s: Shape, path: Path, prev: TrieNode?, phase: Phase, p: Peer)
    requires Walking(s, path, prev, phase, p) && phase != Up
    ensures var c := At(s, path);
      var push := Pushed(c, phase);
      var q, next := Onward(path, push), PhaseAfter(push);
      && Walking(s, q, c.node, next, p) && Remaining(s, q, next) < Remaining(s, path, phase)
      && Slots(s, q) == Slots(s, path) + (if push.Some? then [Of(c.node, push.value)] else [])
  {
    hide LeftDone;
    hide WorkAbove;
    hide TrieNode.Prefix;
    var c := At(s, path);
    var push := Pushed(c, phase);
    if push.Some? {
      Descend(s, path, push.value, p);
    }
  }

  /** A round that leaves the node, whose subtree is u by then. */
  lemma {:induction false} Leave(s: Shape, path: Path, prev: TrieNode?, p: Peer, u: Shape)
    requires Walking(s, path, prev, Up, p) && TreeOf(u) == RemoveTop(TreeOf(At(s, path)), p)
    requires Size(u) < Size(At(s, path)) || (Size(u) == Size(At(s, path)) && u.Bin?)
    ensures var w := Put(s, path, u);
      && Remove(TreeOf(w), p) == Remove(TreeOf(s), p)
      && (path == [] ==> Clean(TreeOf(w), p))
      && (path != [] ==>
            var q := path[..|path| - 1];
            var next := if u.Empty? then Down else if path[|path| - 1] then Up else FromLeft;
            && Walking(w, q, if u.Empty? then null else u.node, next, p)
            && |Slots(s, path)| == |path| && Slots(s, path)[..|q|] == Slots(w, q)
            && (Size(w) < Size(s) || (Size(w) == Size(s) && Remaining(w, q, next) < Remaining(s, path, Up))))
      && Size(w) <= Size(s)
  {
    hide LeftDone;
    hide WorkAbove;
    hide TrieNode.Prefix;
    var w := Put(s, path, u);
    CleanTop(At(s, path), p, u);
    RemoveAt(s, path, u, p);
    LeftDonePut(s, path, u, p);
    SlotsPut(s, path, u);
    PutSize(s, path, u);
    PutWork(s, path, u);
    SlotsLength(s, path);
    hide Put;
    hide Clean;
    hide Remove;
    if path == [] {
      PutHere(s, u);
    } else {
      Ascend(w, path, p);
    }
  }

  lemma {:induction false} CleanTop(c: Shape, p: Peer, u: Shape)
    requires c.Bin? && Clean(TreeOf(c.left), p) && Clean(TreeOf(c.right), p) && TreeOf(u) == RemoveTop(TreeOf(c), p)
    ensures Clean(TreeOf(u), p) && Remove(TreeOf(u), p) == Remove(TreeOf(c), p)
  {
    hide TrieNode.Prefix;
    RemoveClean(TreeOf(c.left), p);
    RemoveClean(TreeOf(c.right), p);
    RemoveClean(TreeOf(u), p);
  }

  /** The state between two rounds; an empty stack means the walk is over. */
  ghost predicate Between(s: Shape, stack: seq<Slot>, path: Path, prev: TrieNode?, phase: Phase, p: Peer) {
    if stack == [] then Clean(TreeOf(s), p)
    else Walking(s, path, prev, phase, p) && stack == [Top] + Slots(s, path)
  }

  ghost function RoundsLeft(s: Shape, stack: seq<Slot>, path: Path, phase: Phase): nat {
    if stack == [] || !Inside(s, path) || At(s, path).Empty? then 0 else 1 + Remaining(s, path, phase)
  }

  ghost function DepthLeft(s: Shape, stack: seq<Slot>, path: Path, phase: Phase): nat {
    if stack == [] || !Inside(s, path) || At(s, path).Empty? then 0 else Ahead(s, path, phase)
  }

  /** The round that leaves a node. */
  method LeaveNode(t: Trie, stack: seq<Slot>, node: TrieNode, p: Peer, ghost path: Path, ghost prev: TrieNode?)
    returns (rest: seq<Slot>, next: TrieNode?, ghost q: Path, ghost phase: Phase)
    requires t.Valid() && stack != [] && Between(t.shape, stack, path, prev, Up, p) && node == At(t.shape, path).node
    modifies t, t.memory.Keys
    ensures t.Valid() && t.memory.Keys == old(t.memory.Keys)
    ensures rest == stack[..|stack| - 1] && Between(t.shape, rest, q, next, phase, p)
    ensures Remove(TreeOf(t.shape), p) == Remove(TreeOf(old(t.shape)), p)
    ensures Size(t.shape) < Size(old(t.shape))
      || (&& Size(t.shape) == Size(old(t.shape))
          && RoundsLeft(t.shape, rest, q, phase) < RoundsLeft(old(t.shape), stack, path, Up))
    ensures DepthLeft(old(t.shape), stack, path, Up) <= Max(|stack|, DepthLeft(t.shape, rest, q, phase))
    ensures Below(t.shape) <= Below(old(t.shape))
  {
    hide TrieNode.Prefix;
    hide WellFormed;
    hide LeftDone;
    hide Remove;
    hide Fits;
    hide Linked;
    hide Separate;
    hide TreeOf;
    hide Clean;
    hide Slots;
    hide Size;
    hide Put;
    ghost var s := t.shape;
    TopOfStack(t, stack, path, prev, Up, p);
    ghost var u;
    next, u := Visit(t, stack[|stack| - 1], node, p, path);
    Leave(s, path, prev, p, u);
    Lower(s, path, u, p);
    rest := stack[..|stack| - 1];
    q, phase := [], Down;
    if path != [] {
      q := path[..|path| - 1];
      phase := if u.Empty? then Down else if path[|path| - 1] then Up else FromLeft;
      LeaveAhead(s, path, u, phase);
    }
  }

  lemma {:induction false} Lower(s: Shape, path: Path, u: Shape, p: Peer)
    requires Inside(s, path) && At(s, path).Bin? && TreeOf(u) == RemoveTop(TreeOf(At(s, path)), p)
    ensures Below(Put(s, path, u)) <= Below(s)
    ensures path == [] ==> Ahead(s, path, Up) <= 1
  {
    hide TrieNode.Prefix;
    RemoveTopHeight(TreeOf(At(s, path)), p);
    PutBelow(s, path, u);
  }

  /** The round that stays in the subtree of a node. */
  method EnterNode(t: Trie, stack: seq<Slot>, node: TrieNode, push: Option<Slot>, ghost path: Path,
                   ghost prev: TrieNode?, ghost phase: Phase, ghost p: Peer)
    returns (more: seq<Slot>, ghost q: Path, ghost next: Phase)
    requires t.Valid() && stack != [] && Between(t.shape, stack, path, prev, phase, p) && node == At(t.shape, path).node
    requires phase != Up && push == PushedSlot(At(t.shape, path), phase)
    ensures more != [] && Between(t.shape, more, q, node, next, p) && |more| <= 8 * t.bytes + 1
    ensures RoundsLeft(t.shape, more, q, next) < RoundsLeft(t.shape, stack, path, phase)
    ensures DepthLeft(t.shape, stack, path, phase) <= Max(|stack|, DepthLeft(t.shape, more, q, next))
    ensures |more| <= Below(t.shape)
  {
    hide TrieNode.Prefix;
    hide WellFormed;
    hide LeftDone;
    hide Fits;
    hide Linked;
    hide Separate;
    hide TreeOf;
    hide Clean;
    hide Slots;
    Advance(t.shape, path, prev, phase, p);
    ghost var b := Pushed(At(t.shape, path), phase);
    q, next := Onward(path, b), PhaseAfter(b);
    more := if push.Some? then stack + [push.value] else stack;
    StackDepth(t, q);
    SlotsLength(t.shape, q);
    SlotsLength(t.shape, path);
    AdvanceAhead(t.shape, path, phase);
    PathBelow(t.shape, q);
  }

  /** walk_remove_by_peer: it ends and leaves the tree without the prefixes of the peer. The most slots it ever
      holds is the height of the tree, which is at most the number of bits of an address plus one. */
  method WalkRemoveByPeer(t: Trie, peer: Option<Peer>) returns (ghost deepest: nat)
    requires t.Valid()
    modifies t, t.memory.Keys
    ensures t.Valid() && t.memory.Keys == old(t.memory.Keys)
    ensures TreeOf(t.shape) == if peer.None? then TreeOf(old(t.shape)) else Remove(TreeOf(old(t.shape)), peer.value)
    ensures deepest == (if peer.None? then 0 else Height(TreeOf(old(t.shape)))) <= 8 * t.bytes + 1
  {
    hide *;
    deepest := 0;
    if peer.None? || t.top == null {
      EmptyRemove(t, peer);
      return;
    }
    var p := peer.value;
    var prev: TrieNode? := null;
    var stack: seq<Slot> := [Top];
    ghost var path: Path, phase := [], Down;
    StartWalk(t, p);
    deepest := 1;
    ghost var height := Below(t.shape);
    MaxIs(1, height);
    while |stack| > 0
      invariant t.Valid() && t.memory.Keys == old(t.memory.Keys)
      invariant Remove(TreeOf(t.shape), p) == Remove(TreeOf(old(t.shape)), p)
      invariant Between(t.shape, stack, path, prev, phase, p)
      invariant |stack| <= deepest <= 8 * t.bytes + 1
      invariant Below(t.shape) <= height <= Max(deepest, DepthLeft(t.shape, stack, path, phase)) && deepest <= height
      decreases Size(t.shape), RoundsLeft(t.shape, stack, path, phase)
    {
      TopOfStack(t, stack, path, prev, phase, p);
      var node := Deref(t, stack[|stack| - 1]);
      NextIs(t, path, node, prev, phase, p);
      var push, leave := Next(node, prev);
      ghost var before := DepthLeft(t.shape, stack, path, phase);
      ghost var slots := |stack|;
      if leave {
        stack, node, path, phase := LeaveNode(t, stack, node, p, path, prev);
      } else {
        stack, path, phase := EnterNode(t, stack, node, push, path, prev, phase, p);
      }
      MaxIs(deepest, before);
      MaxIs(slots, DepthLeft(t.shape, stack, path, phase));
      prev := node;
      deepest := if |stack| > deepest then |stack| else deepest;
      MaxIs(deepest, DepthLeft(t.shape, stack, path, phase));
    }
    Finished(t, path, prev, phase, p);
    NoneLeft(t.shape, path, phase);
    MaxIs(deepest, DepthLeft(t.shape, stack, path, phase));
  }

  lemma {:induction false} NoneLeft(s: Shape, path: Path, phase: Phase)
    ensures DepthLeft(s, [], path, phase) == 0
  {
  }

  lemma {:induction false} Finished(t: Trie, path: Path, prev: TrieNode?, phase: Phase, p: Peer)
    requires Between(t.shape, [], path, prev, phase, p)
    ensures Remove(TreeOf(t.shape), p) == TreeOf(t.shape)
  {
    RemoveClean(TreeOf(t.shape), p);
  }

  lemma {:induction false} EmptyRemove(t: Trie, peer: Option<Peer>)
    requires t.Valid() && (t.top == null || peer.None?)
    ensures peer.Some? ==> Remove(TreeOf(t.shape), peer.value) == TreeOf(t.shape) && Height(TreeOf(t.shape)) == 0
  {
  }

  lemma {:induction false} StartWalk(t: Trie, p: Peer)
    requires t.Valid() && t.top != null
    ensures Between(t.shape, [Top], [], null, Down, p)
    ensures Below(t.shape) == Height(TreeOf(t.shape)) == DepthLeft(t.shape, [Top], [], Down) >= 1
  {
    hide TrieNode.Prefix;
  }

  lemma {:induction false} TopOfStack(t: Trie, stack: seq<Slot>, path: Path, prev: TrieNode?, phase: Phase, p: Peer)
    requires stack != [] && Between(t.shape, stack, path, prev, phase, p)
    ensures |stack| == |path| + 1 && Walking(t.shape, path, prev, phase, p) && Inside(t.shape, path)
    ensures stack[|stack| - 1] == if path == [] then Top else Of(Above(t.shape, path), path[|path| - 1])
  {
    SlotsLength(t.shape, path);
    if path != [] { SlotsPop(t.shape, path); SlotsLength(t.shape, path[..|path| - 1]); }
  }

  lemma {:induction false} StackDepth(t: Trie, path: Path)
    requires t.Valid() && Inside(t.shape, path) && At(t.shape, path).Bin?
    ensures |Slots(t.shape, path)| <= 8 * t.bytes
  {
    SlotsLength(t.shape, path);
    PathDepth(t.shape, path, [], 8 * t.bytes);
  }

  /** The pointer comparisons of the loop, in terms of the phase. The slot on top of the
      stack is never empty, so the source's test for that does nothing. */
  lemma {:induction false} NextIs(t: Trie, path: Path, node: TrieNode?, prev: TrieNode?, phase: Phase, p: Peer)
    requires t.Valid() && Walking(t.shape, path, prev, phase, p)
    requires node == if path == [] then t.top else Above(t.shape, path).Side(path[|path| - 1])
    ensures node != null && At(t.shape, path).Bin? && node == At(t.shape, path).node
    ensures var down := prev == null || prev.bit0 == node || prev.bit1 == node;
            var leave := !down && node.bit0 != prev;
            var push := if down && node.bit0 != null then Some(Of(node, false))
                        else if node.bit1 != null then Some(Of(node, true)) else None;
      && (leave <==> phase == Up)
      && (!leave ==> push == PushedSlot(At(t.shape, path), phase))
  {
    hide TrieNode.Prefix;
    hide WellFormed;
    hide LeftDone;
    hide Linked;
    hide Separate;
    hide Clean;
    var c := At(t.shape, path);
    t.SubtrieLinked(path);
    NodeFields(t.memory, node, c, t.bytes);
    assert node.Side(false) == node.bit0 && node.Side(true) == node.bit1;
    assert Kid(c, false) == c.left && Kid(c, true) == c.right;
    if phase != Down {
      Classify(t.memory, c, prev, phase, p, t.bytes);
    } else if prev != null {
      assert prev.Side(path[|path| - 1]) == node;
    }
  }
}
