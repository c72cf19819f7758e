/** wg_allowedips_walk_by_peer: a walk over both tries that stops when its callback
    fails and is resumed later from the stack kept in a cursor. */
module TrieCursor {
  import opened Bits
  import opened Options
  import opened PrefixTree
  import opened AddressBits
  import opened TrieHeap
  import opened AllowedIps

  /** One call of the callback: address in network order, prefix length, family. */
  datatype Report = Report(ip: seq<u8>, cidr: nat, v6: bool)

  /** A prefix of one of the two families. */
  datatype Item = Item(v6: bool, prefix: Key)

  /** The report is the prefix padded with zero bits. */
  ghost predicate Shows(r: Report, i: Item) {
    && IsAddress(r.ip) && r.v6 == i.v6 == (|r.ip| == 16)
    && r.cidr == |i.prefix| <= 8 * |r.ip|
    && forall j | 0 <= j < 8 * |r.ip| :: ToBits(r.ip)[j] == (j < r.cidr && i.prefix[j])
  }

  ghost predicate ShowsAll(rs: seq<Report>, items: seq<Item>) {
    |rs| == |items| && forall j | 0 <= j < |rs| :: Shows(rs[j], items[j])
  }

  /** Bytes of the nested attributes of one address: the nest, the prefix length, the family, the address. */
  function Cost(r: Report): (n: nat) {
    4 + 8 + 8 + (if r.v6 then 20 else 8)
  }

  /** What any address fits into. */
  const MAX_COST := 40

  /** The callback get_allowedips: it fails when the address does not fit into what is left of the message. */
  class Sink {
    var room: nat
    var reports: seq<Report>

    constructor ()
      ensures room == 0 && reports == []
    {
      room := 0;
      reports := [];
    }

    method Emit(r: Report) returns (ret: int)
      modifies this
      ensures ret == 0 <==> Cost(r) <= old(room)
      ensures ret == 0 ==> reports == old(reports) + [r] && room == old(room) - Cost(r)
      ensures ret != 0 ==> reports == old(reports) && room == old(room)
    {
      if room < Cost(r) {
        return -EMSGSIZE;
      }
      reports := reports + [r];
      room := room - Cost(r);
      return 0;
    }
  }

  const EMSGSIZE := 90

  /** struct allowedips_cursor */
  class Cursor {
    var seqno: nat
    var stack: seq<TrieNode>
    var secondHalf: bool
    ghost var shapes: seq<Shape>
    /** The most entries the stack has held. */
    ghost var deepest: nat

    constructor ()
      ensures seqno == 0 && stack == [] && !secondHalf && shapes == [] && deepest == 0
    {
      deepest := 0;
      seqno := 0;
      stack := [];
      secondHalf := false;
      shapes := [];
    }
  }

  // ---------- what the walk reports

  /** The prefixes of a peer in the order of the walk: a node, then its right side, then its left. */
  ghost function Prefixes(t: Tree, p: Peer, v6: bool): seq<Item> {
    if t.Nil? then []
    else (if t.peer == Some(p) then [Item(v6, t.prefix)] else []) + Prefixes(t.right, p, v6) + Prefixes(t.left, p, v6)
  }

  /** What a stack still has to report, top first. */
  ghost function Pending(shapes: seq<Shape>, p: Peer, v6: bool): seq<Item> {
    if shapes == [] then []
    else Prefixes(TreeOf(shapes[|shapes| - 1]), p, v6) + Pending(shapes[..|shapes| - 1], p, v6)
  }

  /** Every prefix of the peer is listed, and nothing else. */
  lemma {:induction false} PrefixesComplete(t: Tree, under: Key, bits: nat, p: Peer, v6: bool)
    requires WellFormed(t, under, bits)
    ensures forall i: Item ::
      i in Prefixes(t, p, v6) <==> i.v6 == v6 && i.prefix in Entries(t) && Entries(t)[i.prefix] == p
  {
    if t.Node? {
      PrefixesComplete(t.left, t.prefix + [false], bits, p, v6);
      PrefixesComplete(t.right, t.prefix + [true], bits, p, v6);
      EntriesUnder(t.left, t.prefix + [false], bits);
      EntriesUnder(t.right, t.prefix + [true], bits);
      Sides(t.prefix, Entries(t.left), Entries(t.right));
      hide WellFormed;
    }
  }

  ghost predicate NoRepeats(s: seq<Item>) {
    forall i, j | 0 <= i < j < |s| :: s[i] != s[j]
  }

  lemma {:induction false} NoRepeatsConcat(a: seq<Item>, b: seq<Item>)
    requires NoRepeats(a) && NoRepeats(b) && forall i | i in a :: i !in b
    ensures NoRepeats(a + b)
  {
    forall i, j | 0 <= i < j < |a + b| ensures (a + b)[i] != (a + b)[j] {
      if i < |a| <= j {
        assert a[i] in a && b[j - |a|] in b;
      }
    }
  }

  /** Every prefix of the peer is listed once. */
  lemma {:induction false} PrefixesOnce(t: Tree, under: Key, bits: nat, p: Peer, v6: bool)
    requires WellFormed(t, under, bits)
    ensures NoRepeats(Prefixes(t, p, v6))
  {
    if t.Node? {
      var l, r := Prefixes(t.left, p, v6), Prefixes(t.right, p, v6);
      var own := if t.peer == Some(p) then [Item(v6, t.prefix)] else [];
      PrefixesOnce(t.left, t.prefix + [false], bits, p, v6);
      PrefixesOnce(t.right, t.prefix + [true], bits, p, v6);
      PrefixesComplete(t.left, t.prefix + [false], bits, p, v6);
      PrefixesComplete(t.right, t.prefix + [true], bits, p, v6);
      EntriesUnder(t.left, t.prefix + [false], bits);
      EntriesUnder(t.right, t.prefix + [true], bits);
      Sides(t.prefix, Entries(t.left), Entries(t.right));
      hide WellFormed;
      hide Entries;
      NoRepeatsConcat(own, r);
      NoRepeatsConcat(own + r, l);
    }
  }

  // ---------- the walk over one trie

  /** The stack lists nodes of the trie; the entry at height j has at least j bits. */
  ghost predicate StackOf(t: Trie, stack: seq<TrieNode>, shapes: seq<Shape>)
    reads t, t.memory.Keys
  {
    && |stack| == |shapes|
    && (forall j | 0 <= j < |stack| ::
          && shapes[j].Bin? && Linked(t.memory, stack[j], shapes[j], t.bytes)
          && WellFormed(TreeOf(shapes[j]), [], 8 * t.bytes) && |shapes[j].node.Prefix()| >= j)
  }

  /** A stack never needs more than one entry per bit of an address, plus one. */
  lemma {:induction false} StackBound(t: Trie, stack: seq<TrieNode>, shapes: seq<Shape>)
    requires StackOf(t, stack, shapes)
    ensures |stack| <= 8 * t.bytes + 1
  {
    hide TrieNode.Prefix;
    if |stack| > 0 {
      var j := |stack| - 1;
      assert |shapes[j].node.Prefix()| >= j;
    }
  }

  // ---------- how deep the stack gets

  /** The entries a walk over a tree puts on an empty stack: the left child waits below the right one. */
  ghost function Need(t: Tree): nat {
    if t.Nil? then 0 else Max(1, Max(Need(t.left), Need(t.right) + if t.left.Nil? then 0 else 1))
  }

  /** The height a walk reaches from a given stack. */
  ghost function Peak(shapes: seq<Shape>): nat {
    if shapes == [] then 0
    else Max(|shapes| - 1 + Need(TreeOf(shapes[|shapes| - 1])), Peak(shapes[..|shapes| - 1]))
  }

  /** The height a walk reaches that begins at the top when the stack is empty. */
  ghost function PeakFrom(t: Trie, shapes: seq<Shape>): nat
    reads t
  {
    if shapes == [] then Need(TreeOf(t.shape)) else Peak(shapes)
  }

  lemma {:induction false} NeedIs(s: Shape)
    ensures (s.Empty? ==> Need(TreeOf(s)) == 0) && (s.Bin? ==> Need(TreeOf(s)) >= 1)
    ensures s.Bin? ==>
      var more := if s.left.Empty? then 0 else 1;
      Need(TreeOf(s)) == Max(1, Max(Need(TreeOf(s.left)), Need(TreeOf(s.right)) + more))
  {
    hide TrieNode.Prefix;
  }

  lemma {:induction false} PeakPush(rest: seq<Shape>, s: Shape)
    ensures Peak(rest + (if s.Empty? then [] else [s]))
         == if s.Empty? then Peak(rest) else Max(|rest| + Need(TreeOf(s)), Peak(rest))
  {
    if s.Empty? {
      assert rest + [] == rest;
    } else {
      assert (rest + [s])[..|rest|] == rest;
    }
  }

  /** Replacing the top by its children does not change the height ahead, the top itself aside. */
  lemma {:induction false} PeakReplace(rest: seq<Shape>, s: Shape)
    requires s.Bin?
    ensures var more := rest + (if s.left.Empty? then [] else [s.left]);
      Peak(rest + [s]) == Max(|rest| + 1, Peak(more + if s.right.Empty? then [] else [s.right]))
  {
    hide Peak;
    hide Need;
    hide TreeOf;
    PeakPush(rest, s);
    PeakPush(rest, s.left);
    PeakPush(rest + (if s.left.Empty? then [] else [s.left]), s.right);
    NeedIs(s);
    NeedIs(s.left);
    NeedIs(s.right);
  }

  /** A walk needs at most one entry per bit of an address, plus one. */
  lemma {:induction false} NeedBound(t: Tree, under: Key, bits: nat)
    requires WellFormed(t, under, bits) && |under| <= bits + 1
    ensures Need(t) <= bits + 1 - |under|
  {
    if t.Node? {
      NeedBound(t.left, t.prefix + [false], bits);
      NeedBound(t.right, t.prefix + [true], bits);
    }
  }

  function Ones(n: nat): (k: Key)
    ensures |k| == n
  {
    seq(n, _ => true)
  }

  /** The prefixes of k to n one bits, nested, each but the last with a sibling of the next one beside it. */
  function Comb(n: nat, k: nat): Tree
    requires k <= n
    decreases n - k
  {
    if k == n then Leaf(Ones(n), Some(0))
    else Node(Ones(k), Some(0), Leaf(Ones(k) + [false], Some(0)), Comb(n, k + 1))
  }

  lemma {:induction false} CombInsert(n: nat, k: nat)
    requires k <= n
    ensures Insert(Insert(Comb(n, k), Ones(n) + [false], 0), Ones(n + 1), 0) == Comb(n + 1, k)
    decreases n - k
  {
    if k < n {
      assert Ones(k) <= Ones(n) + [false] && (Ones(n) + [false])[k] && Ones(k) <= Ones(n + 1);
      CombInsert(n, k + 1);
    } else {
      assert Ones(n) <= Ones(n) + [false] && Ones(n) <= Ones(n + 1);
    }
  }

  lemma {:induction false} CombNeed(n: nat, k: nat, bits: nat)
    requires k <= n <= bits
    ensures WellFormed(Comb(n, k), Ones(k), bits) && Need(Comb(n, k)) == n - k + 1
    decreases n - k
  {
    if k < n {
      assert Ones(k) + [true] == Ones(k + 1);
      CombNeed(n, k + 1, bits);
    }
  }

  /** The bound is reached: a peer with nested prefixes of every length, and a sibling beside each but the first,
      makes the walk hold as many entries as an address has bits, plus one: 129 for IPv6. */
  lemma {:induction false} NeedReached(bits: nat)
    ensures WellFormed(Comb(bits, 0), [], bits) && Need(Comb(bits, 0)) == bits + 1
    ensures Comb(0, 0) == Insert(Nil, [], 0)
    ensures forall n: nat :: Insert(Insert(Comb(n, 0), Ones(n) + [false], 0), Ones(n + 1), 0) == Comb(n + 1, 0)
  {
    CombNeed(bits, 0, bits);
    forall n: nat
      ensures Insert(Insert(Comb(n, 0), Ones(n) + [false], 0), Ones(n + 1), 0) == Comb(n + 1, 0)
    {
      CombInsert(n, 0);
    }
    assert Ones(0) == [];
  }

  // ---------- the steps of the walk

  /** The report for one node shows its prefix. */
  lemma {:induction false} ReportShows(n: TrieNode, bytes: nat)
    requires n.Good(bytes)
    ensures Shows(Report(MaskedAddress(n.bits, n.cidr), n.cidr, bytes == 16), Item(bytes == 16, n.Prefix()))
  {
    hide KeyBits;
    hide MaskedAddress;
    forall j | 0 <= j < 8 * bytes
      ensures ToBits(MaskedAddress(n.bits, n.cidr))[j] == (j < n.cidr && n.Prefix()[j])
    {
      MaskedAddressIs(n.bits, n.cidr, j);
    }
  }

  /** push_rcu: null pointers are not pushed. */
  method Push(c: Cursor, n: TrieNode?, t: Trie, ghost s: Shape, ghost p: Peer)
    requires t.Valid() && StackOf(t, c.stack, c.shapes) && Linked(t.memory, n, s, t.bytes)
    requires WellFormed(TreeOf(s), [], 8 * t.bytes) && (s.Bin? ==> |s.node.Prefix()| >= |c.stack|)
    modifies c`stack, c`shapes, c`deepest
    ensures StackOf(t, c.stack, c.shapes)
    ensures c.stack == old(c.stack) + (if n == null then [] else [n])
    ensures c.deepest == if n == null then old(c.deepest) else Max(old(c.deepest), |c.stack|)
    ensures c.shapes == old(c.shapes) + (if s.Empty? then [] else [s])
    ensures Pending(c.shapes, p, t.bytes == 16) == Prefixes(TreeOf(s), p, t.bytes == 16)
      + Pending(old(c.shapes), p, t.bytes == 16)
  {
    hide TrieNode.Prefix;
    hide WellFormed;
    if n != null {
      c.stack := c.stack + [n];
      c.shapes := c.shapes + [s];
      c.deepest := Max(c.deepest, |c.stack|);
      assert c.shapes[..|c.shapes| - 1] == old(c.shapes);
    }
  }

  ghost function Own(s: Shape, p: Peer, v6: bool): seq<Item>
    requires s.Bin?
  {
    if s.peer == Some(p) then [Item(v6, s.node.Prefix())] else []
  }

  lemma {:induction false} PendingSnoc(rest: seq<Shape>, s: Shape, p: Peer, v6: bool)
    ensures Pending(rest + [s], p, v6) == Prefixes(TreeOf(s), p, v6) + Pending(rest, p, v6)
  {
    assert (rest + [s])[..|rest|] == rest;
  }

  lemma {:induction false} PendingTop(shapes: seq<Shape>, p: Peer, v6: bool)
    requires shapes != [] && shapes[|shapes| - 1].Bin? && Own(shapes[|shapes| - 1], p, v6) != []
    ensures Pending(shapes, p, v6) != []
  {
    var rest, s := shapes[..|shapes| - 1], shapes[|shapes| - 1];
    assert shapes == rest + [s];
    PendingSnoc(rest, s, p, v6);
    PrefixesUnfold(s, p, v6, Pending(rest, p, v6));
  }

  lemma {:induction false} PrefixesUnfold(s: Shape, p: Peer, v6: bool, tail: seq<Item>)
    requires s.Bin?
    ensures Prefixes(TreeOf(s), p, v6) + tail
         == Own(s, p, v6) + (Prefixes(TreeOf(s.right), p, v6) + (Prefixes(TreeOf(s.left), p, v6) + tail))
  {
    hide TrieNode.Prefix;
  }

  /** The children of the top of a stack may stand on the rest of it. */
  lemma {:induction false} TopChildren(t: Trie, c: Cursor)
    requires t.Valid() && StackOf(t, c.stack, c.shapes) && c.stack != []
    ensures var n, s := c.stack[|c.stack| - 1], c.shapes[|c.shapes| - 1];
      && s.Bin? && n == s.node && n.Good(t.bytes) && n.peer == s.peer
      && Linked(t.memory, n.bit0, s.left, t.bytes) && WellFormed(TreeOf(s.left), [], 8 * t.bytes)
      && Linked(t.memory, n.bit1, s.right, t.bytes) && WellFormed(TreeOf(s.right), [], 8 * t.bytes)
      && (s.left.Bin? ==> |s.left.node.Prefix()| >= |c.stack|)
      && (s.right.Bin? ==> |s.right.node.Prefix()| >= |c.stack|)
  {
    hide TrieNode.Prefix;
    var s := c.shapes[|c.shapes| - 1];
    Weaker(s.left, s.node.Prefix() + [false], 8 * t.bytes);
    Weaker(s.right, s.node.Prefix() + [true], 8 * t.bytes);
  }

  lemma {:induction false} StackPop(t: Trie, stack: seq<TrieNode>, shapes: seq<Shape>)
    requires StackOf(t, stack, shapes) && stack != []
    ensures StackOf(t, stack[..|stack| - 1], shapes[..|shapes| - 1])
  {
  }

  /** Taking the top node off and putting its children on. */
  method Replace(c: Cursor, t: Trie, ghost p: Peer)
    requires t.Valid() && StackOf(t, c.stack, c.shapes) && c.stack != [] && |c.stack| <= c.deepest
    modifies c`stack, c`shapes, c`deepest
    ensures StackOf(t, c.stack, c.shapes) && |c.stack| <= c.deepest
    ensures Max(c.deepest, Peak(c.shapes)) == old(Max(c.deepest, Peak(c.shapes)))
    ensures var s := old(c.shapes)[|old(c.shapes)| - 1]; s.Bin?
    ensures Pending(old(c.shapes), p, t.bytes == 16)
         == Own(old(c.shapes)[|old(c.shapes)| - 1], p, t.bytes == 16) + Pending(c.shapes, p, t.bytes == 16)
    ensures Rank(c.shapes) < old(Rank(c.shapes))
  {
    hide *;
    StackHeight(t, c);
    TopChildren(t, c);
    StackPop(t, c.stack, c.shapes);
    var node := c.stack[|c.stack| - 1];
    ghost var all, s, six := c.shapes, c.shapes[|c.shapes| - 1], t.bytes == 16;
    ghost var rest := all[..|all| - 1];
    assert all == rest + [s];
    TopUnfold(rest, s, p, six);
    PeakReplace(rest, s);
    RankEmpty(rest, s.left);
    c.stack := c.stack[..|c.stack| - 1];
    c.shapes := rest;
    Push(c, node.bit0, t, s.left, p);
    ghost var more, between := c.shapes, c.deepest;
    StackHeight(t, c);
    Push(c, node.bit1, t, s.right, p);
    RankEmpty(more, s.right);
    StackHeight(t, c);
    if c.stack != [] {
      TopNode(t, c);
    }
    Deeper(c.shapes, |rest|, |more|, old(c.deepest), between, c.deepest);
    MaxJoin(old(c.deepest), |rest| + 1, Peak(c.shapes));
  }

  /** Two pushes keep record of the height, which the height ahead covers. */
  lemma {:induction false} Deeper(shapes: seq<Shape>, low: nat, mid: nat, was: nat, between: nat, now: nat)
    requires low <= mid <= low + 1 && mid <= |shapes| <= mid + 1 && low + 1 <= was
    requires between == if mid > low then Max(was, mid) else was
    requires now == if |shapes| > mid then Max(between, |shapes|) else between
    requires shapes != [] ==> shapes[|shapes| - 1].Bin?
    ensures |shapes| <= now && Max(now, Peak(shapes)) == Max(was, Max(low + 1, Peak(shapes)))
  {
    if shapes != [] {
      NeedIs(shapes[|shapes| - 1]);
    }
    hide Need;
    hide TreeOf;
  }

  lemma {:induction false} MaxJoin(a: nat, b: nat, c: nat)
    requires b <= a
    ensures Max(a, Max(b, c)) == Max(a, c)
  {
  }

  lemma {:induction false} TopUnfold(rest: seq<Shape>, s: Shape, p: Peer, six: bool)
    requires s.Bin?
    ensures Rank(rest + [s]) == Rank(rest) + 1 + Count(s.left) + Count(s.right)
    ensures Pending(rest + [s], p, six)
         == Own(s, p, six) + (Prefixes(TreeOf(s.right), p, six)
                              + (Prefixes(TreeOf(s.left), p, six) + Pending(rest, p, six)))
  {
    RankSnoc(rest, s);
    PendingSnoc(rest, s, p, six);
    PrefixesUnfold(s, p, six, Pending(rest, p, six));
  }

  lemma {:induction false} RankEmpty(rest: seq<Shape>, s: Shape)
    ensures Rank(rest + (if s.Empty? then [] else [s])) == Rank(rest) + Count(s)
  {
    if s.Empty? {
      assert rest + [] == rest;
    } else {
      RankSnoc(rest, s);
    }
  }

  lemma {:induction false} Weaker(s: Shape, under: Key, bits: nat)
    requires WellFormed(TreeOf(s), under, bits)
    ensures WellFormed(TreeOf(s), [], bits) && (s.Bin? ==> |s.node.Prefix()| >= |under|)
  {
    hide TrieNode.Prefix;
  }

  /** Nodes still to be visited. */
  ghost function Count(s: Shape): nat {
    if s.Empty? then 0 else 1 + Count(s.left) + Count(s.right)
  }

  ghost function Rank(shapes: seq<Shape>): nat {
    if shapes == [] then 0 else Count(shapes[|shapes| - 1]) + Rank(shapes[..|shapes| - 1])
  }

  lemma {:induction false} RankSnoc(shapes: seq<Shape>, s: Shape)
    ensures Rank(shapes + [s]) == Rank(shapes) + Count(s)
  {
    assert (shapes + [s])[..|shapes|] == shapes;
  }

  ghost function Unstarted(t: Trie, shapes: seq<Shape>, p: Peer): seq<Item>
    reads t
  {
    if shapes == [] then Prefixes(TreeOf(t.shape), p, t.bytes == 16) else Pending(shapes, p, t.bytes == 16)
  }

  /** The top of an empty walk is the root. */
  method Begin(t: Trie, c: Cursor, ghost p: Peer)
    requires t.Valid() && StackOf(t, c.stack, c.shapes) && (t.top == null ==> c.stack == [])
    requires |c.stack| <= c.deepest
    modifies c`stack, c`shapes, c`deepest
    ensures StackOf(t, c.stack, c.shapes) && (t.top == null ==> c.stack == []) && |c.stack| <= c.deepest
    ensures Max(c.deepest, Peak(c.shapes)) == Max(old(c.deepest), PeakFrom(t, old(c.shapes)))
    ensures Pending(c.shapes, p, t.bytes == 16) == Unstarted(t, old(c.shapes), p)
  {
    hide TrieNode.Prefix;
    hide WellFormed;
    if c.stack == [] {
      PeakPush([], t.shape);
      NeedIs(t.shape);
      Push(c, t.top, t, t.shape, p);
      assert [] + c.shapes == c.shapes;
    }
  }

  /** The call of the callback for the node on top of the stack. */
  method ReportTop(t: Trie, c: Cursor, p: Peer, sink: Sink) returns (ret: int, ghost items: seq<Item>)
    requires t.Valid() && StackOf(t, c.stack, c.shapes) && c.stack != []
    modifies sink
    ensures |sink.reports| == |old(sink.reports)| + |items| && sink.reports[..|old(sink.reports)|] == old(sink.reports)
    ensures ShowsAll(sink.reports[|old(sink.reports)|..], items)
    ensures c.shapes[|c.shapes| - 1].Bin?
    ensures items == if ret == 0 then Own(c.shapes[|c.shapes| - 1], p, t.bytes == 16) else []
    ensures ret != 0 ==> Own(c.shapes[|c.shapes| - 1], p, t.bytes == 16) != []
    ensures (items == [] ==> sink.room == old(sink.room)) && sink.room <= old(sink.room)
    ensures (ret != 0 ==> sink.room < MAX_COST)
  {
    hide *;
    StackHeight(t, c);
    TopNode(t, c);
    var node := c.stack[|c.stack| - 1];
    ghost var s := c.shapes[|c.shapes| - 1];
    OwnIs(s, p, t.bytes == 16);
    NothingShown();
    ret, items := 0, [];
    if node.peer == Some(p) {
      MaskedRequires(node, t.bytes);
      var r := Report(MaskedAddress(node.bits, node.cidr), node.cidr, t.bytes == 16);
      ReportShows(node, t.bytes);
      CostBound(r);
      ret := sink.Emit(r);
      if ret == 0 {
        items := [Item(t.bytes == 16, node.Prefix())];
        OneShown(r, items[0]);
        assert sink.reports[|old(sink.reports)|..] == [r];
      } else {
        assert sink.reports[|old(sink.reports)|..] == [];
      }
    } else {
      assert sink.reports[|old(sink.reports)|..] == [];
    }
  }

  lemma {:induction false} CostBound(r: Report)
    ensures Cost(r) <= MAX_COST
  {
  }

  lemma {:induction false} TopNode(t: Trie, c: Cursor)
    requires t.Valid() && StackOf(t, c.stack, c.shapes) && c.stack != []
    ensures var n, s := c.stack[|c.stack| - 1], c.shapes[|c.shapes| - 1];
      s.Bin? && n == s.node && n.Good(t.bytes) && n.peer == s.peer
  {
  }

  lemma {:induction false} StackHeight(t: Trie, c: Cursor)
    requires StackOf(t, c.stack, c.shapes)
    ensures |c.stack| == |c.shapes|
  {
  }

  lemma {:induction false} OwnIs(s: Shape, p: Peer, v6: bool)
    requires s.Bin?
    ensures Own(s, p, v6) == if s.peer == Some(p) then [Item(v6, s.node.Prefix())] else []
  {
  }

  lemma {:induction false} MaskedRequires(n: TrieNode, bytes: nat)
    requires n.Good(bytes)
    ensures IsAddress(n.bits) && n.cidr <= 8 * |n.bits|
  {
  }

  lemma {:induction false} NothingShown()
    ensures ShowsAll([], [])
  {
  }

  lemma {:induction false} OneShown(r: Report, i: Item)
    requires Shows(r, i)
    ensures ShowsAll([r], [i])
  {
  }

  lemma {:induction false} MoreShown(a: seq<Report>, x: seq<Item>, b: seq<Report>, y: seq<Item>)
    requires ShowsAll(a, x) && ShowsAll(b, y)
    ensures ShowsAll(a + b, x + y)
  {
  }

  lemma {:induction false} Joined(was: seq<Report>, before: seq<Report>, now: seq<Report>, x: seq<Item>, y: seq<Item>)
    requires |was| <= |before| <= |now| && before[..|was|] == was && now[..|before|] == before
    requires ShowsAll(before[|was|..], x) && ShowsAll(now[|before|..], y)
    ensures now[..|was|] == was && ShowsAll(now[|was|..], x + y)
  {
    hide Shows;
    MoreShown(before[|was|..], x, now[|before|..], y);
    assert now[|was|..] == before[|was|..] + now[|before|..];
    assert now[..|was|] == before[..|was|];
  }

  /** walk_by_peer: what it reports and what it leaves on the stack together are what
      was pending; the node whose report failed stays on top. The most entries the stack holds
      is what the tree needs, over any number of calls. */
  method WalkByPeer(t: Trie, c: Cursor, p: Peer, sink: Sink) returns (ret: int, ghost items: seq<Item>)
    requires t.Valid() && StackOf(t, c.stack, c.shapes) && (t.top == null ==> c.stack == [])
    requires |c.stack| <= c.deepest
    modifies c`stack, c`shapes, c`deepest, sink
    ensures StackOf(t, c.stack, c.shapes) && |c.stack| <= 8 * t.bytes + 1 && |c.stack| <= c.deepest
    ensures Max(c.deepest, Peak(c.shapes)) == Max(old(c.deepest), old(PeakFrom(t, c.shapes)))
    ensures |sink.reports| >= |old(sink.reports)| && sink.reports[..|old(sink.reports)|] == old(sink.reports)
    ensures ShowsAll(sink.reports[|old(sink.reports)|..], items)
    ensures items + Pending(c.shapes, p, t.bytes == 16) == Unstarted(t, old(c.shapes), p)
    ensures (ret == 0 <==> c.stack == []) && (t.top == null ==> c.stack == [])
    ensures ret != 0 ==> Pending(c.shapes, p, t.bytes == 16) != []
    ensures (items == [] ==> sink.room == old(sink.room)) && sink.room <= old(sink.room)
    ensures (ret != 0 ==> sink.room < MAX_COST)
  {
    hide *;
    items := [];
    ret := 0;
    ghost var was, start, six := sink.reports, Unstarted(t, c.shapes, p), t.bytes == 16;
    NothingShown();
    assert was[|was|..] == [];
    Begin(t, c, p);
    while |c.stack| > 0
      invariant |c.stack| <= c.deepest
      invariant Max(c.deepest, Peak(c.shapes)) == Max(old(c.deepest), old(PeakFrom(t, c.shapes)))
      invariant StackOf(t, c.stack, c.shapes) && (t.top == null ==> c.stack == [])
      invariant |sink.reports| >= |was| && sink.reports[..|was|] == was
      invariant ShowsAll(sink.reports[|was|..], items)
      invariant items + Pending(c.shapes, p, six) == start
      invariant (items == [] ==> sink.room == old(sink.room)) && sink.room <= old(sink.room)
      decreases Rank(c.shapes)
    {
      StackBound(t, c.stack, c.shapes);
      ghost var all, before := c.shapes, sink.reports;
      ghost var more;
      ret, more := ReportTop(t, c, p, sink);
      Joined(was, before, sink.reports, items, more);
      items := items + more;
      if ret != 0 {
        StackHeight(t, c);
        PendingTop(c.shapes, p, six);
        return;
      }
      Replace(c, t, p);
    }
  }
}
