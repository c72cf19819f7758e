/** The meaning of the allowed-IPs trie: a compressed binary tree over bit strings,
    the map of prefixes it stands for, and longest-prefix match on that map. */
module PrefixTree {
  import opened Options

  /** An address or prefix, most significant bit first. */
  type Key = seq<bool>

  type Peer = nat

  datatype Tree = Nil | Node(prefix: Key, peer: Option<Peer>, left: Tree, right: Tree)

  function Child(t: Tree, b: bool): Tree
    requires t.Node?
  {
    if b then t.right else t.left
  }

  function WithChild(t: Tree, b: bool, c: Tree): Tree
    requires t.Node?
  {
    if b then t.(right := c) else t.(left := c)
  }

  function Leaf(k: Key, peer: Option<Peer>): Tree {
    Node(k, peer, Nil, Nil)
  }

  /** Every node extends the prefix of its parent by the bit of the side it hangs on. */
  ghost predicate WellFormed(t: Tree, under: Key, bits: nat) {
    t.Node? ==>
      && under <= t.prefix && |t.prefix| <= bits
      && WellFormed(t.left, t.prefix + [false], bits)
      && WellFormed(t.right, t.prefix + [true], bits)
  }

  /** Number of leading bits two strings share. */
  function Common(a: Key, b: Key): (n: nat)
    ensures n <= |a| && n <= |b|
  {
    if a == [] || b == [] || a[0] != b[0] then 0 else 1 + Common(a[1..], b[1..])
  }

  lemma {:induction false} CommonIs(a: Key, b: Key)
    ensures var n := Common(a, b);
            a[..n] == b[..n] && (n < |a| && n < |b| ==> a[n] != b[n])
  {
    if !(a == [] || b == [] || a[0] != b[0]) {
      CommonIs(a[1..], b[1..]);
      var n := Common(a[1..], b[1..]);
      assert a[..n + 1] == [a[0]] + a[1..][..n];
      assert b[..n + 1] == [b[0]] + b[1..][..n];
    }
  }

  /** Those two facts determine the number. */
  lemma {:induction false} CommonUnique(a: Key, b: Key, n: nat)
    requires n <= |a| && n <= |b| && (n == |a| || n == |b| || a[n] != b[n])
    requires forall i | 0 <= i < n :: a[i] == b[i]
    ensures Common(a, b) == n
  {
    if n > 0 {
      assert a[0] == b[0];
      forall i | 0 <= i < n - 1 ensures a[1..][i] == b[1..][i] {
        assert a[i + 1] == b[i + 1];
      }
      CommonUnique(a[1..], b[1..], n - 1);
    }
  }

  // ---------- operations

  /** Deepest prefix of x that carries a peer. */
  function Lookup(t: Tree, x: Key): Option<Peer> {
    if t.Nil? || !(t.prefix <= x) then None
    else
      var deeper := if |t.prefix| == |x| then None else Lookup(Child(t, x[|t.prefix|]), x);
      if deeper.Some? then deeper else t.peer
  }

  /** Adds or overwrites prefix k, splitting an edge where the paths part. */
  function Insert(t: Tree, k: Key, p: Peer): (r: Tree)
    ensures r.Node?
  {
    if t.Nil? then Leaf(k, Some(p))
    else if t.prefix <= k then
      if |t.prefix| == |k| then t.(peer := Some(p))
      else
        var b := k[|t.prefix|];
        WithChild(t, b, Insert(Child(t, b), k, p))
    else Split(t, k, p)
  }

  /** A new node above t, or a glue node above both. */
  function Split(t: Tree, k: Key, p: Peer): (r: Tree)
    requires t.Node? && !(t.prefix <= k)
    ensures r.Node?
  {
    CommonIs(t.prefix, k);
    var n := Common(t.prefix, k);
    if n == |k| then WithChild(Leaf(k, Some(p)), t.prefix[n], t)
    else WithChild(WithChild(Leaf(k[..n], None), t.prefix[n], t), k[n], Leaf(k, Some(p)))
  }

  /** Drops every prefix of p; a node left with at most one child is spliced out. */
  function Remove(t: Tree, p: Peer): Tree {
    if t.Nil? then Nil
    else RemoveTop(t.(left := Remove(t.left, p), right := Remove(t.right, p)), p)
  }

  function RemoveTop(t: Tree, p: Peer): Tree
    requires t.Node?
  {
    if t.peer != Some(p) then t
    else if t.left.Nil? then t.right
    else if t.right.Nil? then t.left
    else t.(peer := None)
  }

  // ---------- the map behind the tree

  ghost function Own(k: Key, peer: Option<Peer>): map<Key, Peer> {
    if peer.Some? then map[k := peer.value] else map[]
  }

  ghost function Entries(t: Tree): map<Key, Peer> {
    if t.Nil? then map[] else Entries(t.left) + Entries(t.right) + Own(t.prefix, t.peer)
  }

  /** The longest of the n shortest prefixes of x that the map holds. */
  ghost function Match(m: map<Key, Peer>, x: Key, n: nat): Option<Peer>
    requires n <= |x|
  {
    if x[..n] in m then Some(m[x[..n]])
    else if n == 0 then None else Match(m, x, n - 1)
  }

  ghost function LongestMatch(m: map<Key, Peer>, x: Key): Option<Peer> {
    Match(m, x, |x|)
  }

  lemma {:induction false} EntriesUnder(t: Tree, under: Key, bits: nat)
    requires WellFormed(t, under, bits)
    ensures forall k | k in Entries(t) :: under <= k && |k| <= bits
  {
    if t.Node? {
      EntriesUnder(t.left, t.prefix + [false], bits);
      EntriesUnder(t.right, t.prefix + [true], bits);
      forall k | k in Entries(t) ensures under <= k && |k| <= bits {
        if k in Entries(t.left) { assert t.prefix + [false] <= k; Extends(t.prefix, false, k); }
        if k in Entries(t.right) { assert t.prefix + [true] <= k; Extends(t.prefix, true, k); }
        assert t.prefix <= k;
        PrefixTrans(under, t.prefix, k);
      }
    }
  }

  lemma {:induction false} Extends(p: Key, b: bool, k: Key)
    requires p + [b] <= k
    ensures p <= k && |p| < |k| && k[|p|] == b
  {
    assert (p + [b])[|p|] == b;
    assert p == (p + [b])[..|p|] == k[..|p|];
  }

  lemma {:induction false} PrefixTrans(a: Key, b: Key, c: Key)
    requires a <= b && b <= c
    ensures a <= c
  {
  }

  lemma {:induction false} NotPrefix(a: Key, b: Key, c: Key)
    requires b <= c && (|a| > |b| || !(a <= c))
    ensures !(a <= b)
  {
  }

  // ---------- lookup

  /** Keys of the other side, or below a mismatch, are no prefixes of x. */
  lemma {:induction false} MatchNone(m: map<Key, Peer>, x: Key, n: nat)
    requires n <= |x| && forall i | 0 <= i <= n :: x[..i] !in m
    ensures Match(m, x, n) == None
  {
    if n > 0 { MatchNone(m, x, n - 1); }
  }

  /** Shorter prefixes count only when no longer one is held. */
  lemma {:induction false} MatchStep(m: map<Key, Peer>, d: map<Key, Peer>, x: Key, n: nat, j: nat)
    requires j <= n <= |x|
    requires forall i | j < i <= n :: (x[..i] in m <==> x[..i] in d) && (x[..i] in m ==> m[x[..i]] == d[x[..i]])
    requires forall i | 0 <= i <= j :: x[..i] !in d
    ensures Match(m, x, n) == if Match(d, x, n).Some? then Match(d, x, n) else Match(m, x, j)
    decreases n
  {
    if n > j {
      if x[..n] !in m { MatchStep(m, d, x, n - 1, j); }
    } else {
      MatchNone(d, x, n);
    }
  }

  /** The trie walk finds the longest match. */
  lemma {:induction false} LookupLongest(t: Tree, under: Key, bits: nat, x: Key)
    requires WellFormed(t, under, bits) && |x| == bits
    ensures Lookup(t, x) == LongestMatch(Entries(t), x)
  {
    var m := Entries(t);
    if t.Nil? {
      MatchNone(m, x, |x|);
    } else if !(t.prefix <= x) {
      NodeEntries(t, under, bits);
      forall i | 0 <= i <= |x| ensures x[..i] !in m {
        if x[..i] in m { PrefixTrans(t.prefix, x[..i], x); }
      }
      MatchNone(m, x, |x|);
    } else {
      NodeEntries(t, under, bits);
      var j := |t.prefix|;
      assert x[..j] == t.prefix;
      BelowPrefix(t, under, bits, x);
      if j < |x| {
        var c := Child(t, x[j]);
        LookupLongest(c, t.prefix + [x[j]], bits, x);
        var d := Entries(c);
        forall i | 0 <= i <= j ensures x[..i] !in d {
          if x[..i] in d { EntriesUnder(c, t.prefix + [x[j]], bits); }
        }
        forall i | j < i <= |x| ensures (x[..i] in m <==> x[..i] in d) && (x[..i] in m ==> m[x[..i]] == d[x[..i]]) {
          SideEntries(t, under, bits, x[..i]);
        }
        MatchStep(m, d, x, |x|, j);
      }
    }
  }

  /** All keys of a node extend its prefix. */
  lemma {:induction false} NodeEntries(t: Tree, under: Key, bits: nat)
    requires t.Node? && WellFormed(t, under, bits)
    ensures forall k | k in Entries(t) :: t.prefix <= k
  {
    assert WellFormed(t, t.prefix, bits);
    EntriesUnder(t, t.prefix, bits);
  }

  /** At the node's own prefix the map holds the node's own peer, and nothing shorter. */
  lemma {:induction false} BelowPrefix(t: Tree, under: Key, bits: nat, x: Key)
    requires t.Node? && WellFormed(t, under, bits) && t.prefix <= x
    ensures Match(Entries(t), x, |t.prefix|) == t.peer
  {
    var m, j := Entries(t), |t.prefix|;
    assert x[..j] == t.prefix;
    NodeEntries(t, under, bits);
    OwnEntry(t, under, bits);
    if t.peer == None {
      forall i | 0 <= i <= j ensures x[..i] !in m {
      }
      MatchNone(m, x, j);
    }
  }

  lemma {:induction false} OwnEntry(t: Tree, under: Key, bits: nat)
    requires t.Node? && WellFormed(t, under, bits)
    ensures t.prefix !in Entries(t.left) && t.prefix !in Entries(t.right)
    ensures t.prefix in Entries(t) <==> t.peer.Some?
    ensures t.peer.Some? ==> Entries(t)[t.prefix] == t.peer.value
  {
    EntriesUnder(t.left, t.prefix + [false], bits);
    EntriesUnder(t.right, t.prefix + [true], bits);
  }

  /** A longer key is held by the child on its side or not at all. */
  lemma {:induction false} SideEntries(t: Tree, under: Key, bits: nat, k: Key)
    requires t.Node? && WellFormed(t, under, bits) && t.prefix < k
    ensures var d := Entries(Child(t, k[|t.prefix|]));
            (k in Entries(t) <==> k in d) && (k in d ==> Entries(t)[k] == d[k])
  {
    EntriesUnder(t.left, t.prefix + [false], bits);
    EntriesUnder(t.right, t.prefix + [true], bits);
    if k in Entries(t.left) { Extends(t.prefix, false, k); }
    if k in Entries(t.right) { Extends(t.prefix, true, k); }
  }

  // ---------- maps of three parts

  lemma {:induction false} UpdateLeft(a: map<Key, Peer>, b: map<Key, Peer>, o: map<Key, Peer>, k: Key, p: Peer)
    requires k !in b && k !in o
    ensures a[k := p] + b + o == (a + b + o)[k := p]
  {
  }

  lemma {:induction false} UpdateRight(a: map<Key, Peer>, b: map<Key, Peer>, o: map<Key, Peer>, k: Key, p: Peer)
    requires k !in o
    ensures a + b[k := p] + o == (a + b + o)[k := p]
  {
  }

  lemma {:induction false} UpdateOwn(a: map<Key, Peer>, b: map<Key, Peer>, k: Key, p: Peer, o: Option<Peer>)
    ensures a + b + Own(k, Some(p)) == (a + b + Own(k, o))[k := p]
  {
  }

  lemma {:induction false} AddOne(m: map<Key, Peer>, k: Key, p: Peer)
    ensures m + map[] + map[k := p] == m[k := p] && m + map[k := p] + map[] == m[k := p]
  {
  }

  // ---------- insertion

  /** Insertion keeps the tree well formed and updates the map at one key. */
  lemma {:induction false} InsertEntries(t: Tree, under: Key, bits: nat, k: Key, p: Peer)
    requires WellFormed(t, under, bits) && under <= k && |k| <= bits
    ensures WellFormed(Insert(t, k, p), under, bits)
    ensures Entries(Insert(t, k, p)) == Entries(t)[k := p]
  {
    if t.Nil? {
      LeafEntries(k, p);
    } else if t.prefix <= k {
      if |t.prefix| == |k| {
        assert t.prefix == k;
        UpdateOwn(Entries(t.left), Entries(t.right), k, p, t.peer);
      } else {
        var b := k[|t.prefix|];
        assert t.prefix + [b] <= k;
        InsertEntries(Child(t, b), t.prefix + [b], bits, k, p);
        InsertBelow(t, under, bits, k, p, Insert(Child(t, b), k, p));
      }
    } else {
      SplitEntries(t, under, bits, k, p);
    }
  }

  lemma {:induction false} LeafEntries(k: Key, p: Peer)
    ensures Entries(Leaf(k, Some(p))) == map[k := p] && Entries(Leaf(k, None)) == map[]
  {
  }

  lemma {:induction false} InsertBelow(t: Tree, under: Key, bits: nat, k: Key, p: Peer, d: Tree)
    requires t.Node? && WellFormed(t, under, bits) && t.prefix < k
    requires var b := k[|t.prefix|];
             WellFormed(d, t.prefix + [b], bits) && Entries(d) == Entries(Child(t, b))[k := p]
    ensures WellFormed(WithChild(t, k[|t.prefix|], d), under, bits)
    ensures Entries(WithChild(t, k[|t.prefix|], d)) == Entries(t)[k := p]
  {
    var l, r, o := Entries(t.left), Entries(t.right), Own(t.prefix, t.peer);
    assert Entries(t) == l + r + o;
    assert k !in o;
    if k[|t.prefix|] {
      assert Entries(t.(right := d)) == l + Entries(d) + o;
      hide Entries;
      UpdateRight(l, r, o, k, p);
    } else {
      EntriesUnder(t.right, t.prefix + [true], bits);
      if k in r { Extends(t.prefix, true, k); }
      assert Entries(t.(left := d)) == Entries(d) + r + o;
      hide Entries;
      UpdateLeft(l, r, o, k, p);
    }
  }

  lemma {:induction false} CutGrows(k: Key, n: nat)
    requires n < |k|
    ensures k[..n] <= k && k[..n] + [k[n]] == k[..n + 1] <= k
  {
  }

  lemma {:induction false} LeafWellFormed(k: Key, p: Peer, under: Key, bits: nat)
    requires under <= k && |k| <= bits
    ensures WellFormed(Leaf(k, Some(p)), under, bits)
  {
    assert WellFormed(Nil, k + [false], bits) && WellFormed(Nil, k + [true], bits);
  }

  lemma {:induction false} SplitEntries(t: Tree, under: Key, bits: nat, k: Key, p: Peer)
    requires t.Node? && WellFormed(t, under, bits) && under <= k && |k| <= bits && !(t.prefix <= k)
    ensures WellFormed(Split(t, k, p), under, bits)
    ensures Entries(Split(t, k, p)) == Entries(t)[k := p]
  {
    var n := Common(t.prefix, k);
    CommonIs(t.prefix, k);
    SharedUnder(t, under, k);
    NodeEntries(t, under, bits);
    assert k !in Entries(t);
    CutGrows(t.prefix, n);
    if n == |k| {
      assert k == t.prefix[..n];
      NewParent(t, under, bits, k, Some(p), t.prefix[n], Nil);
      AddOne(Entries(t), k, p);
    } else {
      var g := k[..n];
      CutGrows(k, n);
      LeafEntries(k, p);
      LeafWellFormed(k, p, g + [k[n]], bits);
      assert k[n] == !t.prefix[n];
      NewParent(t, under, bits, g, None, t.prefix[n], Leaf(k, Some(p)));
      AddOne(Entries(t), k, p);
    }
  }

  /** A new node over t on side b and c on the other side. */
  lemma {:induction false} NewParent(t: Tree, under: Key, bits: nat, g: Key, o: Option<Peer>, b: bool, c: Tree)
    requires t.Node? && WellFormed(t, under, bits) && under <= g && g + [b] <= t.prefix
    requires WellFormed(c, g + [!b], bits)
    requires Entries(t).Keys !! Entries(c).Keys
    ensures var r := WithChild(WithChild(Leaf(g, o), b, t), !b, c);
            WellFormed(r, under, bits) && Entries(r) == Entries(t) + Entries(c) + Own(g, o)
  {
    Extends(g, b, t.prefix);
    assert WellFormed(t, g + [b], bits);
    var r := WithChild(WithChild(Leaf(g, o), b, t), !b, c);
    assert Entries(r) == if b then Entries(c) + Entries(t) + Own(g, o) else Entries(t) + Entries(c) + Own(g, o);
    hide Entries;
    assert Entries(c) + Entries(t) == Entries(t) + Entries(c);
  }

  /** The point where two extensions of one prefix part lies below that prefix. */
  lemma {:induction false} SharedUnder(t: Tree, under: Key, k: Key)
    requires t.Node? && under <= t.prefix && under <= k && !(t.prefix <= k)
    ensures |under| <= Common(t.prefix, k) < |t.prefix| && under <= k[..Common(t.prefix, k)]
  {
    CommonIs(t.prefix, k);
    CommonAtLeast(t.prefix, k, |under|);
  }

  lemma {:induction false} CommonAtLeast(a: Key, b: Key, n: nat)
    requires n <= |a| && n <= |b| && a[..n] == b[..n]
    ensures n <= Common(a, b)
  {
    if n > 0 {
      assert a[0] == a[..n][0] && b[0] == b[..n][0];
      assert a[1..][..n - 1] == a[..n][1..] && b[1..][..n - 1] == b[..n][1..];
      CommonAtLeast(a[1..], b[1..], n - 1);
    }
  }

  // ---------- removal

  /** The map without the prefixes of p. */
  ghost function Without(m: map<Key, Peer>, p: Peer): map<Key, Peer> {
    map k | k in m && m[k] != p :: m[k]
  }

  /** No prefix of p is left. */
  predicate Clean(t: Tree, p: Peer) {
    t.Node? ==> t.peer != Some(p) && Clean(t.left, p) && Clean(t.right, p)
  }

  /** Removal keeps the tree well formed and drops exactly the prefixes of p. */
  lemma {:induction false} RemoveEntries(t: Tree, under: Key, bits: nat, p: Peer)
    requires WellFormed(t, under, bits)
    ensures WellFormed(Remove(t, p), under, bits) && Clean(Remove(t, p), p)
    ensures Entries(Remove(t, p)) == Without(Entries(t), p)
  {
    if t.Node? {
      RemoveEntries(t.left, t.prefix + [false], bits, p);
      RemoveEntries(t.right, t.prefix + [true], bits, p);
      var l, r := Remove(t.left, p), Remove(t.right, p);
      hide Remove;
      var u := t.(left := l, right := r);
      assert Remove(t, p) == RemoveTop(u, p) by { RemoveUnfolds(t, p); }
      EntriesUnder(t.left, t.prefix + [false], bits);
      EntriesUnder(t.right, t.prefix + [true], bits);
      SplicedEntries(t, u, under, bits, p);
    }
  }

  lemma {:induction false} RemoveUnfolds(t: Tree, p: Peer)
    requires t.Node?
    ensures Remove(t, p) == RemoveTop(t.(left := Remove(t.left, p), right := Remove(t.right, p)), p)
  {
  }

  lemma {:induction false} SplicedEntries(t: Tree, u: Tree, under: Key, bits: nat, p: Peer)
    requires t.Node? && WellFormed(t, under, bits) && u.Node? && u.prefix == t.prefix && u.peer == t.peer
    requires WellFormed(u.left, t.prefix + [false], bits) && WellFormed(u.right, t.prefix + [true], bits)
    requires Clean(u.left, p) && Clean(u.right, p)
    requires Entries(u.left) == Without(Entries(t.left), p) && Entries(u.right) == Without(Entries(t.right), p)
    requires forall k | k in Entries(t.left) :: t.prefix + [false] <= k
    requires forall k | k in Entries(t.right) :: t.prefix + [true] <= k
    ensures WellFormed(RemoveTop(u, p), under, bits) && Clean(RemoveTop(u, p), p)
    ensures Entries(RemoveTop(u, p)) == Without(Entries(t), p)
  {
    SplicedShape(u, under, bits, p);
    var l, r, o := Entries(t.left), Entries(t.right), Own(t.prefix, t.peer);
    assert Entries(t) == l + r + o;
    assert t.prefix !in l && t.prefix !in r;
    TopEntries(u, p);
    hide Entries;
    hide Without;
    hide WellFormed;
    hide RemoveTop;
    hide Clean;
    Sides(t.prefix, l, r);
    WithoutSum(l, r, o, p);
  }

  lemma {:induction false} SplicedShape(u: Tree, under: Key, bits: nat, p: Peer)
    requires u.Node? && under <= u.prefix && |u.prefix| <= bits
    requires WellFormed(u.left, u.prefix + [false], bits) && WellFormed(u.right, u.prefix + [true], bits)
    requires Clean(u.left, p) && Clean(u.right, p)
    ensures WellFormed(RemoveTop(u, p), under, bits) && Clean(RemoveTop(u, p), p)
  {
    if u.right.Node? { Extends(u.prefix, true, u.right.prefix); }
    if u.left.Node? { Extends(u.prefix, false, u.left.prefix); }
  }

  lemma {:induction false} TopEntries(u: Tree, p: Peer)
    requires u.Node?
    ensures Entries(RemoveTop(u, p)) == Entries(u.left) + Entries(u.right) + Without(Own(u.prefix, u.peer), p)
  {
    if u.peer == Some(p) {
      assert Without(Own(u.prefix, u.peer), p) == map[];
    } else {
      assert Without(Own(u.prefix, u.peer), p) == Own(u.prefix, u.peer);
    }
  }

  lemma {:induction false} Sides(k: Key, l: map<Key, Peer>, r: map<Key, Peer>)
    requires forall x | x in l :: k + [false] <= x
    requires forall x | x in r :: k + [true] <= x
    ensures l.Keys !! r.Keys
  {
    forall x | x in l && x in r ensures false {
      Extends(k, false, x);
      Extends(k, true, x);
    }
  }

  lemma {:induction false} WithoutSum(a: map<Key, Peer>, b: map<Key, Peer>, o: map<Key, Peer>, p: Peer)
    requires a.Keys !! b.Keys && a.Keys !! o.Keys && b.Keys !! o.Keys
    ensures Without(a, p) + Without(b, p) + Without(o, p) == Without(a + b + o, p)
  {
  }

  /** A clean tree is left alone, so removing twice is removing once. */
  lemma {:induction false} RemoveClean(t: Tree, p: Peer)
    requires Clean(t, p)
    ensures Remove(t, p) == t
  {
    if t.Node? {
      RemoveClean(t.left, p);
      RemoveClean(t.right, p);
    }
  }
}
