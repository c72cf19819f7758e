/** The kernel's trie, the daemon's trie and the reference list of the self-test, given the
    same routes. */
module RouteAgreement {
  import opened Bits
  import opened Options
  import opened PrefixTree
  import opened AddressBits
  import GoTrie
  import opened AllowedIpsTable
  import opened RouteList

  /** A route as it is configured: an address in network order and a prefix length. */
  datatype Route = Route(v6: bool, ip: seq<u8>, cidr: nat, peer: Peer)

  predicate Proper(r: Route) {
    |r.ip| == (if r.v6 then 16 else 4) && r.cidr <= 8 * |r.ip|
  }

  function RuleOf(r: Route): Rule
    requires Proper(r)
  {
    Rule(r.v6, ToBits(r.ip)[..r.cidr], r.peer)
  }

  ghost function RulesOf(rs: seq<Route>): (rules: seq<Rule>)
    requires forall i | 0 <= i < |rs| :: Proper(rs[i])
    ensures |rules| == |rs| && forall i | 0 <= i < |rs| :: Fits(rules[i])
  {
    if rs == [] then [] else RulesOf(rs[..|rs| - 1]) + [RuleOf(rs[|rs| - 1])]
  }

  lemma {:induction false} RulesSnoc(rs: seq<Route>, i: nat)
    requires i < |rs| && forall j | 0 <= j < |rs| :: Proper(rs[j])
    ensures InsertAll(RulesOf(rs[..i + 1])) == InsertRule(InsertAll(RulesOf(rs[..i])), RuleOf(rs[i]))
    ensures PlaceAll(RulesOf(rs[..i + 1])) == Place(PlaceAll(RulesOf(rs[..i])), RuleOf(rs[i]))
  {
    assert rs[..i + 1][..i] == rs[..i];
    var rules := RulesOf(rs[..i + 1]);
    assert rules == RulesOf(rs[..i]) + [RuleOf(rs[i])];
    assert rules[..i] == RulesOf(rs[..i]);
  }

  /** The kernel's answer after the routes have been added. */
  method Kernel(routes: seq<Route>, v6: bool, ip: seq<u8>) returns (peer: Option<Peer>)
    requires (forall i | 0 <= i < |routes| :: Proper(routes[i])) && |ip| == if v6 then 16 else 4
    ensures peer == FirstMatch(PlaceAll(RulesOf(routes)), v6, ToBits(ip))
  {
    hide ToBits;
    hide TrieHeap.TreeOf;
    hide PrefixTree.Insert;
    hide Place;
    hide InsertAll;
    hide PlaceAll;
    hide RulesOf;
    hide FirstMatch;
    var table := new Table();
    Beginning(table);
    for i := 0 to |routes|
      invariant fresh(table.v4) && fresh(table.v6) && fresh(table.v4.memory.Keys) && fresh(table.v6.memory.Keys)
      invariant fresh(table)
      invariant table.Valid() && InStep(table, InsertAll(RulesOf(routes[..i])))
    {
      RulesSnoc(routes, i);
      var r := routes[i];
      var ret := table.Insert(r.v6, r.ip, r.cidr, Some(r.peer), 2);
    }
    assert routes[..|routes|] == routes;
    peer := table.Lookup(v6, ip);
    TrieIsList(RulesOf(routes), v6, ToBits(ip));
    SameMaps(RulesOf(routes));
    var t := InsertAll(RulesOf(routes));
    LookupLongest(if v6 then t.v6 else t.v4, [], |ToBits(ip)|, ToBits(ip));
  }

  ghost predicate InStep(table: Table, t: Tries)
    reads table.v4, table.v6
  {
    TrieHeap.TreeOf(table.v4.shape) == t.v4 && TrieHeap.TreeOf(table.v6.shape) == t.v6
  }

  lemma {:induction false} Beginning(table: Table)
    requires table.v4.shape == TrieHeap.Empty && table.v6.shape == TrieHeap.Empty
    ensures InStep(table, InsertAll(RulesOf([])))
  {
  }

  /** The nodes of one family in the daemon. */
  ghost predicate Standing(root: GoTrie.Entry?, s: GoTrie.Shape, m: GoTrie.Memory, bytes: nat, t: Tree)
    reads m.Keys
  {
    GoTrie.Holds(m) && GoTrie.Linked(m, root, s, bytes) && GoTrie.Separate(s) && GoTrie.TreeOf(s) == t
  }

  /** The daemon's answer after the routes have been added. */
  method Daemon(routes: seq<Route>, v6: bool, ip: seq<u8>) returns (peer: Option<Peer>)
    requires (forall i | 0 <= i < |routes| :: Proper(routes[i])) && |ip| == if v6 then 16 else 4
    ensures peer == FirstMatch(PlaceAll(RulesOf(routes)), v6, ToBits(ip))
  {
    hide ToBits;
    hide GoTrie.TreeOf;
    hide GoTrie.Linked;
    hide GoTrie.Separate;
    hide GoTrie.Nodes;
    hide PrefixTree.Insert;
    hide Place;
    hide InsertAll;
    hide PlaceAll;
    hide RulesOf;
    hide FirstMatch;
    var root4: GoTrie.Entry?, root6: GoTrie.Entry? := null, null;
    ghost var s4, s6 := GoTrie.Empty, GoTrie.Empty;
    ghost var m4: GoTrie.Memory, m6: GoTrie.Memory := map[], map[];
    Empties();
    for i := 0 to |routes|
      invariant fresh(m4.Keys) && fresh(m6.Keys) && m4.Keys !! m6.Keys
      invariant Standing(root4, s4, m4, 4, InsertAll(RulesOf(routes[..i])).v4)
      invariant Standing(root6, s6, m6, 16, InsertAll(RulesOf(routes[..i])).v6)
    {
      RulesSnoc(routes, i);
      var r := routes[i];
      if r.v6 {
        root6, s6, m6 := GoTrie.Insert(root6, r.ip, r.cidr, r.peer, s6, m6);
      } else {
        root4, s4, m4 := GoTrie.Insert(root4, r.ip, r.cidr, r.peer, s4, m4);
      }
    }
    assert routes[..|routes|] == routes;
    if v6 {
      peer := GoTrie.Lookup(root6, ip, s6, m6);
    } else {
      peer := GoTrie.Lookup(root4, ip, s4, m4);
    }
    TrieIsList(RulesOf(routes), v6, ToBits(ip));
  }

  lemma {:induction false} Empties()
    ensures Standing(null, GoTrie.Empty, map[], 4, InsertAll(RulesOf([])).v4)
    ensures Standing(null, GoTrie.Empty, map[], 16, InsertAll(RulesOf([])).v6)
  {
  }

  /** The answer of the self-test's list. */
  method Reference(routes: seq<Route>, v6: bool, ip: seq<u8>) returns (peer: Option<Peer>)
    requires (forall i | 0 <= i < |routes| :: Proper(routes[i])) && |ip| == if v6 then 16 else 4
    ensures peer == FirstMatch(PlaceAll(RulesOf(routes)), v6, ToBits(ip))
  {
    hide ToBits;
    hide Place;
    hide InsertAll;
    hide FirstMatch;
    hide Sane;
    hide RouteList.RulesOf;
    var list := new List();
    for i := 0 to |routes|
      invariant fresh(list) && list.Valid() && RouteList.RulesOf(list.entries) == PlaceAll(RulesOf(routes[..i]))
    {
      RulesSnoc(routes, i);
      list.Insert(routes[i].v6, routes[i].ip, routes[i].cidr, routes[i].peer);
    }
    assert routes[..|routes|] == routes;
    peer := list.Lookup(v6, ip);
  }

  /** Every prefix of a family with the peer it was last given to. */
  ghost function Latest(rs: seq<Route>, v6: bool): map<Key, Peer>
    requires forall i | 0 <= i < |rs| :: Proper(rs[i])
  {
    if rs == [] then map[]
    else
      var r, m := rs[|rs| - 1], Latest(rs[..|rs| - 1], v6);
      if r.v6 == v6 then m[RuleOf(r).prefix := r.peer] else m
  }

  lemma {:induction false} LatestIs(rs: seq<Route>, v6: bool)
    requires forall i | 0 <= i < |rs| :: Proper(rs[i])
    ensures MapOf(PlaceAll(RulesOf(rs)), v6) == Latest(rs, v6)
  {
    hide ToBits;
    hide Place;
    if rs != [] {
      var n := |rs| - 1;
      LatestIs(rs[..n], v6);
      RulesSnoc(rs, n);
      assert rs[..n + 1] == rs;
      PlaceMap(PlaceAll(RulesOf(rs[..n])), RuleOf(rs[n]), v6);
    }
  }

  /** After any insertions, in any order and with routes given twice, the two tries and the list
      send every address to the same peer, and that is the longest match. */
  method LookupThrice(routes: seq<Route>, v6: bool, ip: seq<u8>)
    returns (kernel: Option<Peer>, daemon: Option<Peer>, reference: Option<Peer>)
    requires (forall i | 0 <= i < |routes| :: Proper(routes[i])) && |ip| == if v6 then 16 else 4
    ensures kernel == daemon == reference
    ensures reference == LongestMatch(Latest(routes, v6), ToBits(ip))
  {
    hide ToBits;
    kernel := Kernel(routes, v6, ip);
    daemon := Daemon(routes, v6, ip);
    reference := Reference(routes, v6, ip);
    SameMaps(RulesOf(routes));
    FirstIsLongest(PlaceAll(RulesOf(routes)), v6, ToBits(ip));
    LatestIs(routes, v6);
  }
}
