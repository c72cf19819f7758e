/** The reference the kernel's self-test compares the trie with: one list for both families, ordered by
    decreasing prefix length, answered by the first match. Addresses and masks are four words each. */
module RouteList {
  import opened Bits
  import opened Options
  import opened PrefixTree
  import opened AddressBits
  import opened Masks

  /** A route, with address and mask as one prefix. */
  datatype Rule = Rule(v6: bool, prefix: Key, value: Peer)

  predicate SameRoute(a: Rule, b: Rule) {
    a.v6 == b.v6 && a.prefix == b.prefix
  }

  function Place(rules: seq<Rule>, r: Rule): seq<Rule> {
    if rules == [] then [r]
    else if SameRoute(rules[0], r) then [rules[0].(value := r.value)] + rules[1..]
    else if |rules[0].prefix| <= |r.prefix| then [r] + rules
    else [rules[0]] + Place(rules[1..], r)
  }

  /** All rules are longer than the new one. */
  ghost predicate Longer(rules: seq<Rule>, r: Rule) {
    forall i | 0 <= i < |rules| :: |rules[i].prefix| > |r.prefix|
  }

  lemma {:induction false} PlaceAfter(front: seq<Rule>, rest: seq<Rule>, r: Rule)
    requires Longer(front, r)
    ensures rest == [] ==> Place(front + rest, r) == front + [r]
    ensures rest != [] && SameRoute(rest[0], r) ==>
      Place(front + rest, r) == front + ([rest[0].(value := r.value)] + rest[1..])
    ensures rest != [] && !SameRoute(rest[0], r) && |rest[0].prefix| <= |r.prefix| ==>
      Place(front + rest, r) == front + ([r] + rest)
  {
    if front == [] {
      assert front + rest == rest;
    } else {
      assert (front + rest)[1..] == front[1..] + rest;
      PlaceAfter(front[1..], rest, r);
      assert front == [front[0]] + front[1..];
    }
  }

  function FirstMatch(rules: seq<Rule>, v6: bool, x: Key): Option<Peer> {
    if rules == [] then None
    else if rules[0].v6 == v6 && rules[0].prefix <= x then Some(rules[0].value)
    else FirstMatch(rules[1..], v6, x)
  }

  ghost predicate Ordered(rules: seq<Rule>) {
    forall i, j | 0 <= i < j < |rules| :: |rules[i].prefix| >= |rules[j].prefix|
  }

  /** The map of one family: the first rule for a prefix wins. */
  ghost function MapOf(rules: seq<Rule>, v6: bool): map<Key, Peer> {
    if rules == [] then map[]
    else if rules[0].v6 == v6 then MapOf(rules[1..], v6)[rules[0].prefix := rules[0].value]
    else MapOf(rules[1..], v6)
  }

  lemma {:induction false} MapKeys(rules: seq<Rule>, v6: bool, n: nat)
    requires forall i | 0 <= i < |rules| :: |rules[i].prefix| <= n
    ensures forall k | k in MapOf(rules, v6) :: |k| <= n
  {
    if rules != [] { MapKeys(rules[1..], v6, n); }
  }

  lemma {:induction false} PlaceBound(rules: seq<Rule>, r: Rule, n: nat)
    requires |r.prefix| <= n && forall i | 0 <= i < |rules| :: |rules[i].prefix| <= n
    ensures forall i | 0 <= i < |Place(rules, r)| :: |Place(rules, r)[i].prefix| <= n
  {
    if rules != [] { PlaceBound(rules[1..], r, n); }
  }

  lemma {:induction false} PlaceOrdered(rules: seq<Rule>, r: Rule)
    requires Ordered(rules)
    ensures Ordered(Place(rules, r))
  {
    if rules != [] && !SameRoute(rules[0], r) && |rules[0].prefix| > |r.prefix| {
      PlaceOrdered(rules[1..], r);
      PlaceBound(rules[1..], r, |rules[0].prefix|);
      hide Place;
      OrderedCons(rules[0], Place(rules[1..], r));
    }
  }

  lemma {:induction false} OrderedCons(r: Rule, rules: seq<Rule>)
    requires Ordered(rules) && forall i | 0 <= i < |rules| :: |rules[i].prefix| <= |r.prefix|
    ensures Ordered([r] + rules)
  {
  }

  lemma {:induction false} MapCons(r: Rule, rules: seq<Rule>, v6: bool)
    ensures MapOf([r] + rules, v6) == if r.v6 == v6 then MapOf(rules, v6)[r.prefix := r.value] else MapOf(rules, v6)
  {
    assert ([r] + rules)[1..] == rules;
  }

  /** Insertion updates the map of its family at one key. */
  lemma {:induction false} PlaceMap(rules: seq<Rule>, r: Rule, v6: bool)
    ensures MapOf(Place(rules, r), v6) == if r.v6 == v6 then MapOf(rules, v6)[r.prefix := r.value] else MapOf(rules, v6)
  {
    if rules == [] || (!SameRoute(rules[0], r) && |rules[0].prefix| <= |r.prefix|) {
      hide MapOf;
      assert [r] + [] == [r];
      MapCons(r, rules, v6);
    } else {
      var h, rest := rules[0], rules[1..];
      assert rules == [h] + rest;
      if !SameRoute(h, r) { PlaceMap(rest, r, v6); }
      hide MapOf;
      MapCons(h, rest, v6);
      MapCons(h.(value := r.value), rest, v6);
      MapCons(h, Place(rest, r), v6);
    }
  }

  /** In an ordered list the first match is the longest. */
  lemma {:induction false} FirstIsLongest(rules: seq<Rule>, v6: bool, x: Key)
    requires Ordered(rules)
    ensures FirstMatch(rules, v6, x) == LongestMatch(MapOf(rules, v6), x)
  {
    var m := MapOf(rules, v6);
    if rules == [] {
      MatchNone(m, x, |x|);
    } else {
      var r := rules[0];
      if r.v6 == v6 && r.prefix <= x {
        MapKeys(rules, v6, |r.prefix|);
        assert x[..|r.prefix|] == r.prefix;
        MatchFrom(m, x, |x|, |r.prefix|);
      } else {
        FirstIsLongest(rules[1..], v6, x);
        MatchSame(m, MapOf(rules[1..], v6), x, |x|);
      }
    }
  }

  lemma {:induction false} MatchFrom(m: map<Key, Peer>, x: Key, n: nat, j: nat)
    requires j <= n <= |x| && x[..j] in m && forall k | k in m :: |k| <= j
    ensures Match(m, x, n) == Some(m[x[..j]])
    decreases n
  {
    if n > j { MatchFrom(m, x, n - 1, j); }
  }

  lemma {:induction false} MatchSame(m: map<Key, Peer>, d: map<Key, Peer>, x: Key, n: nat)
    requires n <= |x|
    requires forall i | 0 <= i <= n :: (x[..i] in m <==> x[..i] in d) && (x[..i] in m ==> m[x[..i]] == d[x[..i]])
    ensures Match(m, x, n) == Match(d, x, n)
    decreases n
  {
    if n > 0 { MatchSame(m, d, x, n - 1); }
  }

  // ---------- trie against list

  datatype Tries = Tries(v4: Tree, v6: Tree)

  /** One insertion into the trie of its family. */
  function InsertRule(t: Tries, r: Rule): Tries {
    if r.v6 then t.(v6 := Insert(t.v6, r.prefix, r.value)) else t.(v4 := Insert(t.v4, r.prefix, r.value))
  }

  function InsertAll(ops: seq<Rule>): Tries {
    if ops == [] then Tries(Nil, Nil) else InsertRule(InsertAll(ops[..|ops| - 1]), ops[|ops| - 1])
  }

  function PlaceAll(ops: seq<Rule>): seq<Rule> {
    if ops == [] then [] else Place(PlaceAll(ops[..|ops| - 1]), ops[|ops| - 1])
  }

  predicate Fits(r: Rule) {
    |r.prefix| <= if r.v6 then 128 else 32
  }

  lemma {:induction false} SameMaps(ops: seq<Rule>)
    requires forall i | 0 <= i < |ops| :: Fits(ops[i])
    ensures var t, l := InsertAll(ops), PlaceAll(ops);
      && WellFormed(t.v4, [], 32) && WellFormed(t.v6, [], 128) && Ordered(l)
      && Entries(t.v4) == MapOf(l, false) && Entries(t.v6) == MapOf(l, true)
  {
    if ops != [] {
      var r := ops[|ops| - 1];
      SameMaps(ops[..|ops| - 1]);
      var t, l := InsertAll(ops[..|ops| - 1]), PlaceAll(ops[..|ops| - 1]);
      hide Insert;
      hide Place;
      hide Entries;
      hide MapOf;
      hide WellFormed;
      PlaceOrdered(l, r);
      PlaceMap(l, r, false);
      PlaceMap(l, r, true);
      if r.v6 {
        InsertEntries(t.v6, [], 128, r.prefix, r.value);
      } else {
        InsertEntries(t.v4, [], 32, r.prefix, r.value);
      }
    }
  }

  /** After any insertions, looking an address up in the trie and in the list gives the same peer. */
  lemma {:induction false} TrieIsList(ops: seq<Rule>, v6: bool, x: Key)
    requires (forall i | 0 <= i < |ops| :: Fits(ops[i])) && |x| == if v6 then 128 else 32
    ensures var t := InsertAll(ops);
      PrefixTree.Lookup(if v6 then t.v6 else t.v4, x) == FirstMatch(PlaceAll(ops), v6, x)
  {
    SameMaps(ops);
    var t := InsertAll(ops);
    FirstIsLongest(PlaceAll(ops), v6, x);
    LookupLongest(if v6 then t.v6 else t.v4, [], |x|, x);
  }

  // ---------- the list as the self-test keeps it

  /** struct horrible_allowedips_node; IPv4 uses the first word of address and mask. */
  datatype Entry = Entry(ip: seq<u8>, mask: seq<u8>, v6: bool, value: Peer)

  /** The mask is one of a prefix length of the family, and the address is zero where the mask is. */
  ghost predicate Sane(e: Entry) {
    && |e.ip| == 16 && |e.mask| == 16
    && MaskToCidr(e.mask) <= (if e.v6 then 128 else 32) && e.mask == CidrToMask(MaskToCidr(e.mask))
    && forall i | MaskToCidr(e.mask) <= i < 128 :: !ToBits(e.ip)[i]
  }

  ghost function RuleOf(e: Entry): Rule
    requires Sane(e)
  {
    Rule(e.v6, ToBits(e.ip)[..MaskToCidr(e.mask)], e.value)
  }

  ghost function RulesOf(es: seq<Entry>): (rules: seq<Rule>)
    requires AllSane(es)
    ensures |rules| == |es| && forall i | 0 <= i < |es| :: rules[i] == RuleOf(es[i])
  {
    if es == [] then [] else [RuleOf(es[0])] + RulesOf(es[1..])
  }

  /** Comparing bytes is comparing routes. */
  predicate SameEntry(a: Entry, b: Entry) {
    a.mask == b.mask && a.ip == b.ip && a.v6 == b.v6
  }

  lemma {:induction false} SameEntryIs(a: Entry, b: Entry)
    requires Sane(a) && Sane(b)
    ensures SameEntry(a, b) <==> SameRoute(RuleOf(a), RuleOf(b))
    ensures |a.mask| == 16 && |RuleOf(a).prefix| == MaskToCidr(a.mask)
  {
    hide ToBits;
    hide MaskToCidr;
    hide CidrToMask;
    if SameRoute(RuleOf(a), RuleOf(b)) {
      var c := MaskToCidr(a.mask);
      forall i | 0 <= i < 128 ensures ToBits(a.ip)[i] == ToBits(b.ip)[i] {
        if i < c {
          assert RuleOf(a).prefix[i] == RuleOf(b).prefix[i];
        }
      }
      SameBits(a.ip, b.ip);
    }
  }

  lemma {:induction false} SameBits(a: seq<u8>, b: seq<u8>)
    requires |a| == |b| && ToBits(a) == ToBits(b)
    ensures a == b
  {
    hide ToBits;
    SameWord(a, b);
    XorNone(DecodeLittleEndian(a), DecodeLittleEndian(b));
    EncodeUnique(a);
    EncodeUnique(b);
  }

  lemma {:induction false} XorNone(x: nat, y: nat)
    requires Xor(x, y) == 0
    ensures x == y
  {
    XorCancels(x, y);
    XorZero(x);
  }

  /** The words that a family compares. */
  function Words(v6: bool): nat {
    if v6 then 4 else 1
  }

  function WordOf(s: seq<u8>, w: nat): (r: seq<u8>)
    requires 4 * w + 4 <= |s|
    ensures |r| == 4
  {
    s[4 * w..4 * w + 4]
  }

  lemma {:induction false} WordBits(s: seq<u8>, w: nat, i: nat)
    requires 4 * w + 4 <= |s| && i < 32
    ensures ToBits(WordOf(s, w))[i] == ToBits(s)[32 * w + i]
  {
    hide Bit;
    assert (32 * w + i) / 8 == 4 * w + i / 8 && (32 * w + i) % 8 == i % 8;
  }

  /** horrible_match_v4 and _v6 */
  method Matches(e: Entry, ip: seq<u8>) returns (yes: bool)
    requires Sane(e) && |ip| == (if e.v6 then 16 else 4)
    ensures yes == (RuleOf(e).prefix <= ToBits(ip))
  {
    hide ToBits;
    hide AndWord;
    hide MaskToCidr;
    hide CidrToMask;
    var w := 0;
    while w < Words(e.v6)
      invariant w <= Words(e.v6) && forall i | 0 <= i < 32 * w :: Agree(e, ip, i)
    {
      WordMatches(e, ip, w);
      if AndWord(WordOf(ip, w), WordOf(e.mask, w)) != WordOf(e.ip, w) {
        Differ(e, ip, w);
        return false;
      }
      w := w + 1;
    }
    AllAgree(e, ip);
    return true;
  }

  /** A bit of the address under the mask is that of the entry. */
  ghost predicate Agree(e: Entry, ip: seq<u8>, i: nat)
    requires |e.ip| == |e.mask| == 16 && i < 8 * |ip| <= 128
  {
    (ToBits(ip)[i] && ToBits(e.mask)[i]) == ToBits(e.ip)[i]
  }

  lemma {:induction false} WordMatches(e: Entry, ip: seq<u8>, w: nat)
    requires |e.ip| == |e.mask| == 16 && 4 * w + 4 <= |ip| <= 16
    ensures AndWord(WordOf(ip, w), WordOf(e.mask, w)) == WordOf(e.ip, w)
      <==> forall i | 32 * w <= i < 32 * w + 32 :: Agree(e, ip, i)
  {
    hide ToBits;
    hide AndWord;
    hide WordOf;
    var r, s := AndWord(WordOf(ip, w), WordOf(e.mask, w)), WordOf(e.ip, w);
    forall j | 0 <= j < 32 ensures (ToBits(r)[j] == ToBits(s)[j]) == Agree(e, ip, 32 * w + j) {
      AndWordBits(WordOf(ip, w), WordOf(e.mask, w), j);
      WordBits(ip, w, j);
      WordBits(e.mask, w, j);
      WordBits(e.ip, w, j);
    }
    hide Agree;
    if forall i | 32 * w <= i < 32 * w + 32 :: Agree(e, ip, i) {
      forall j | 0 <= j < 32 ensures ToBits(r)[j] == ToBits(s)[j] {
        assert Agree(e, ip, 32 * w + j);
      }
      SameBits(r, s);
    }
    if r == s {
      forall i | 32 * w <= i < 32 * w + 32 ensures Agree(e, ip, i) {
        assert ToBits(r)[i - 32 * w] == ToBits(s)[i - 32 * w];
        assert 32 * w + (i - 32 * w) == i;
      }
    }
  }

  /** The masked comparison tells whether the prefix matches. */
  lemma {:induction false} AgreeIs(e: Entry, ip: seq<u8>, i: nat)
    requires Sane(e) && |ip| == (if e.v6 then 16 else 4) && i < 8 * |ip|
    ensures Agree(e, ip, i) <==> (i < MaskToCidr(e.mask) ==> ToBits(ip)[i] == ToBits(e.ip)[i])
  {
    hide ToBits;
    hide MaskToCidr;
    hide CidrToMask;
    MaskBits(MaskToCidr(e.mask), i);
  }

  lemma {:induction false} AllAgree(e: Entry, ip: seq<u8>)
    requires Sane(e) && |ip| == (if e.v6 then 16 else 4) && forall i | 0 <= i < 8 * |ip| :: Agree(e, ip, i)
    ensures RuleOf(e).prefix <= ToBits(ip)
  {
    hide ToBits;
    hide MaskToCidr;
    hide CidrToMask;
    hide Agree;
    forall i | 0 <= i < MaskToCidr(e.mask) ensures ToBits(ip)[i] == ToBits(e.ip)[i] {
      AgreeIs(e, ip, i);
    }
  }

  lemma {:induction false} Differ(e: Entry, ip: seq<u8>, w: nat)
    requires Sane(e) && |ip| == (if e.v6 then 16 else 4) && w < Words(e.v6)
    requires !(forall i | 32 * w <= i < 32 * w + 32 :: Agree(e, ip, i))
    ensures !(RuleOf(e).prefix <= ToBits(ip))
  {
    hide ToBits;
    hide MaskToCidr;
    hide CidrToMask;
    hide Agree;
    var i :| 32 * w <= i < 32 * w + 32 && !Agree(e, ip, i);
    AgreeIs(e, ip, i);
    assert RuleOf(e).prefix[i] == ToBits(e.ip)[i];
  }

  class List {
    var entries: seq<Entry>

    constructor ()
      ensures entries == [] && Valid() && RulesOf(entries) == []
    {
      entries := [];
    }

    ghost predicate Valid()
      reads this
    {
      AllSane(entries)
    }

    /** horrible_insert_ordered. The search stops at the first entry whose mask is no longer than the new
        one's, so an equal route behind another of the same length is not found and stays in the list, shadowed. */
    method InsertOrdered(e: Entry)
      requires Valid() && Sane(e)
      modifies this
      ensures Valid() && RulesOf(entries) == Place(old(RulesOf(entries)), RuleOf(e))
    {
      hide Place;
      hide Sane;
      hide MaskToCidr;
      hide SameEntry;
      hide Longer;
      hide RuleOf;
      SameEntryIs(e, e);
      LongerNone(RuleOf(e));
      var myCidr := MaskToCidr(e.mask);
      var i := 0;
      while i < |entries|
        invariant 0 <= i <= |entries| && entries == old(entries) && Longer(RulesOf(entries)[..i], RuleOf(e))
      {
        var other := entries[i];
        SameEntryIs(other, e);
        if SameEntry(other, e) {
          PlaceFound(entries, e, i);
          entries := entries[i := other.(value := e.value)];
          return;
        }
        if MaskToCidr(other.mask) <= myCidr {
          PlaceBefore(entries, e, i);
          entries := entries[..i] + [e] + entries[i..];
          return;
        }
        LongerNext(RulesOf(entries), i, RuleOf(e));
        i := i + 1;
      }
      PlaceLast(entries, e);
      entries := entries + [e];
    }

    /** horrible_allowedips_insert_v4 and _v6 */
    method Insert(v6: bool, ip: seq<u8>, cidr: nat, value: Peer)
      requires Valid() && |ip| == (if v6 then 16 else 4) && cidr <= 8 * |ip|
      modifies this
      ensures Valid() && RulesOf(entries) == Place(old(RulesOf(entries)), Rule(v6, ToBits(ip)[..cidr], value))
    {
      hide Place;
      var e := MaskSelf(ip, cidr, v6, value);
      InsertOrdered(e);
    }

    /** horrible_allowedips_lookup_v4 and _v6 */
    method Lookup(v6: bool, ip: seq<u8>) returns (value: Option<Peer>)
      requires Valid() && |ip| == (if v6 then 16 else 4)
      ensures value == FirstMatch(RulesOf(entries), v6, ToBits(ip))
    {
      hide ToBits;
      hide Sane;
      hide RulesOf;
      ghost var rules := RulesOf(entries);
      var i := 0;
      while i < |entries|
        invariant 0 <= i <= |entries| && FirstMatch(rules, v6, ToBits(ip)) == FirstMatch(rules[i..], v6, ToBits(ip))
      {
        assert rules[i..][1..] == rules[i + 1..];
        if entries[i].v6 == v6 {
          var yes := Matches(entries[i], ip);
          if yes {
            return Some(entries[i].value);
          }
        }
        i := i + 1;
      }
      return None;
    }
  }

  lemma {:induction false} LongerNone(r: Rule)
    ensures Longer([], r)
  {
  }

  lemma {:induction false} LongerNext(rules: seq<Rule>, i: nat, r: Rule)
    requires i < |rules| && Longer(rules[..i], r) && |rules[i].prefix| > |r.prefix|
    ensures Longer(rules[..i + 1], r)
  {
  }

  ghost predicate AllSane(es: seq<Entry>) {
    forall j | 0 <= j < |es| :: Sane(es[j])
  }

  /** The rules of a list that is put together from parts. */
  lemma {:induction false} RulesSpliced(es: seq<Entry>, i: nat, e: Entry, j: nat)
    requires AllSane(es) && Sane(e) && i <= j <= |es|
    ensures var now := es[..i] + [e] + es[j..];
      AllSane(now) && RulesOf(now) == RulesOf(es)[..i] + ([RuleOf(e)] + RulesOf(es)[j..])
  {
    hide Sane;
    hide RuleOf;
    hide RulesOf;
    var now, rules := es[..i] + [e] + es[j..], RulesOf(es);
    forall k | 0 <= k < |now| ensures Sane(now[k]) && RuleOf(now[k]) == (rules[..i] + ([RuleOf(e)] + rules[j..]))[k] {
      if k > i {
        assert now[k] == es[k - i - 1 + j];
      }
    }
  }

  lemma {:induction false} PlaceFound(es: seq<Entry>, e: Entry, i: nat)
    requires AllSane(es) && Sane(e) && i < |es|
    requires Longer(RulesOf(es)[..i], RuleOf(e)) && SameEntry(es[i], e)
    ensures var now := es[i := es[i].(value := e.value)];
      AllSane(now) && RulesOf(now) == Place(RulesOf(es), RuleOf(e))
  {
    hide Sane;
    hide Longer;
    hide Place;
    hide RulesOf;
    hide RuleOf;
    SameEntryIs(es[i], e);
    hide SameEntry;
    var rules, x := RulesOf(es), es[i].(value := e.value);
    NewValue(es[i], e.value);
    ValueIs(e);
    RulesSpliced(es, i, x, i + 1);
    assert es[i := x] == es[..i] + [x] + es[i + 1..];
    PlaceAfter(rules[..i], rules[i..], RuleOf(e));
    assert rules == rules[..i] + rules[i..] && rules[i..][1..] == rules[i + 1..];
  }

  lemma {:induction false} ValueIs(e: Entry)
    requires Sane(e)
    ensures RuleOf(e).value == e.value
  {
  }

  lemma {:induction false} PlaceBefore(es: seq<Entry>, e: Entry, i: nat)
    requires AllSane(es) && Sane(e) && i < |es|
    requires Longer(RulesOf(es)[..i], RuleOf(e)) && !SameEntry(es[i], e) && |RuleOf(es[i]).prefix| <= |RuleOf(e).prefix|
    ensures var now := es[..i] + [e] + es[i..];
      AllSane(now) && RulesOf(now) == Place(RulesOf(es), RuleOf(e))
  {
    hide Sane;
    hide Longer;
    hide Place;
    hide RulesOf;
    hide RuleOf;
    SameEntryIs(es[i], e);
    hide SameEntry;
    hide SameRoute;
    var rules := RulesOf(es);
    RulesSpliced(es, i, e, i);
    PlaceAfter(rules[..i], rules[i..], RuleOf(e));
    assert rules == rules[..i] + rules[i..];
  }

  lemma {:induction false} PlaceLast(es: seq<Entry>, e: Entry)
    requires AllSane(es) && Sane(e) && Longer(RulesOf(es)[..|es|], RuleOf(e))
    ensures AllSane(es + [e]) && RulesOf(es + [e]) == Place(RulesOf(es), RuleOf(e))
  {
    hide Sane;
    hide Longer;
    hide Place;
    hide RuleOf;
    hide RulesOf;
    var rules := RulesOf(es);
    assert rules[..|es|] == rules && rules + [] == rules;
    PlaceAfter(rules, [], RuleOf(e));
    RulesSpliced(es, |es|, e, |es|);
    assert es + [e] == es[..|es|] + [e] + es[|es|..];
    assert rules + [RuleOf(e)] == rules[..|es|] + ([RuleOf(e)] + rules[|es|..]);
  }

  lemma {:induction false} NewValue(e: Entry, value: Peer)
    requires Sane(e)
    ensures Sane(e.(value := value)) && RuleOf(e.(value := value)) == RuleOf(e).(value := value)
  {
    hide ToBits;
    hide MaskToCidr;
    hide CidrToMask;
  }

  /** The new node, with horrible_mask_self applied to its address. */
  method MaskSelf(ip: seq<u8>, cidr: nat, v6: bool, value: Peer) returns (e: Entry)
    requires |ip| == (if v6 then 16 else 4) && cidr <= 8 * |ip|
    ensures Sane(e) && RuleOf(e) == Rule(v6, ToBits(ip)[..cidr], value)
  {
    hide ToBits;
    hide AndWord;
    hide CidrToMask;
    hide MaskToCidr;
    var mask := CidrToMask(cidr);
    MaskRoundTrip(cidr);
    var padded: seq<u8> := if v6 then ip else ip + seq(12, _ => 0);
    var masked := padded;
    var w := 0;
    while w < Words(v6)
      invariant w <= Words(v6) && |masked| == 16
      invariant forall i | 0 <= i < 32 * w :: ToBits(masked)[i] == (ToBits(padded)[i] && ToBits(mask)[i])
      invariant forall i | 32 * w <= i < 128 :: ToBits(masked)[i] == ToBits(padded)[i]
    {
      var word := AndWord(WordOf(masked, w), WordOf(mask, w));
      var next := masked[..4 * w] + word + masked[4 * w + 4..];
      forall i | 0 <= i < 128 ensures ToBits(next)[i] ==
        (if 32 * w <= i < 32 * w + 32 then ToBits(masked)[i] && ToBits(mask)[i] else ToBits(masked)[i])
      {
        WordReplaced(masked, mask, w, next, i);
      }
      masked := next;
      w := w + 1;
    }
    e := Entry(masked, mask, v6, value);
    forall i | 0 <= i < 128 ensures ToBits(masked)[i] == (i < cidr && i < 8 * |ip| && ToBits(ip)[i]) {
      MaskBits(cidr, i);
      PaddedBits(ip, padded, i);
    }
    assert ToBits(masked)[..cidr] == ToBits(ip)[..cidr];
  }

  lemma {:induction false} WordReplaced(s: seq<u8>, mask: seq<u8>, w: nat, next: seq<u8>, i: nat)
    requires |s| == |mask| == 16 && w < 4 && i < 128
    requires next == s[..4 * w] + AndWord(WordOf(s, w), WordOf(mask, w)) + s[4 * w + 4..]
    ensures |next| == 16
    ensures ToBits(next)[i] == if 32 * w <= i < 32 * w + 32 then ToBits(s)[i] && ToBits(mask)[i] else ToBits(s)[i]
  {
    hide Bit;
    hide AndWord;
    if 32 * w <= i < 32 * w + 32 {
      var j := i - 32 * w;
      AndWordBits(WordOf(s, w), WordOf(mask, w), j);
      WordBits(s, w, j);
      WordBits(mask, w, j);
      WordBits(next, w, j);
      assert WordOf(next, w) == AndWord(WordOf(s, w), WordOf(mask, w));
    } else {
      assert next[i / 8] == s[i / 8];
    }
  }

  lemma {:induction false} PaddedBits(ip: seq<u8>, padded: seq<u8>, i: nat)
    requires i < 128 && |padded| == 16 && ip <= padded && forall j | |ip| <= j < 16 :: padded[j] == 0
    ensures ToBits(padded)[i] == (i < 8 * |ip| && ToBits(ip)[i])
  {
    hide Bit;
    BitZero(7 - i % 8);
  }
}
