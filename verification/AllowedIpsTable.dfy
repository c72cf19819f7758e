/** struct allowedips: both tries and the sequence number that ties cursors to them. */
module AllowedIpsTable {
  import opened Bits
  import opened Options
  import opened PrefixTree
  import opened AddressBits
  import opened TrieHeap
  import opened AllowedIps
  import opened TrieRemoval
  import opened TrieCursor

  /** struct allowedips; seqno changes with every change of the tries. */
  class Table {
    const v4: Trie
    const v6: Trie
    var seqno: nat

    constructor ()
      ensures Valid() && fresh(v4) && fresh(v6) && seqno == 1 && v4.shape == Empty && v6.shape == Empty
      ensures v4.memory == map[] && v6.memory == map[]
    {
      v4 := new Trie(4);
      v6 := new Trie(16);
      seqno := 1;
    }

    ghost predicate Valid()
      reads this, v4, v6, v4.memory.Keys, v6.memory.Keys
    {
      && v4 != v6 && v4.memory.Keys !! v6.memory.Keys
      && v4.bytes == 4 && v6.bytes == 16 && v4.Valid() && v6.Valid() && seqno >= 1
    }

    function Of(six: bool): Trie {
      if six then v6 else v4
    }

    /** The prefixes of one family. */
    ghost function Routes(six: bool): map<Key, Peer>
      reads this, v4, v6
    {
      Entries(TreeOf(Of(six).shape))
    }

    /** wg_allowedips_insert_v4 and _v6 */
    method Insert(six: bool, ip: seq<u8>, cidr: nat, peer: Option<Peer>, available: nat) returns (ret: int)
      requires Valid() && |ip| == if six then 16 else 4
      modifies this, v4, v6, v4.memory.Keys, v6.memory.Keys
      ensures Valid() && seqno == old(seqno) + 1
      ensures ret == -EINVAL <==> cidr > 8 * |ip| || peer.None?
      ensures ret == 0 || ret == -EINVAL || (ret == -ENOMEM && available < 2)
      ensures ret == 0 ==>
        TreeOf(Of(six).shape) == PrefixTree.Insert(old(TreeOf(Of(six).shape)), ToBits(ip)[..cidr], peer.value)
      ensures ret != 0 ==> Of(six).shape == old(Of(six).shape)
      ensures ret == 0 ==> Routes(six) == old(Routes(six))[ToBits(ip)[..cidr] := peer.value]
      ensures Of(!six).shape == old(Of(!six).shape)
      ensures fresh(v4.memory.Keys - old(v4.memory.Keys)) && fresh(v6.memory.Keys - old(v6.memory.Keys))
    {
      hide TrieHeap.TreeOf;
      hide Entries;
      hide PrefixTree.Insert;
      hide KeyBits;
      hide ToBits;
      hide Linked;
      hide Separate;
      hide WellFormed;
      hide TrieHeap.Holds;
      seqno := seqno + 1;
      var key := SwapEndian(ip);
      SwappedBits(ip);
      var t := Of(six);
      ghost var was := TreeOf(t.shape);
      ret := t.Add(key, cidr, peer, available);
      if ret == 0 {
        InsertEntries(was, [], 8 * t.bytes, KeyBits(key)[..cidr], peer.value);
      }
    }

    /** wg_allowedips_remove_by_peer */
    method RemoveByPeer(peer: Peer)
      requires Valid()
      modifies this, v4, v6, v4.memory.Keys, v6.memory.Keys
      ensures Valid() && seqno == old(seqno) + 1
      ensures forall six :: Routes(six) == Without(old(Routes(six)), peer)
    {
      hide TrieHeap.TreeOf;
      hide Entries;
      hide Without;
      hide PrefixTree.Remove;
      seqno := seqno + 1;
      RemoveEntries(TreeOf(v4.shape), [], 32, peer);
      RemoveEntries(TreeOf(v6.shape), [], 128, peer);
      ghost var deepest := WalkRemoveByPeer(v4, Some(peer));
      deepest := WalkRemoveByPeer(v6, Some(peer));
    }

    /** lookup: the longest match among the prefixes of the family. */
    method Lookup(six: bool, ip: seq<u8>) returns (peer: Option<Peer>)
      requires Valid() && |ip| == if six then 16 else 4
      ensures peer == LongestMatch(Routes(six), ToBits(ip))
    {
      hide TrieHeap.TreeOf;
      hide Entries;
      hide PrefixTree.Lookup;
      hide KeyBits;
      hide ToBits;
      var key := SwapEndian(ip);
      SwappedBits(ip);
      var t := Of(six);
      var node := t.FindNode(key);
      peer := if node == null then None else node.peer;
      LookupLongest(TreeOf(t.shape), [], 8 * t.bytes, KeyBits(key));
    }

    /** All prefixes of a peer: IPv4 first. */
    ghost function All(p: Peer): seq<Item>
      reads this, v4, v6
    {
      Prefixes(TreeOf(v4.shape), p, false) + Prefixes(TreeOf(v6.shape), p, true)
    }

    /** The cursor belongs to this table and has not gone stale. */
    ghost predicate Holds(c: Cursor)
      reads this, v4, v6, v4.memory.Keys, v6.memory.Keys, c
    {
      && (c.seqno == 0 || c.seqno == seqno)
      && (c.seqno == 0 ==> c.stack == [] && !c.secondHalf)
      && var t := if c.secondHalf then v6 else v4;
         StackOf(t, c.stack, c.shapes) && (t.top == null ==> c.stack == []) && |c.stack| <= c.deepest
    }

    /** The most entries the stack will have held when the walk is over. */
    ghost function Reach(c: Cursor): nat
      reads this, v4, v6, c
    {
      Max(c.deepest, if c.secondHalf then PeakFrom(v6, c.shapes)
                     else Max(PeakFrom(v4, c.shapes), Need(TreeOf(v6.shape))))
    }

    /** What the walk still has to report. */
    ghost function Todo(c: Cursor, p: Peer): seq<Item>
      reads this, v4, v6, c
    {
      if c.secondHalf then Unstarted(v6, c.shapes, p)
      else Unstarted(v4, c.shapes, p) + Prefixes(TreeOf(v6.shape), p, true)
    }

    predicate Stale(c: Cursor)
      reads this, c
    {
      c.seqno != 0 && c.seqno != seqno
    }

    /** wg_allowedips_walk_by_peer: a call reports a front part of what is left and keeps the
        rest for the next call; it returns 0 exactly when nothing is left. A cursor from
        before a change of the table reports nothing more. */
    method Walk(c: Cursor, p: Peer, sink: Sink) returns (ret: int, ghost items: seq<Item>)
      requires Valid() && (Stale(c) || Holds(c))
      modifies c, sink
      ensures old(Stale(c)) ==> ret == 0 && items == []
      ensures !old(Stale(c)) ==> Holds(c) && c.seqno == seqno
      ensures |sink.reports| >= |old(sink.reports)| && sink.reports[..|old(sink.reports)|] == old(sink.reports)
      ensures ShowsAll(sink.reports[|old(sink.reports)|..], items)
      ensures !old(Stale(c)) && ret != 0 ==> items + Todo(c, p) == old(Todo(c, p)) && Todo(c, p) != []
      ensures !old(Stale(c)) && ret == 0 ==> items == old(Todo(c, p))
      ensures !old(Stale(c)) ==> old(Reach(c)) == if ret == 0 then c.deepest else Reach(c)
      ensures (items == [] ==> sink.room == old(sink.room)) && sink.room <= old(sink.room)
      ensures (ret != 0 ==> sink.room < MAX_COST)
    {
      hide StackOf;
      hide Pending;
      hide Need;
      hide Peak;
      hide Prefixes;
      hide ShowsAll;
      hide TreeOf;
      hide Trie.Valid;
      ghost var was := sink.reports;
      items := [];
      NothingShown();
      assert was[|was|..] == [];
      if c.seqno == 0 {
        c.seqno := seqno;
      } else if c.seqno != seqno {
        return 0, [];
      }
      if !c.secondHalf {
        ret, items := FirstHalf(c, p, sink);
        if ret != 0 {
          return;
        }
      }
      ghost var before := sink.reports;
      ghost var more;
      ret, more := WalkByPeer(v6, c, p, sink);
      Joined(was, before, sink.reports, items, more);
      items := items + more;
      StackHeight(v6, c);
      Drained(c.shapes, p);
    }

    /** The IPv4 trie, and the change to the second half when it is finished. */
    method FirstHalf(c: Cursor, p: Peer, sink: Sink) returns (ret: int, ghost items: seq<Item>)
      requires Valid() && Holds(c) && c.seqno == seqno && !c.secondHalf
      modifies c, sink
      ensures Holds(c) && c.seqno == seqno && c.secondHalf == (ret == 0)
      ensures (ret == 0 ==> c.stack == [] && c.shapes == [])
      ensures |sink.reports| >= |old(sink.reports)| && sink.reports[..|old(sink.reports)|] == old(sink.reports)
      ensures ShowsAll(sink.reports[|old(sink.reports)|..], items)
      ensures items + Todo(c, p) == old(Todo(c, p)) && (ret != 0 ==> Todo(c, p) != [])
      ensures Reach(c) == old(Reach(c))
      ensures (items == [] ==> sink.room == old(sink.room)) && sink.room <= old(sink.room)
      ensures (ret != 0 ==> sink.room < MAX_COST)
    {
      hide StackOf;
      hide Pending;
      hide Need;
      hide Peak;
      hide Prefixes;
      hide ShowsAll;
      hide TreeOf;
      hide Trie.Valid;
      ret, items := WalkByPeer(v4, c, p, sink);
      StackHeight(v4, c);
      Regroup(items, Pending(c.shapes, p, false), Prefixes(TreeOf(v6.shape), p, true));
      Drained(c.shapes, p);
      if ret == 0 {
        EmptyStack(v6);
        c.stack := [];
        c.shapes := [];
        c.secondHalf := true;
      }
    }
  }

  lemma {:induction false} SwappedBits(ip: seq<u8>)
    requires IsAddress(ip)
    ensures KeyBits(SwapEndian(ip)) == ToBits(ip)
  {
    hide ToBits;
    SwapTwice(ip);
  }

  lemma {:induction false} Regroup(a: seq<Item>, b: seq<Item>, c: seq<Item>)
    ensures a + (b + c) == a + b + c
  {
  }

  lemma {:induction false} NotStale(table: Table, c: Cursor)
    requires table.Holds(c)
    ensures !table.Stale(c)
  {
  }

  lemma {:induction false} Drained(shapes: seq<Shape>, p: Peer)
    ensures shapes == [] ==> Pending(shapes, p, false) == [] && Pending(shapes, p, true) == [] && Peak(shapes) == 0
  {
  }

  lemma {:induction false} EmptyStack(t: Trie)
    ensures StackOf(t, [], [])
  {
  }

  /** What the walk goes through: exactly the prefixes of the peer in both tries, none twice. */
  lemma {:induction false} AllIs(table: Table, p: Peer)
    requires table.Valid()
    ensures NoRepeats(table.All(p))
    ensures forall i: Item :: i in table.All(p) <==> i.prefix in table.Routes(i.v6) && table.Routes(i.v6)[i.prefix] == p
  {
    hide Entries;
    hide Prefixes;
    hide WellFormed;
    hide TreeOf;
    hide Linked;
    hide Separate;
    var a, b := TreeOf(table.v4.shape), TreeOf(table.v6.shape);
    PrefixesComplete(a, [], 32, p, false);
    PrefixesComplete(b, [], 128, p, true);
    PrefixesOnce(a, [], 32, p, false);
    PrefixesOnce(b, [], 128, p, true);
    NoRepeatsConcat(Prefixes(a, p, false), Prefixes(b, p, true));
  }

  /** A walk that is resumed after every failure reports everything, each prefix once and in
      order, however the failures fall: call i of the walk has room for rooms[i] bytes. With room for
      an address in each it ends after one call more than there are prefixes, at the latest. The stack
      then has held as many entries as the larger need of the two tries. */
  method WalkToEnd(table: Table, p: Peer, rooms: seq<nat>)
    returns (reports: seq<Report>, done: bool, ghost deepest: nat)
    requires table.Valid()
    ensures |reports| <= |table.All(p)| && ShowsAll(reports, table.All(p)[..|reports|])
    ensures done ==> ShowsAll(reports, table.All(p))
    ensures |rooms| > |table.All(p)| && (forall r | r in rooms :: r >= MAX_COST) ==> done
    ensures var need := Max(Need(TreeOf(table.v4.shape)), Need(TreeOf(table.v6.shape)));
      deepest <= need <= 129 && (done ==> deepest == need)
  {
    hide ShowsAll;
    hide Trie.Valid;
    hide StackOf;
    hide Pending;
    hide Prefixes;
    hide TreeOf;
    hide Table.Holds;
    hide Table.Todo;
    hide Table.Reach;
    hide Need;
    hide PeakFrom;
    hide Table.Valid;
    hide Table.All;
    var c := new Cursor();
    var sink := new Sink();
    FreshCursor(table, c, p);
    ghost var need := table.Reach(c);
    FreshReach(table, c);
    NeedsBounded(table);
    ghost var items: seq<Item> := [];
    NothingShown();
    done := false;
    var i := 0;
    while i < |rooms| && !done
      invariant 0 <= i <= |rooms| && table.Valid() && fresh(c) && fresh(sink)
      invariant !done ==> table.Holds(c) && items + table.Todo(c, p) == table.All(p)
      invariant done ==> items == table.All(p)
      invariant ShowsAll(sink.reports, items)
      invariant need == (if done then c.deepest else table.Reach(c)) && c.deepest <= need
      invariant !done && (forall r | r in rooms :: r >= MAX_COST) ==> |items| >= i
    {
      ghost var was := sink.reports;
      sink.room := rooms[i];
      assert rooms[i] in rooms;
      var ret;
      ghost var more;
      NotStale(table, c);
      ghost var todo := table.Todo(c, p);
      ret, more := table.Walk(c, p, sink);
      Regroup(items, more, table.Todo(c, p));
      MoreShown(was, items, sink.reports[|was|..], more);
      assert sink.reports == was + sink.reports[|was|..];
      items := items + more;
      ReachCovers(table, c);
      done := ret == 0;
      i := i + 1;
    }
    reports, deepest := sink.reports, c.deepest;
    ShownLength(reports, items);
    assert table.All(p)[..|reports|] == items;
  }

  lemma {:induction false} ReachCovers(table: Table, c: Cursor)
    ensures c.deepest <= table.Reach(c)
  {
  }

  lemma {:induction false} NeedsBounded(table: Table)
    requires table.Valid()
    ensures Max(Need(TreeOf(table.v4.shape)), Need(TreeOf(table.v6.shape))) <= 129
  {
    hide Need;
    hide WellFormed;
    hide Linked;
    hide Separate;
    hide TreeOf;
    NeedBound(TreeOf(table.v4.shape), [], 32);
    NeedBound(TreeOf(table.v6.shape), [], 128);
  }

  lemma {:induction false} FreshReach(table: Table, c: Cursor)
    requires !c.secondHalf && c.shapes == [] && c.deepest == 0
    ensures table.Reach(c) == Max(Need(TreeOf(table.v4.shape)), Need(TreeOf(table.v6.shape)))
  {
    hide Need;
  }

  lemma {:induction false} FreshCursor(table: Table, c: Cursor, p: Peer)
    requires table.Valid() && c.seqno == 0 && c.stack == [] && !c.secondHalf && c.shapes == []
    ensures table.Holds(c) && table.Todo(c, p) == table.All(p)
  {
  }

  lemma {:induction false} ShownLength(rs: seq<Report>, items: seq<Item>)
    requires ShowsAll(rs, items)
    ensures |rs| == |items|
  {
  }
}
