/** A device is dumped over netlink in as many messages as it takes; the tools
    collect the fragments of each peer and join them again. */
module NetlinkDump {
  import opened Bits
  import opened Options
  import opened PrefixTree
  import opened TrieCursor
  import opened AllowedIpsTable

  type PublicKey = seq<u8>

  /** What a peer shows besides its key and its addresses; the endpoint is a socket address. */
  datatype Details = Details(presharedKey: seq<u8>, lastHandshake: int, keepalive: nat,
                             txBytes: nat, rxBytes: nat, endpoint: Option<seq<u8>>)

  datatype PeerInfo = PeerInfo(peer: Peer, key: PublicKey, details: Details)

  /** The attributes of the device itself. */
  datatype DeviceInfo = DeviceInfo(listenPort: nat, fwmark: nat, ifindex: nat, name: string,
                                   keys: Option<(seq<u8>, seq<u8>)>)

  /** One nested peer of a message. */
  datatype Fragment = Fragment(key: PublicKey, details: Option<Details>, ips: seq<Report>)

  datatype Message = Message(info: Option<DeviceInfo>, peers: seq<Fragment>)

  // ---------- sizes of netlink attributes: four bytes of header, padded to a multiple of four

  function Attribute(payload: nat): nat {
    4 + (payload + 3) / 4 * 4
  }

  const MESSAGE_HEADER := 20

  function DeviceSize(d: DeviceInfo): nat {
    Attribute(2) + Attribute(4) + Attribute(4) + Attribute(|d.name| + 1)
      + (if d.keys.Some? then Attribute(32) + Attribute(32) else 0)
  }

  function DetailsSize(d: Details): nat {
    Attribute(32) + Attribute(16) + Attribute(2) + Attribute(8) + Attribute(8) + Attribute(4)
      + (if d.endpoint.Some? then Attribute(|d.endpoint.value|) else 0)
  }

  /** The nests of a peer and everything before its first address. */
  function HeaderSize(p: PeerInfo, full: bool): nat {
    Attribute(0) + Attribute(32) + (if full then DetailsSize(p.details) else 0) + Attribute(0)
  }

  /** A message holds the device attributes, one peer header and one address. */
  ghost predicate Roomy(info: DeviceInfo, peers: seq<PeerInfo>, capacity: nat) {
    && MESSAGE_HEADER + DeviceSize(info) + Attribute(0) <= capacity
    && forall p | p in peers ::
         MESSAGE_HEADER + DeviceSize(info) + Attribute(0) + HeaderSize(p, true) + MAX_COST <= capacity
  }

  ghost predicate Distinct(peers: seq<PeerInfo>) {
    forall i, j | 0 <= i < j < |peers| :: peers[i].key != peers[j].key
  }

  // ---------- joining fragments

  function Join(f: Fragment, g: Fragment): Fragment {
    f.(ips := f.ips + g.ips)
  }

  ghost function Extend(found: seq<Fragment>, f: Fragment): seq<Fragment> {
    if found != [] && found[|found| - 1].key == f.key
    then found[..|found| - 1] + [Join(found[|found| - 1], f)]
    else found + [f]
  }

  /** Neighbours with the same key become one peer. */
  ghost function Coalesce(fs: seq<Fragment>): seq<Fragment> {
    if fs == [] then [] else Extend(Coalesce(fs[..|fs| - 1]), fs[|fs| - 1])
  }

  lemma {:induction false} CoalesceSnoc(fs: seq<Fragment>, f: Fragment)
    ensures Coalesce(fs + [f]) == Extend(Coalesce(fs), f)
  {
    assert (fs + [f])[..|fs|] == fs;
  }

  lemma {:induction false} LastKey(fs: seq<Fragment>)
    requires fs != []
    ensures var found := Coalesce(fs); found != [] && found[|found| - 1].key == fs[|fs| - 1].key
  {
  }

  /** Only the first fragment of a peer may be without addresses. */
  ghost predicate Unbroken(fs: seq<Fragment>) {
    forall j | 0 < j < |fs| :: fs[j].key == fs[j - 1].key ==> fs[j].ips != []
  }

  /** The check of parse_allowedips. */
  predicate InRange(r: Report) {
    r.cidr <= if r.v6 then 128 else 32
  }

  ghost predicate Acceptable(fs: seq<Fragment>) {
    forall f, r | f in fs && r in f.ips :: InRange(r)
  }

  lemma {:induction false} ShownInRange(rs: seq<Report>, items: seq<Item>)
    requires ShowsAll(rs, items)
    ensures forall r | r in rs :: InRange(r)
  {
    forall r | r in rs ensures InRange(r) {
      var j :| 0 <= j < |rs| && rs[j] == r;
      assert Shows(rs[j], items[j]);
    }
  }

  // ---------- what has been sent

  /** The fragments up to now show the first k peers whole and, when a walk is under way,
      a front part of the next one: todo is what its walk still has to report. */
  ghost predicate Collected(peers: seq<PeerInfo>, all: seq<seq<Item>>, found: seq<Fragment>, k: nat, active: bool,
                            todo: seq<Item>) {
    && k <= |peers| == |all|
    && (active ==> k < |peers|)
    && |found| == k + (if active then 1 else 0)
    && (forall i | 0 <= i < |found| :: found[i].key == peers[i].key && found[i].details == Some(peers[i].details))
    && (forall i | 0 <= i < k :: ShowsAll(found[i].ips, all[i]))
    && (active ==> Part(found[k].ips, all[k], todo) && todo != [])
  }

  ghost predicate Part(ips: seq<Report>, all: seq<Item>, todo: seq<Item>) {
    |ips| <= |all| && ShowsAll(ips, all[..|ips|]) && all[|ips|..] == todo
  }

  lemma {:induction false} PartMore(ips: seq<Report>, all: seq<Item>, todo: seq<Item>, more: seq<Report>,
                                    items: seq<Item>, rest: seq<Item>)
    requires Part(ips, all, todo) && ShowsAll(more, items) && todo == items + rest
    ensures Part(ips + more, all, rest) && (rest == [] ==> ShowsAll(ips + more, all))
  {
    MoreShown(ips, all[..|ips|], more, items);
    var n := |ips + more|;
    assert all == all[..|ips|] + (items + rest);
    assert all[..n] == all[..|ips|] + items;
    assert all[n..] == rest;
    if rest == [] {
      assert all[..n] == all;
    }
  }

  /** A fragment that continues the walk. */
  lemma {:induction false} Continue(peers: seq<PeerInfo>, all: seq<seq<Item>>, found: seq<Fragment>, k: nat,
                                    todo: seq<Item>,
                                    f: Fragment, items: seq<Item>, rest: seq<Item>)
    requires Collected(peers, all, found, k, true, todo)
    requires f.key == peers[k].key && ShowsAll(f.ips, items) && todo == items + rest
    ensures rest != [] ==> Collected(peers, all, Extend(found, f), k, true, rest)
    ensures rest == [] ==> Collected(peers, all, Extend(found, f), k + 1, false, [])
  {
    hide ShowsAll;
    PartMore(found[k].ips, all[k], todo, f.ips, items, rest);
    hide Part;
  }

  /** The first fragment of the next peer. */
  lemma {:induction false} Start(peers: seq<PeerInfo>, all: seq<seq<Item>>, found: seq<Fragment>, k: nat,
                                 f: Fragment, items: seq<Item>, rest: seq<Item>)
    requires Collected(peers, all, found, k, false, []) && k < |peers| && Distinct(peers)
    requires f.key == peers[k].key && f.details == Some(peers[k].details)
    requires ShowsAll(f.ips, items) && all[k] == items + rest
    ensures Extend(found, f) == found + [f]
    ensures rest != [] ==> Collected(peers, all, found + [f], k, true, rest)
    ensures rest == [] ==> Collected(peers, all, found + [f], k + 1, false, [])
  {
    assert Part([], all[k], all[k]) by {
      NothingShown();
      assert all[k][..0] == [];
    }
    PartMore([], all[k], all[k], f.ips, items, rest);
    assert [] + f.ips == f.ips;
    hide ShowsAll;
    hide Part;
  }

  /** Addresses and peers that are still to come. */
  ghost function Work(all: seq<seq<Item>>, k: nat): nat
    requires k <= |all|
    decreases |all| - k
  {
    if k == |all| then 0 else |all[k]| + 1 + Work(all, k + 1)
  }

  ghost function Left(all: seq<seq<Item>>, k: nat, active: bool, todo: seq<Item>): nat
    requires k <= |all| && (active ==> k < |all|)
  {
    if active then |todo| + 1 + Work(all, k + 1) else Work(all, k)
  }

  /** One more fragment: what is collected, that nothing is broken, and that work is done. */
  lemma {:induction false} Step(peers: seq<PeerInfo>, all: seq<seq<Item>>, frags: seq<Fragment>, k: nat, active: bool,
                                todo: seq<Item>,
                                f: Fragment, items: seq<Item>, rest: seq<Item>)
    requires Collected(peers, all, Coalesce(frags), k, active, if active then todo else []) && k < |peers|
    requires Distinct(peers)
    requires !active ==> todo == all[k]
    requires f.key == peers[k].key && f.details == if active then None else Some(peers[k].details)
    requires ShowsAll(f.ips, items) && todo == items + rest
    ensures rest != [] ==> Collected(peers, all, Coalesce(frags + [f]), k, true, rest)
    ensures rest == [] ==> Collected(peers, all, Coalesce(frags + [f]), k + 1, false, [])
    ensures Unbroken(frags) && (active ==> items != []) ==> Unbroken(frags + [f])
    ensures Left(all, k, true, rest) == Left(all, k, active, todo) - |items|
    ensures Left(all, k + 1, false, []) < Left(all, k, active, todo)
  {
    CoalesceSnoc(frags, f);
    ShownLength(f.ips, items);
    if frags != [] {
      LastKey(frags);
    }
    hide Coalesce;
    hide ShowsAll;
    hide Part;
    if active {
      Continue(peers, all, Coalesce(frags), k, todo, f, items, rest);
    } else {
      Start(peers, all, Coalesce(frags), k, f, items, rest);
      KeepsUnbroken(peers, all, frags, k, f);
    }
    hide Extend;
    hide Collected;
  }

  lemma {:induction false} Going(peers: seq<PeerInfo>, all: seq<seq<Item>>, found: seq<Fragment>, k: nat, active: bool,
                                 todo: seq<Item>)
    requires Collected(peers, all, found, k, active, if active then todo else [])
    ensures active ==> todo != []
  {
  }

  lemma {:induction false} KeepsUnbroken(peers: seq<PeerInfo>, all: seq<seq<Item>>, frags: seq<Fragment>, k: nat,
                                         f: Fragment)
    requires Collected(peers, all, Coalesce(frags), k, false, []) && k < |peers| && Distinct(peers)
    requires f.key == peers[k].key
    ensures Unbroken(frags) ==> Unbroken(frags + [f])
  {
    if frags != [] {
      LastKey(frags);
    }
    hide Coalesce;
  }

  // ---------- the kernel's side

  /** get_peer: a peer whose header does not fit is left out of the message; one whose
      addresses do not all fit is sent in part and continued by its key alone. */
  method GetPeer(table: Table, info: PeerInfo, c: Cursor, room: nat)
    returns (ret: int, out: seq<Fragment>, left: nat, ghost items: seq<Item>)
    requires table.Valid() && table.Holds(c)
    modifies c
    ensures table.Holds(c) && |out| <= 1 && (out == [] <==> room < HeaderSize(info, old(c.seqno) == 0))
    ensures out == [] ==>
      ret != 0 && c.seqno == old(c.seqno) && table.Todo(c, info.peer) == old(table.Todo(c, info.peer))
    ensures out != [] ==> out[0].key == info.key && ShowsAll(out[0].ips, items)
    ensures out != [] ==> out[0].details == if old(c.seqno) == 0 then Some(info.details) else None
    ensures out != [] && ret != 0 ==> c.seqno != 0 && table.Todo(c, info.peer) != []
    ensures out != [] && ret != 0 ==> items + table.Todo(c, info.peer) == old(table.Todo(c, info.peer))
    ensures ret == 0 ==> c.seqno == 0 && items == old(table.Todo(c, info.peer))
    ensures ret != 0 && HeaderSize(info, old(c.seqno) == 0) + MAX_COST <= room ==> items != []
    ensures left <= room
  {
    hide ShowsAll;
    hide HeaderSize;
    hide Table.Holds;
    hide Table.Todo;
    hide Table.Valid;
    items := [];
    NotStale(table, c);
    var full := c.seqno == 0;
    if room < HeaderSize(info, full) {
      return -EMSGSIZE, [], room, [];
    }
    var sink := new Sink();
    sink.room := room - HeaderSize(info, full);
    ret, items := table.Walk(c, info.peer, sink);
    Started(table, c);
    assert sink.reports[0..] == sink.reports;
    out := [Fragment(info.key, if full then Some(info.details) else None, sink.reports)];
    left := sink.room;
    if ret == 0 {
      c.seqno, c.stack, c.secondHalf, c.shapes := 0, [], false, [];
      FreshCursor(table, c, info.peer);
    }
  }

  lemma {:induction false} Started(table: Table, c: Cursor)
    requires table.Valid() && c.seqno == table.seqno
    ensures c.seqno != 0
  {
  }

  lemma {:induction false} NotBegun(table: Table, c: Cursor, p: Peer)
    requires table.Valid() && table.Holds(c) && c.seqno == 0
    ensures table.Todo(c, p) == table.All(p)
  {
    FreshCursor(table, c, p);
  }

  /** The addresses of every peer, in the order of the list. */
  ghost function Addresses(table: Table, peers: seq<PeerInfo>): (all: seq<seq<Item>>)
    reads table, table.v4, table.v6
    ensures |all| == |peers| && forall i | 0 <= i < |peers| :: all[i] == table.All(peers[i].peer)
  {
    if peers == [] then [] else [table.All(peers[0].peer)] + Addresses(table, peers[1..])
  }

  ghost function TodoAt(table: Table, peers: seq<PeerInfo>, c: Cursor, k: nat): seq<Item>
    reads table, table.v4, table.v6, c
  {
    if c.seqno != 0 && k < |peers| then table.Todo(c, peers[k].peer) else []
  }

  /** struct netlink_callback: args[1] names the last peer that was sent whole (sent counts
      the peers up to it), args[2] is the cursor into the addresses. */
  class Dump {
    const table: Table
    const info: DeviceInfo
    const peers: seq<PeerInfo>
    const cursor: Cursor
    var sent: nat

    constructor (table: Table, info: DeviceInfo, peers: seq<PeerInfo>)
      ensures this.table == table && this.info == info && this.peers == peers
      ensures sent == 0 && fresh(cursor) && cursor.seqno == 0
      ensures table.Valid() ==> table.Holds(cursor)
    {
      this.table, this.info, this.peers := table, info, peers;
      cursor := new Cursor();
      sent := 0;
      new;
      if table.Valid() {
        FreshCursor(table, cursor, 0);
      }
    }

    /** The fragments sent so far show the peers up to the cursor. */
    ghost predicate Valid(frags: seq<Fragment>)
      reads this, cursor, table, table.v4, table.v6, table.v4.memory.Keys, table.v6.memory.Keys
    {
      table.Valid() && Distinct(peers) && Shown(frags, sent)
    }

    ghost predicate Shown(frags: seq<Fragment>, k: nat)
      reads cursor, table, table.v4, table.v6, table.v4.memory.Keys, table.v6.memory.Keys
    {
      && table.Holds(cursor)
      && Collected(peers, Addresses(table, peers), Coalesce(frags), k, cursor.seqno != 0,
                   TodoAt(table, peers, cursor, k))
    }

    /** Addresses and peers still to be sent. */
    ghost function Remaining(k: nat): nat
      requires k <= |peers| && (cursor.seqno != 0 ==> k < |peers|)
      reads cursor, table, table.v4, table.v6
    {
      Left(Addresses(table, peers), k, cursor.seqno != 0, TodoAt(table, peers, cursor, k))
    }

    /** One turn of the loop over the peers. */
    method SendPeer(k: nat, room: nat, ghost frags: seq<Fragment>) returns (ret: int, out: seq<Fragment>, left: nat)
      requires table.Valid() && Distinct(peers) && k < |peers| && Shown(frags, k)
      modifies cursor
      ensures Shown(frags + out, if ret == 0 then k + 1 else k) && (ret == 0 ==> cursor.seqno == 0) && left <= room
      ensures Acceptable(out)
      ensures ret == 0 ==> Remaining(k + 1) < old(Remaining(k))
      ensures ret != 0 ==> Remaining(k) <= old(Remaining(k))
      ensures HeaderSize(peers[k], old(cursor.seqno) == 0) + MAX_COST <= room && ret != 0 ==>
        Remaining(k) < old(Remaining(k))
      ensures HeaderSize(peers[k], old(cursor.seqno) == 0) + MAX_COST <= room || old(cursor.seqno) == 0 ==>
                Unbroken(frags) ==> Unbroken(frags + out)
    {
      hide Addresses;
      hide Table.All;
      hide Shows;
      hide ShowsAll;
      hide HeaderSize;
      hide Table.Holds;
      hide Table.Todo;
      hide Table.Valid;
      hide Collected;
      hide Coalesce;
      hide Unbroken;
      hide Work;
      ghost var all, active, todo := Addresses(table, peers), cursor.seqno != 0, table.Todo(cursor, peers[k].peer);
      if !active {
        NotBegun(table, cursor, peers[k].peer);
      }
      ghost var items;
      ret, out, left, items := GetPeer(table, peers[k], cursor, room);
      if out == [] {
        assert frags + out == frags;
      } else {
        ghost var rest := if ret == 0 then [] else table.Todo(cursor, peers[k].peer);
        assert items + [] == items;
        Going(peers, all, Coalesce(frags), k, active, todo);
        Step(peers, all, frags, k, active, todo, out[0], items, rest);
        ShownInRange(out[0].ips, items);
        assert out == [out[0]];
      }
    }

    /** The loop over the peers: it stops at the first one that cannot be finished. */
    method SendPeers(room: nat, ghost frags: seq<Fragment>) returns (done: bool, next: nat, out: seq<Fragment>,
                     left: nat)
      requires Valid(frags)
      modifies cursor
      ensures next <= |peers| && done == (next == |peers|) && Shown(frags + out, next) && left <= room
      ensures (cursor.seqno != 0 ==> next < |peers|) && Acceptable(out)
      ensures old(FirstFits(room)) && !done ==> Remaining(next) < old(Remaining(sent))
      ensures old(FirstFits(room)) && Unbroken(frags) ==> Unbroken(frags + out)
    {
      hide Table.Holds;
      hide Table.Todo;
      hide Table.Valid;
      hide Collected;
      hide Coalesce;
      hide Unbroken;
      hide HeaderSize;
      hide Dump.Shown;
      hide Dump.Remaining;
      SentBound(frags, sent);
      ghost var fits := FirstFits(room);
      next, out, left, done := sent, [], room, true;
      assert frags + out == frags;
      while next < |peers| && done
        invariant sent <= next <= |peers| && left <= room
        invariant Shown(frags + out, next) && (!done ==> next < |peers|)
        invariant (cursor.seqno != 0 ==> next < |peers|) && Acceptable(out)
        invariant next == sent && done ==>
          out == [] && left == room && cursor.seqno == old(cursor.seqno) && Remaining(next) == old(Remaining(sent))
        invariant next > sent && done ==> cursor.seqno == 0
        invariant next > sent ==> Remaining(next) < old(Remaining(sent))
        invariant !done && fits ==> Remaining(next) < old(Remaining(sent))
        invariant fits && Unbroken(frags) ==> Unbroken(frags + out)
        decreases |peers| - next, done
      {
        var ret, more;
        ret, more, left := SendPeer(next, left, frags + out);
        assert frags + out + more == frags + (out + more);
        out := out + more;
        if ret != 0 {
          done := false;
          SentBound(frags + out, next);
        } else {
          next := next + 1;
        }
      }
      if done {
        assert next == |peers|;
      }
    }

    /** The next peer can be begun and one of its addresses sent. */
    ghost predicate FirstFits(room: nat)
      reads this, cursor
    {
      sent < |peers| ==> HeaderSize(peers[sent], cursor.seqno == 0) + MAX_COST <= room
    }

    ghost predicate Bounded()
      reads this, cursor
    {
      sent <= |peers| && (cursor.seqno != 0 ==> sent < |peers|)
    }

    lemma {:induction false} ValidBounded(frags: seq<Fragment>)
      requires Valid(frags)
      ensures Bounded()
    {
    }

    lemma {:induction false} SentBound(frags: seq<Fragment>, k: nat)
      requires Shown(frags, k)
      ensures k <= |peers| && (cursor.seqno != 0 ==> k < |peers|)
    {
    }

    /** What comes before the peers: the attributes of the device go into the first message, and
        into the next as long as no peer has been sent whole. */
    function HeadSize(): (n: nat)
      reads this
      ensures n > 0
    {
      MESSAGE_HEADER + (if sent == 0 then DeviceSize(info) else 0) + Attribute(0)
    }

    /** wg_get_device_dump: the result is an error, 0 after the last message, or the length. */
    method NextMessage(capacity: nat, ghost frags: seq<Fragment>) returns (ret: int, message: Message)
      requires Valid(frags)
      modifies this`sent, cursor
      ensures ret < 0 ==> message == Message(None, []) && Valid(frags) && sent == old(sent)
      ensures Acceptable(message.peers)
      ensures ret >= 0 ==> message.info == if old(sent) == 0 then Some(info) else None
      ensures ret > 0 ==> Valid(frags + message.peers) && sent < |peers| && ret <= capacity
      ensures ret == 0 ==> sent == 0 && Complete(frags + message.peers)
      ensures Roomy(info, peers, capacity) ==> ret >= 0
      ensures Roomy(info, peers, capacity) && ret > 0 ==> Remaining(sent) < old(Remaining(sent))
      ensures Roomy(info, peers, capacity) && Unbroken(frags) ==> Unbroken(frags + message.peers)
    {
      hide Table.Holds;
      hide Table.Todo;
      hide Table.Valid;
      hide Collected;
      hide Coalesce;
      hide Unbroken;
      hide HeaderSize;
      hide Roomy;
      hide DeviceSize;
      hide Attribute;
      hide Dump.FirstFits;
      hide Dump.Remaining;
      hide InRange;
      hide Dump.HeadSize;
      hide Dump.Shown;
      hide Dump.Complete;
      var header := HeadSize();
      SentBound(frags, sent);
      RoomyFits(capacity);
      if capacity < header {
        assert frags + [] == frags;
        return -EMSGSIZE, Message(None, []);
      }
      var done, next, out, left;
      done, next, out, left := SendPeers(capacity - header, frags);
      message := Message(if sent == 0 then Some(info) else None, out);
      if done {
        AllShown(frags + out);
        sent := 0;
        ret := 0;
      } else {
        sent := next;
        ret := capacity - left;
      }
    }

    lemma {:induction false} AllShown(frags: seq<Fragment>)
      requires Shown(frags, |peers|)
      ensures Complete(frags)
    {
    }

    lemma {:induction false} RoomyFits(capacity: nat)
      ensures Roomy(info, peers, capacity) ==> HeadSize() <= capacity && FirstFits(capacity - HeadSize())
    {
      if Roomy(info, peers, capacity) && sent < |peers| {
        assert peers[sent] in peers;
      }
    }

    /** Every peer is shown once, in order, with its details and each of its addresses. */
    ghost predicate Complete(frags: seq<Fragment>)
      reads table, table.v4, table.v6
    {
      Collected(peers, Addresses(table, peers), Coalesce(frags), |peers|, false, [])
    }
  }

  // ---------- the tools' side

  /** struct wgpeer; last tells whether last_allowedip points to anything. */
  datatype WgPeer = WgPeer(shown: Fragment, last: bool)

  ghost function Fragments(ps: seq<WgPeer>): (fs: seq<Fragment>)
    ensures |fs| == |ps| && forall i | 0 <= i < |ps| :: fs[i] == ps[i].shown
  {
    if ps == [] then [] else Fragments(ps[..|ps| - 1]) + [ps[|ps| - 1].shown]
  }

  /** As parsed, the pointer to the last address is null only in an empty list. */
  ghost predicate Parsed(ps: seq<WgPeer>) {
    forall i | 0 <= i < |ps| :: ps[i].last == (ps[i].shown.ips != [])
  }

  /** parse_allowedips for every address of a peer. */
  method ParseAllowedIps(ips: seq<Report>) returns (ok: bool, list: seq<Report>, last: bool)
    ensures ok <==> forall r | r in ips :: InRange(r)
    ensures ok ==> list == ips && last == (ips != [])
  {
    list, last := [], false;
    for i := 0 to |ips|
      invariant list == ips[..i] && last == (i > 0)
      invariant forall r | r in ips[..i] :: InRange(r)
    {
      list, last := list + [ips[i]], true;
      if !InRange(ips[i]) {
        return false, list, last;
      }
      assert ips[..i + 1] == ips[..i] + [ips[i]];
    }
    assert ips[..|ips|] == ips;
    ok := true;
  }

  /** struct wgdevice */
  class Received {
    var info: Option<DeviceInfo>
    var peers: seq<WgPeer>

    constructor ()
      ensures info == None && peers == []
    {
      info, peers := None, [];
    }

    /** parse_device with parse_peers: the fragments are appended as they come. */
    method Parse(message: Message) returns (ok: bool)
      requires Parsed(peers)
      modifies this
      ensures info == if message.info.Some? then message.info else old(info)
      ensures ok <==> Acceptable(message.peers)
      ensures ok ==> Parsed(peers) && Fragments(peers) == old(Fragments(peers)) + message.peers
    {
      hide Fragments;
      hide Acceptable;
      hide InRange;
      NoneAcceptable();
      if message.info.Some? {
        info := message.info;
      }
      ghost var was := Fragments(peers);
      var fs := message.peers;
      for i := 0 to |fs|
        invariant Parsed(peers) && Fragments(peers) == was + fs[..i]
        invariant Acceptable(fs[..i])
        invariant info == if message.info.Some? then message.info else old(info)
      {
        var list, last;
        var f := fs[i];
        ok, list, last := ParseAllowedIps(f.ips);
        if !ok {
          NotAcceptable(fs, i);
          return;
        }
        FragmentsSnoc(peers, WgPeer(f, last));
        AcceptableSnoc(fs[..i], f);
        peers := peers + [WgPeer(Fragment(f.key, f.details, list), last)];
        assert fs[..i + 1] == fs[..i] + [f];
      }
      assert fs[..|fs|] == fs;
      ok := true;
    }

    /** coalesce_peers: in a merge with a list that has addresses, the pointer to its last one is followed. */
    method CoalescePeers()
      requires Parsed(peers) && Unbroken(Fragments(peers))
      modifies this`peers
      ensures Fragments(peers) == Coalesce(old(Fragments(peers)))
    {
      hide Coalesce;
      hide Fragments;
      hide Unbroken;
      ghost var was, m := peers, 1;
      var i := 0;
      if peers == [] {
        Single([]);
        return;
      }
      TurnedFirst(was);
      hide Turned;
      while i + 1 < |peers|
        invariant i < |peers| && Turned(was, peers, i, m)
        invariant peers[i].last == (peers[i].shown.ips != [])
        decreases |peers| - i
      {
        var peer, next := peers[i], peers[i + 1];
        if peer.shown.key != next.shown.key {
          TurnedAdvance(was, peers, i, m);
          ParsedNext(was, peers, i, m);
          i := i + 1;
        } else {
          TurnedMerge(was, peers, i, m);
          ParsedNext(was, peers, i, m);
          var list := next.shown.ips;
          if peer.shown.ips != [] {
            assert peer.last;
            list := peer.shown.ips + list;
          }
          ghost var merged := Merged(peers, i);
          assert peer.shown.ips == [] ==> [] + list == list;
          peers := peers[..i] + [WgPeer(peer.shown.(ips := list), next.last)] + peers[i + 2..];
          assert peers == merged;
        }
        m := m + 1;
      }
      TurnedLast(was, peers, i, m);
    }
  }

  lemma {:induction false} FragmentsSnoc(ps: seq<WgPeer>, p: WgPeer)
    ensures Fragments(ps + [p]) == Fragments(ps) + [p.shown]
  {
    assert (ps + [p])[..|ps|] == ps;
  }

  lemma {:induction false} AcceptableSnoc(fs: seq<Fragment>, f: Fragment)
    requires Acceptable(fs) && forall r | r in f.ips :: InRange(r)
    ensures Acceptable(fs + [f])
  {
  }

  lemma {:induction false} NotAcceptable(fs: seq<Fragment>, i: nat)
    requires i < |fs| && !(forall r | r in fs[i].ips :: InRange(r))
    ensures !Acceptable(fs)
  {
    assert fs[i] in fs;
  }

  lemma {:induction false} NoneAcceptable()
    ensures Acceptable([])
  {
  }

  /** The list after a merge. */
  function Merged(ps: seq<WgPeer>, i: nat): seq<WgPeer>
    requires i + 1 < |ps|
  {
    ps[..i] + [WgPeer(Join(ps[i].shown, ps[i + 1].shown), ps[i + 1].last)] + ps[i + 2..]
  }

  /** The loop has turned the first m fragments into the first i + 1 peers. */
  ghost predicate Turned(was: seq<WgPeer>, ps: seq<WgPeer>, i: nat, m: nat) {
    && 0 < m <= |was| && i < |ps|
    && Fragments(ps[..i + 1]) == Coalesce(Fragments(was)[..m])
    && ps[i + 1..] == was[m..]
  }

  lemma {:induction false} TurnedNext(was: seq<WgPeer>, ps: seq<WgPeer>, i: nat, m: nat)
    requires Turned(was, ps, i, m) && i + 1 < |ps|
    ensures m < |was| && ps[i + 1] == was[m] && ps[i + 2..] == was[m + 1..]
    ensures ps[i].shown.key == was[m - 1].shown.key
    ensures Coalesce(Fragments(was)[..m + 1]) == Extend(Fragments(ps[..i + 1]), was[m].shown)
  {
    hide Fragments;
    var fs := Fragments(was);
    assert ps[i + 1] == ps[i + 1..][0];
    assert was[m] == was[m..][0];
    assert ps[i + 2..] == ps[i + 1..][1..];
    assert was[m + 1..] == was[m..][1..];
    CoalesceSnoc(fs[..m], fs[m]);
    assert fs[..m + 1] == fs[..m] + [fs[m]];
    LastKey(fs[..m]);
    hide Coalesce;
    hide Extend;
    assert Fragments(ps[..i + 1])[i] == ps[i].shown;
  }

  lemma {:induction false} TurnedAdvance(was: seq<WgPeer>, ps: seq<WgPeer>, i: nat, m: nat)
    requires Turned(was, ps, i, m) && i + 1 < |ps| && ps[i].shown.key != ps[i + 1].shown.key
    ensures Turned(was, ps, i + 1, m + 1)
  {
    hide Fragments;
    hide Coalesce;
    TurnedNext(was, ps, i, m);
    assert Fragments(ps[..i + 2]) == Fragments(ps[..i + 1]) + [was[m].shown];
  }

  lemma {:induction false} TurnedMerge(was: seq<WgPeer>, ps: seq<WgPeer>, i: nat, m: nat)
    requires Turned(was, ps, i, m) && i + 1 < |ps| && ps[i].shown.key == ps[i + 1].shown.key
    requires Parsed(was) && Unbroken(Fragments(was))
    ensures Turned(was, Merged(ps, i), i, m + 1) && ps[i + 1].last
  {
    hide Fragments;
    hide Coalesce;
    TurnedNext(was, ps, i, m);
    LastOf(was, m);
    hide Parsed;
    hide Unbroken;
    var found := Fragments(ps[..i + 1]);
    assert Merged(ps, i)[i + 1..] == ps[i + 2..];
    assert Fragments(Merged(ps, i)[..i + 1]) == found[..i] + [Join(found[i], was[m].shown)];
  }

  lemma {:induction false} TurnedFirst(was: seq<WgPeer>)
    requires was != []
    ensures Turned(was, was, 0, 1)
  {
    hide Fragments;
    hide Coalesce;
    Single(Fragments(was));
    assert Fragments(was[..1]) == [Fragments(was)[0]];
  }

  lemma {:induction false} TurnedLast(was: seq<WgPeer>, ps: seq<WgPeer>, i: nat, m: nat)
    requires Turned(was, ps, i, m) && i + 1 == |ps|
    ensures Fragments(ps) == Coalesce(Fragments(was))
  {
    hide Fragments;
    hide Coalesce;
    assert ps[..i + 1] == ps;
    assert |was[m..]| == 0;
    assert Fragments(was)[..m] == Fragments(was);
  }

  lemma {:induction false} ParsedNext(was: seq<WgPeer>, ps: seq<WgPeer>, i: nat, m: nat)
    requires Turned(was, ps, i, m) && i + 1 < |ps| && Parsed(was)
    ensures ps[i + 1].last == (ps[i + 1].shown.ips != [])
  {
    TurnedNext(was, ps, i, m);
    hide Turned;
  }

  lemma {:induction false} LastOf(was: seq<WgPeer>, m: nat)
    requires Parsed(was) && Unbroken(Fragments(was)) && 0 < m < |was| && was[m - 1].shown.key == was[m].shown.key
    ensures was[m].last && was[m].shown.ips != []
  {
    assert Fragments(was)[m].key == Fragments(was)[m - 1].key;
  }

  lemma {:induction false} Single(fs: seq<Fragment>)
    ensures fs == [] ==> Coalesce(fs) == []
    ensures fs != [] ==> Coalesce(fs[..1]) == [fs[0]]
  {
    if fs != [] {
      CoalesceSnoc([], fs[0]);
      assert fs[..1] == [] + [fs[0]];
    }
  }

  // ---------- both sides together

  /** The device as the tools see it. */
  ghost predicate Whole(found: seq<Fragment>, peers: seq<PeerInfo>, all: seq<seq<Item>>) {
    && |found| == |peers| == |all|
    && forall i | 0 <= i < |peers| ::
         found[i].key == peers[i].key && found[i].details == Some(peers[i].details) && ShowsAll(found[i].ips, all[i])
  }

  /** A dump of an unchanged device, whatever the sizes of its messages as long as each has room for one
      address: the tools get every peer once and in order, with its details and every address once.
      One message more than there are peers and addresses is always enough. */
  method DumpDevice(table: Table, info: DeviceInfo, peers: seq<PeerInfo>, capacities: seq<nat>)
    returns (received: Received, done: bool)
    requires table.Valid() && Distinct(peers)
    requires forall n | n in capacities :: Roomy(info, peers, n)
    ensures done ==> received.info == Some(info) && Whole(Fragments(received.peers), peers, Addresses(table, peers))
    ensures |capacities| > Work(Addresses(table, peers), 0) ==> done
  {
    hide Addresses;
    hide Parsed;
    hide Shows;
    hide Table.Holds;
    hide Table.Todo;
    hide Table.Valid;
    hide Table.All;
    hide Coalesce;
    hide Collected;
    hide Unbroken;
    hide Acceptable;
    hide Roomy;
    hide Work;
    hide Fragments;
    hide Dump.Remaining;
    hide Dump.Complete;
    hide Dump.Valid;
    hide Whole;
    received := new Received();
    done := false;
    var dump := new Dump(table, info, peers);
    Nothing(dump);
    ghost var frags := Fragments(received.peers);
    var i := 0;
    while i < |capacities| && !done
      invariant 0 <= i <= |capacities| && fresh(received) && fresh(dump) && fresh(dump.cursor)
      invariant Parsed(received.peers) && frags == Fragments(received.peers) && Unbroken(frags)
      invariant !done ==>
        dump.Valid(frags) && dump.Bounded() && dump.Remaining(dump.sent) + i <= Work(Addresses(table, peers), 0)
      invariant dump.sent > 0 || done ==> received.info == Some(info)
      invariant done ==> dump.Complete(frags)
    {
      assert capacities[i] in capacities;
      var ret, message := dump.NextMessage(capacities[i], frags);
      var ok := received.Parse(message);
      frags := frags + message.peers;
      if ret > 0 {
        dump.ValidBounded(frags);
      }
      done := ret == 0;
      i := i + 1;
    }
    if done {
      received.CoalescePeers();
      CompleteIsWhole(dump, frags);
    }
  }

  lemma {:induction false} Nothing(dump: Dump)
    requires dump.table.Valid() && dump.table.Holds(dump.cursor) && Distinct(dump.peers)
    requires dump.sent == 0 && dump.cursor.seqno == 0
    ensures dump.Valid(Fragments([])) && dump.Bounded() && Unbroken(Fragments([])) && Parsed([])
    ensures dump.Remaining(0) == Work(Addresses(dump.table, dump.peers), 0)
  {
  }

  lemma {:induction false} CompleteIsWhole(dump: Dump, frags: seq<Fragment>)
    requires dump.Complete(frags)
    ensures Whole(Coalesce(frags), dump.peers, Addresses(dump.table, dump.peers))
  {
  }
}
