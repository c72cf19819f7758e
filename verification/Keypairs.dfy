/** Keypair slots, reference counts and the index table of one peer, as
    wireguard_kernel/src/noise.c keeps them in step. Each operation runs under its
    lock, so it is one step of the machine. */
module Keypairs {
  import opened Options

  type Id = nat

  /** struct noise_keypair. confirmed: an authenticated packet has arrived under it;
      frees: how often it was freed. */
  datatype Keypair = Keypair(initiator: bool, refcount: int, index: Option<nat>, confirmed: bool, frees: nat)

  datatype Entry = HandshakeEntry | KeypairEntry(id: Id)

  type Table = map<nat, Entry>

  /** The keypair an index leads to. */
  function Leads(table: Table, index: nat): Option<Id> {
    if index in table && table[index].KeypairEntry? then Some(table[index].id) else None
  }

  type Pool = map<Id, Keypair>

  /** Who holds references: the three slots, packets, and up to two references that the
      running function has taken over and must give back. */
  datatype Holders = Holders(current: Option<Id>, previous: Option<Id>, next: Option<Id>,
                             packets: seq<Id>, debt: Option<Id>, debt2: Option<Id>)
  {
    function Count(k: Id): nat {
      One(current, k) + One(previous, k) + One(next, k) + InFlight(packets, k) + One(debt, k) + One(debt2, k)
    }

    predicate InSlot(k: Id) {
      current == Some(k) || previous == Some(k) || next == Some(k)
    }

    predicate Owes(k: Id) {
      debt == Some(k) || debt2 == Some(k)
    }
  }

  function One(o: Option<Id>, k: Id): nat {
    if o == Some(k) then 1 else 0
  }

  function InFlight(packets: seq<Id>, k: Id): nat {
    if packets == [] then 0 else (if packets[0] == k then 1 else 0) + InFlight(packets[1..], k)
  }

  // ---------- invariants on values

  /** Every count is the number of references, and a keypair without any was freed once. */
  ghost predicate Counted(pool: Pool, h: Holders) {
    && (forall k | k in pool :: pool[k].refcount == h.Count(k) && pool[k].frees == if h.Count(k) == 0 then 1 else 0)
    && (forall k | k !in pool :: h.Count(k) == 0)
  }

  /** Whatever the table leads to is in a slot, or still owed, and knows its index. */
  ghost predicate Reachable(table: Table, handshake: Option<nat>, pool: Pool, h: Holders) {
    && (forall i | i in table && table[i].KeypairEntry? ::
          && (h.InSlot(table[i].id) || h.Owes(table[i].id))
          && table[i].id in pool && pool[table[i].id].index == Some(i))
    && (handshake.Some? ==> handshake.value in table && table[handshake.value] == HandshakeEntry)
  }

  /** The other way round: a keypair in a slot is listed under its index, and a handshake entry is the current one. */
  ghost predicate Listed(table: Table, handshake: Option<nat>, pool: Pool, h: Holders) {
    && (forall k | h.InSlot(k) && k in pool && pool[k].index.Some? ::
          pool[k].index.value in table && table[pool[k].index.value] == KeypairEntry(k))
    && (forall i | i in table && table[i] == HandshakeEntry :: handshake == Some(i))
  }

  predicate Distinct(h: Holders) {
    && (h.current.Some? ==> h.current != h.previous && h.current != h.next)
    && (h.previous.Some? ==> h.previous != h.next)
  }

  /** The keypair used for sending was made as initiator or proved by a packet. */
  predicate Usable(pool: Pool, h: Holders) {
    h.current.Some? ==> h.current.value in pool && (pool[h.current.value].initiator || pool[h.current.value].confirmed)
  }

  ghost predicate Consistent(table: Table, handshake: Option<nat>, pool: Pool, h: Holders) {
    && Counted(pool, h) && Reachable(table, handshake, pool, h) && Listed(table, handshake, pool, h)
    && Distinct(h) && Usable(pool, h)
  }

  /** wg_index_hashtable_remove for a keypair's entry. */
  function Unhashed(table: Table, pool: Pool, k: Id): Table
    requires k in pool
  {
    var i := pool[k].index;
    if i.Some? && i.value in table && table[i.value] == KeypairEntry(k) then table - {i.value} else table
  }

  /** kref_put: the last reference frees the keypair. */
  function Released(pool: Pool, k: Id): Pool
    requires k in pool
  {
    var x := pool[k];
    pool[k := x.(refcount := x.refcount - 1, frees := x.frees + if x.refcount == 1 then 1 else 0)]
  }

  /** Giving back an owed reference. */
  lemma {:induction false} ReleasedCounted(pool: Pool, h: Holders)
    requires Counted(pool, h) && h.debt.Some?
    ensures h.debt.value in pool && Counted(Released(pool, h.debt.value), h.(debt := None))
  {
    var k := h.debt.value;
    assert h.Count(k) > 0;
  }

  lemma {:induction false} UnhashedReachable(table: Table, hs: Option<nat>, pool: Pool, h: Holders)
    requires Reachable(table, hs, pool, h) && h.debt.Some? && h.debt.value in pool
    ensures Reachable(Unhashed(table, pool, h.debt.value), hs, Released(pool, h.debt.value), h.(debt := None))
  {
  }

  lemma {:induction false} UnhashedListed(table: Table, hs: Option<nat>, pool: Pool, h: Holders)
    requires Listed(table, hs, pool, h) && h.debt.Some? && h.debt.value in pool && !h.InSlot(h.debt.value)
    ensures Listed(Unhashed(table, pool, h.debt.value), hs, Released(pool, h.debt.value), h.(debt := None))
  {
    var g := h.(debt := None);
    assert forall k :: g.InSlot(k) == h.InSlot(k);
  }

  lemma {:induction false} ReleasedReachable(table: Table, hs: Option<nat>, pool: Pool, h: Holders, k: Id)
    requires Reachable(table, hs, pool, h) && k in pool
    ensures Reachable(table, hs, Released(pool, k), h)
  {
  }

  /** A keypair that nobody holds is not in the table. */
  lemma {:induction false} NotUnhashed(table: Table, hs: Option<nat>, pool: Pool, h: Holders, k: Id)
    requires Reachable(table, hs, pool, h) && k in pool && h.Count(k) == 0
    ensures Unhashed(table, pool, k) == table
  {
  }

  lemma {:induction false} ReleasedListed(table: Table, hs: Option<nat>, pool: Pool, h: Holders, k: Id)
    requires Listed(table, hs, pool, h) && k in pool
    ensures Listed(table, hs, Released(pool, k), h.(debt := None))
  {
    var g := h.(debt := None);
    assert forall x :: g.InSlot(x) == h.InSlot(x);
  }

  /** Only entries of keypairs disappeared. */
  ghost predicate Shrunk(before: Table, after: Table) {
    && (forall i | i in after :: i in before && after[i] == before[i])
    && (forall i | i in before && before[i] == HandshakeEntry :: i in after)
  }

  lemma {:induction false} ShrunkTrans(a: Table, b: Table, c: Table)
    requires Shrunk(a, b) && Shrunk(b, c)
    ensures Shrunk(a, c)
  {
  }

  /** wg_noise_keypair_put with unreference_now keeps everything consistent. */
  lemma {:induction false} PutNow(table: Table, hs: Option<nat>, pool: Pool, h: Holders)
    requires Consistent(table, hs, pool, h) && h.debt.Some? && !h.InSlot(h.debt.value)
    ensures var k := h.debt.value;
      && k in pool && Unhashed(Unhashed(table, pool, k), pool, k) == Unhashed(table, pool, k)
      && Consistent(Unhashed(table, pool, k), hs, Released(pool, k), h.(debt := None))
      && Shrunk(table, Unhashed(table, pool, k))
  {
    ReleasedCounted(pool, h);
    UnhashedReachable(table, hs, pool, h);
    UnhashedListed(table, hs, pool, h);
    hide Counted;
    hide Listed;
  }

  /** wg_noise_keypair_put without it: the table must not depend on the reference. */
  lemma {:induction false} PutLater(table: Table, hs: Option<nat>, pool: Pool, h: Holders)
    requires Consistent(table, hs, pool, h) && h.debt.Some? && Reachable(table, hs, pool, h.(debt := None))
    ensures var k := h.debt.value;
      && k in pool && (pool[k].refcount == 1 ==> Unhashed(table, pool, k) == table)
      && Consistent(table, hs, Released(pool, k), h.(debt := None))
  {
    var k := h.debt.value;
    ReleasedCounted(pool, h);
    ReleasedListed(table, hs, pool, h, k);
    ReleasedReachable(table, hs, pool, h.(debt := None), k);
    assert h.Count(k) == 1 + h.(debt := None).Count(k);
    if pool[k].refcount == 1 {
      NotUnhashed(table, hs, pool, h.(debt := None), k);
    }
    hide Listed;
    hide Reachable;
    hide Unhashed;
  }

  lemma {:induction false} SwapDebts(table: Table, hs: Option<nat>, pool: Pool, h: Holders)
    requires Consistent(table, hs, pool, h)
    ensures Consistent(table, hs, pool, h.(debt := h.debt2, debt2 := h.debt))
  {
    var g := h.(debt := h.debt2, debt2 := h.debt);
    assert forall k :: g.Count(k) == h.Count(k) && g.InSlot(k) == h.InSlot(k);
  }

  // ---------- the machine behind the peer

  /** What does not change about a keypair by counting. */
  datatype Info = Info(initiator: bool, index: Option<nat>, confirmed: bool)

  function InfoOf(pool: Pool): map<Id, Info> {
    map k | k in pool :: Info(pool[k].initiator, pool[k].index, pool[k].confirmed)
  }

  lemma {:induction false} ReleasedInfo(pool: Pool, k: Id)
    requires k in pool
    ensures InfoOf(Released(pool, k)) == InfoOf(pool)
  {
  }

  /** Slots, packets and the handshake's index: no counts, no index table. */
  datatype State = State(current: Option<Id>, previous: Option<Id>, next: Option<Id>, packets: seq<Id>,
                         handshake: Option<nat>, info: map<Id, Info>, dead: bool)
  {
    predicate Sits(k: Id) {
      current == Some(k) || previous == Some(k) || next == Some(k)
    }

    predicate Under(slot: Option<Id>, index: nat) {
      slot.Some? && slot.value in info && info[slot.value].index == Some(index)
    }

    /** The keypair in a slot that has the index. */
    function Finds(index: nat): Option<Id> {
      if Under(current, index) then current
      else if Under(previous, index) then previous
      else if Under(next, index) then next
      else None
    }
  }

  /** A handshake gets an index that no keypair in a slot has. */
  function Hashed(s: State, index: nat): State {
    s.(handshake := if s.Finds(index).None? then Some(index) else None)
  }

  /** A new keypair takes its slot and the index of the handshake. */
  function Begun(s: State, id: Id, initiator: bool): State {
    var info := s.info[id := Info(initiator, s.handshake, false)];
    if s.dead then s
    else if initiator then
      State(Some(id), if s.next.Some? then s.next else s.current, None, s.packets, None, info, s.dead)
    else State(s.current, None, Some(id), s.packets, None, info, s.dead)
  }

  /** A packet takes a reference. */
  function Carried(s: State, k: Option<Id>): State {
    if k.Some? then s.(packets := s.packets + [k.value]) else s
  }

  function Dropped(s: State, j: nat): State {
    if j < |s.packets| then s.(packets := s.packets[..j] + s.packets[j + 1..]) else s
  }

  /** The keypair of an authenticated packet is confirmed, and promoted if it was the next one. */
  function Confirmed(s: State, k: Id): State {
    if k !in s.info then s
    else
      var t := s.(info := s.info[k := s.info[k].(confirmed := true)]);
      if s.next == Some(k) then t.(current := Some(k), previous := s.current, next := None) else t
  }

  class Peer {
    var current: Option<Id>
    var previous: Option<Id>
    var next: Option<Id>
    var table: Table
    var handshakeIndex: Option<nat>
    var pool: Pool
    /** References carried by packets. */
    var packets: seq<Id>
    var isDead: bool

    ghost function H(debt: Option<Id>, debt2: Option<Id>): Holders
      reads this
    {
      Holders(current, previous, next, packets, debt, debt2)
    }

    ghost function View(): State
      reads this
    {
      State(current, previous, next, packets, handshakeIndex, InfoOf(pool), isDead)
    }

    /** The invariant while the running function owes references. */
    ghost predicate Owing(debt: Option<Id>, debt2: Option<Id>)
      reads this
    {
      Consistent(table, handshakeIndex, pool, H(debt, debt2))
    }

    /** Counts match the holders, a keypair is freed once, only keypairs in a slot can be found
        by index, the slots differ, and the current keypair may be used for sending. */
    ghost predicate Valid()
      reads this
    {
      Owing(None, None)
    }

    constructor ()
      ensures Valid() && View() == State(None, None, None, [], None, map[], false)
    {
      current, previous, next := None, None, None;
      table := map[];
      handshakeIndex := None;
      pool := map[];
      packets := [];
      isDead := false;
    }

    /** wg_noise_keypair_put: gives one reference back; the last one frees the keypair. */
    method Put(k: Option<Id>, unreferenceNow: bool, ghost other: Option<Id>)
      requires Owing(k, other)
      requires !unreferenceNow ==> Reachable(table, handshakeIndex, pool, H(None, other))
      requires unreferenceNow && k.Some? ==> !H(None, other).InSlot(k.value)
      modifies this`table, this`pool
      ensures Owing(None, other) && Shrunk(old(table), table)
      ensures k.Some? ==> k.value in old(pool) && pool == Released(old(pool), k.value)
      ensures k.None? ==> pool == old(pool)
      ensures InfoOf(pool) == InfoOf(old(pool))
    {
      hide Consistent;
      hide Reachable;
      hide InfoOf;
      hide Unhashed;
      hide Released;
      ghost var h := H(k, other);
      if k.None? {
        return;
      }
      if unreferenceNow {
        PutNow(table, handshakeIndex, pool, h);
        table := Unhashed(table, pool, k.value);
      } else {
        PutLater(table, handshakeIndex, pool, h);
      }
      if pool[k.value].refcount == 1 {
        table := Unhashed(table, pool, k.value);
      }
      ReleasedInfo(pool, k.value);
      pool := Released(pool, k.value);
    }

    /** Gives back the references of two displaced keypairs. */
    method Settle(a: Option<Id>, b: Option<Id>)
      requires Owing(a, b)
      requires (a.Some? ==> !H(a, b).InSlot(a.value)) && (b.Some? ==> !H(a, b).InSlot(b.value))
      modifies this`table, this`pool
      ensures Valid() && Shrunk(old(table), table) && InfoOf(pool) == InfoOf(old(pool))
    {
      hide Consistent;
      hide InfoOf;
      Put(a, true, b);
      SwapDebts(table, handshakeIndex, pool, H(None, b));
      Put(b, true, None);
    }

    /** add_new_keypair. The whole exchange happens under the update lock; the slots are
        written first here and the displaced references given back afterwards. */
    method AddNewKeypair(k: Id)
      requires Owing(Some(k), None) && k in pool && pool[k].refcount == 1 && pool[k].index == None
      requires forall i | i in table :: table[i] != KeypairEntry(k)
      modifies this`current, this`previous, this`next, this`table, this`pool
      ensures Valid() && Shrunk(old(table), table)
      ensures old(pool[k].initiator) ==>
        current == Some(k) && next == None && previous == if old(next).Some? then old(next) else old(current)
      ensures !old(pool[k].initiator) ==> current == old(current) && next == Some(k) && previous == None
      ensures InfoOf(pool) == InfoOf(old(pool))
    {
      var p, n, c := previous, next, current;
      Promote(table, handshakeIndex, pool, H(Some(k), None), k);
      hide Consistent;
      hide InfoOf;
      if pool[k].initiator {
        if n.Some? {
          next := None;
          previous := n;
          current := Some(k);
          Settle(c, p);
        } else {
          previous := c;
          current := Some(k);
          Settle(p, None);
        }
      } else {
        next := Some(k);
        previous := None;
        Settle(n, p);
      }
    }

    /** wg_noise_received_with_keypair: the first packet under the next keypair makes it the
        current one. */
    method ReceivedWithKeypair(k: Id) returns (isNew: bool)
      requires Valid() && k in pool && pool[k].confirmed
      modifies this`current, this`previous, this`next, this`table, this`pool
      ensures Valid() && Shrunk(old(table), table) && isNew == (old(next) == Some(k))
      ensures isNew ==> current == Some(k) && previous == old(current) && next == None
      ensures !isNew ==> current == old(current) && previous == old(previous) && next == old(next) && pool == old(pool)
      ensures InfoOf(pool) == InfoOf(old(pool))
    {
      Unchanged(table);
      if next != Some(k) {
        return false;
      }
      Slide(table, handshakeIndex, pool, H(None, None), k);
      hide Consistent;
      hide InfoOf;
      var p := previous;
      previous := current;
      current := Some(k);
      next := None;
      Settle(p, None);
      return true;
    }

    /** wg_noise_keypairs_clear */
    method Clear()
      requires Valid()
      modifies this`current, this`previous, this`next, this`table, this`pool
      ensures Valid() && Shrunk(old(table), table) && current == None && previous == None && next == None
      ensures InfoOf(pool) == InfoOf(old(pool))
    {
      hide Consistent;
      hide InfoOf;
      hide Reachable;
      hide Released;
      hide Shrunk;
      ghost var before := table;
      Vacate(table, handshakeIndex, pool, H(None, None));
      var p := previous;
      previous := None;
      Put(p, true, None);
      ghost var between := table;
      Vacate(table, handshakeIndex, pool, H(None, None));
      var n := next;
      next := None;
      Put(n, true, None);
      ShrunkTrans(before, between, table);
      between := table;
      Vacate(table, handshakeIndex, pool, H(None, None));
      var c := current;
      current := None;
      Put(c, true, None);
      ShrunkTrans(before, between, table);
    }

    /** wg_noise_keypair_get into a packet. */
    method Take(k: Id) returns (ok: bool)
      requires Valid() && k in pool
      modifies this`pool, this`packets
      ensures Valid() && ok == (old(pool)[k].refcount != 0)
      ensures packets == old(packets) + (if ok then [k] else []) && pool.Keys == old(pool).Keys
      ensures InfoOf(pool) == InfoOf(old(pool))
    {
      hide Consistent;
      hide InfoOf;
      if pool[k].refcount == 0 {
        return false;
      }
      TakeCounted(table, handshakeIndex, pool, H(None, None), k);
      TakenInfo(pool, k);
      pool := pool[k := pool[k].(refcount := pool[k].refcount + 1)];
      packets := packets + [k];
      return true;
    }

    /** wg_packet_send_staged_packets takes the current keypair: never one that is unconfirmed. */
    method SendWithCurrent() returns (k: Option<Id>)
      requires Valid()
      modifies this`pool, this`packets
      ensures Valid() && k == old(current)
      ensures View() == Carried(old(View()), k)
      ensures k.Some? ==> k.value in old(pool) && (old(pool)[k.value].initiator || old(pool)[k.value].confirmed)
    {
      if current.None? {
        return None;
      }
      SlotLive(table, handshakeIndex, pool, H(None, None), current.value);
      hide Consistent;
      hide InfoOf;
      var ok := Take(current.value);
      return current;
    }

    /** wg_packet_consume_data finds a keypair by index: only one that is in a slot. */
    method ReceiveFor(index: nat) returns (k: Option<Id>)
      requires Valid()
      modifies this`pool, this`packets
      ensures Valid()
      ensures k == old(View()).Finds(index) && View() == Carried(old(View()), k)
    {
      FindsIs(table, handshakeIndex, pool, H(None, None), View(), index);
      if index !in table || table[index].HandshakeEntry? {
        return None;
      }
      var id := table[index].id;
      SlotLive(table, handshakeIndex, pool, H(None, None), id);
      hide Consistent;
      hide InfoOf;
      var ok := Take(id);
      return Some(id);
    }

    /** A packet is done with its keypair. */
    method DropPacket(j: nat)
      requires Valid() && j < |packets|
      modifies this`pool, this`packets, this`table
      ensures Valid() && View() == Dropped(old(View()), j)
    {
      var k := packets[j];
      DropCounted(table, handshakeIndex, pool, H(None, None), j);
      hide Consistent;
      hide Reachable;
      hide InfoOf;
      packets := packets[..j] + packets[j + 1..];
      Put(Some(k), false, None);
    }

    /** wg_packet_consume_data_done for an authenticated packet, and its release. */
    method Deliver(j: nat)
      requires Valid() && j < |packets|
      modifies this`pool, this`packets, this`table, this`current, this`previous, this`next
      ensures Valid() && View() == Dropped(Confirmed(old(View()), old(packets)[j]), j)
    {
      hide Consistent;
      hide InfoOf;
      hide Shrunk;
      hide Dropped;
      var k := packets[j];
      Prove(table, handshakeIndex, pool, H(None, None), j);
      ConfirmedInfo(pool, k);
      pool := pool[k := pool[k].(confirmed := true)];
      var isNew := ReceivedWithKeypair(k);
      assert View() == Confirmed(old(View()), k);
      DropPacket(j);
    }

    /** wg_index_hashtable_insert for the handshake entry, once an unused index is found. */
    method InsertHandshake(index: nat) returns (ok: bool)
      requires Valid()
      modifies this`table, this`handshakeIndex
      ensures Valid() && View() == Hashed(old(View()), index) && ok == handshakeIndex.Some?
    {
      RemoveHandshake();
      FindsIs(table, handshakeIndex, pool, H(None, None), View(), index);
      if index in table {
        return false;
      }
      table := table[index := HandshakeEntry];
      handshakeIndex := Some(index);
      return true;
    }

    /** wg_index_hashtable_remove for the handshake entry. */
    method RemoveHandshake()
      requires Valid()
      modifies this`table, this`handshakeIndex
      ensures Valid() && View() == old(View()).(handshake := None)
      ensures table == if old(handshakeIndex).Some? then old(table) - {old(handshakeIndex).value} else old(table)
    {
      if handshakeIndex.Some? {
        table := table - {handshakeIndex.value};
      }
      handshakeIndex := None;
    }

    /** keypair_create and add_new_keypair. */
    method AddSession(id: Id, initiator: bool)
      requires Valid() && id !in pool
      modifies this`pool, this`table, this`current, this`previous, this`next
      ensures Valid() && id in pool && pool[id].initiator == initiator && !pool[id].confirmed && pool[id].index == None
      ensures InfoOf(pool) == InfoOf(old(pool))[id := Info(initiator, None, false)]
      ensures initiator ==>
        current == Some(id) && next == None && previous == if old(next).Some? then old(next) else old(current)
      ensures !initiator ==> current == old(current) && next == Some(id) && previous == None
      ensures H(None, None).InSlot(id) && forall i | i in table :: table[i] != KeypairEntry(id)
    {
      hide Consistent;
      hide InfoOf;
      Create(table, handshakeIndex, pool, H(None, None), id, initiator);
      BegunInfo(pool, id, initiator);
      pool := pool[id := Keypair(initiator, 1, None, false, 0)];
      AddNewKeypair(id);
      KnownInfo(pool, id, Info(initiator, None, false));
    }

    /** The end of wg_noise_handshake_begin_session: a new keypair takes its slot and the index of
        the handshake. */
    method BeginSession(id: Id, initiator: bool) returns (ok: bool)
      requires Valid() && id !in pool
      modifies this`pool, this`table, this`handshakeIndex, this`current, this`previous, this`next
      ensures Valid() && ok == (!isDead && old(handshakeIndex).Some?)
      ensures View() == Begun(old(View()), id, initiator)
      ensures ok ==> old(handshakeIndex).value in table && table[old(handshakeIndex).value] == KeypairEntry(id)
    {
      hide Consistent;
      hide InfoOf;
      hide Shrunk;
      if isDead {
        return false;
      }
      AddSession(id, initiator);
      if handshakeIndex.None? {
        return false;
      }
      var i := handshakeIndex.value;
      Replace(table, i, pool, H(None, None), id);
      IndexedInfo(pool, id, i);
      table := table[i := KeypairEntry(id)];
      pool := pool[id := pool[id].(index := Some(i))];
      handshakeIndex := None;
      return true;
    }
  }

  lemma {:induction false} BegunInfo(pool: Pool, id: Id, initiator: bool)
    ensures InfoOf(pool[id := Keypair(initiator, 1, None, false, 0)])
      == InfoOf(pool)[id := Info(initiator, None, false)]
  {
  }

  lemma {:induction false} IndexedInfo(pool: Pool, id: Id, i: nat)
    requires id in pool
    ensures InfoOf(pool[id := pool[id].(index := Some(i))])
      == InfoOf(pool)[id := Info(pool[id].initiator, Some(i), pool[id].confirmed)]
    ensures InfoOf(pool)[id] == Info(pool[id].initiator, pool[id].index, pool[id].confirmed)
  {
  }

  lemma {:induction false} KnownInfo(pool: Pool, id: Id, i: Info)
    requires id in InfoOf(pool) && InfoOf(pool)[id] == i
    ensures id in pool && pool[id].initiator == i.initiator && pool[id].index == i.index
    ensures pool[id].confirmed == i.confirmed
  {
  }

  lemma {:induction false} TakenInfo(pool: Pool, k: Id)
    requires k in pool
    ensures InfoOf(pool[k := pool[k].(refcount := pool[k].refcount + 1)]) == InfoOf(pool)
  {
  }

  lemma {:induction false} ConfirmedInfo(pool: Pool, k: Id)
    requires k in pool
    ensures k in InfoOf(pool)
    ensures InfoOf(pool[k := pool[k].(confirmed := true)]) == InfoOf(pool)[k := InfoOf(pool)[k].(confirmed := true)]
  {
  }

  /** Looking an index up in the table is looking for it among the slots. */
  lemma {:induction false} FindsIs(table: Table, hs: Option<nat>, pool: Pool, h: Holders, s: State, index: nat)
    requires Consistent(table, hs, pool, h) && h.debt == None && h.debt2 == None
    requires s.info == InfoOf(pool) && s.current == h.current && s.previous == h.previous && s.next == h.next
    ensures s.Finds(index) == Leads(table, index)
    ensures s.Finds(index).Some? ==> h.InSlot(s.Finds(index).value)
    ensures index in table && table[index] == HandshakeEntry ==> hs == Some(index)
  {
    if s.Finds(index).Some? {
      var k := s.Finds(index).value;
      assert h.InSlot(k);
    }
    if index in table && table[index].KeypairEntry? {
      var k := table[index].id;
      assert h.InSlot(k);
    }
  }

  /** A keypair in a slot, or found by index, has not been freed. */
  lemma {:induction false} SlotLive(table: Table, hs: Option<nat>, pool: Pool, h: Holders, k: Id)
    requires Consistent(table, hs, pool, h) && h.InSlot(k)
    ensures k in pool && pool[k].refcount > 0 && pool[k].frees == 0
  {
    assert h.Count(k) > 0;
  }

  lemma {:induction false} InFlightAppend(a: seq<Id>, b: seq<Id>, k: Id)
    ensures InFlight(a + b, k) == InFlight(a, k) + InFlight(b, k)
  {
    if a == [] {
      assert a + b == b;
    } else {
      assert (a + b)[1..] == a[1..] + b;
      InFlightAppend(a[1..], b, k);
    }
  }

  /** Which keypairs can be found depends on slots, debts and indices only. */
  lemma {:induction false} SameSlots(table: Table, hs: Option<nat>, pool: Pool, h: Holders, pool': Pool, g: Holders)
    requires Reachable(table, hs, pool, h) && Listed(table, hs, pool, h) && Distinct(h) && Usable(pool, h)
    requires g.current == h.current && g.previous == h.previous && g.next == h.next
    requires forall k :: h.Owes(k) ==> g.Owes(k)
    requires pool'.Keys == pool.Keys
    requires forall k | k in pool ::
      pool'[k].index == pool[k].index && pool'[k].initiator == pool[k].initiator
        && (pool[k].confirmed ==> pool'[k].confirmed)
    ensures Reachable(table, hs, pool', g) && Listed(table, hs, pool', g) && Distinct(g) && Usable(pool', g)
  {
    assert forall k :: g.InSlot(k) == h.InSlot(k);
  }

  lemma {:induction false} TakeCounted(table: Table, hs: Option<nat>, pool: Pool, h: Holders, k: Id)
    requires Consistent(table, hs, pool, h) && k in pool && pool[k].refcount != 0
    ensures Consistent(table, hs, pool[k := pool[k].(refcount := pool[k].refcount + 1)], h.(packets := h.packets + [k]))
  {
    TakenCounts(pool, h, k);
    hide Counted;
    var taken := pool[k := pool[k].(refcount := pool[k].refcount + 1)];
    SameSlots(table, hs, pool, h, taken, h.(packets := h.packets + [k]));
  }

  lemma {:induction false} TakenCounts(pool: Pool, h: Holders, k: Id)
    requires Counted(pool, h) && k in pool && pool[k].refcount != 0
    ensures Counted(pool[k := pool[k].(refcount := pool[k].refcount + 1)], h.(packets := h.packets + [k]))
  {
    var g := h.(packets := h.packets + [k]);
    hide Holders.Count;
    forall x ensures g.Count(x) == h.Count(x) + One(Some(k), x) {
      TakenCount(h, k, x);
    }
  }

  lemma {:induction false} TakenCount(h: Holders, k: Id, x: Id)
    ensures h.(packets := h.packets + [k]).Count(x) == h.Count(x) + One(Some(k), x)
  {
    InFlightAppend(h.packets, [k], x);
    assert InFlight([k], x) == One(Some(k), x);
  }

  lemma {:induction false} DropCounted(table: Table, hs: Option<nat>, pool: Pool, h: Holders, j: nat)
    requires Consistent(table, hs, pool, h) && j < |h.packets| && h.debt == None
    ensures var g := h.(packets := h.packets[..j] + h.packets[j + 1..]);
      Consistent(table, hs, pool, g.(debt := Some(h.packets[j]))) && Reachable(table, hs, pool, g)
  {
    var k := h.packets[j];
    var g := h.(packets := h.packets[..j] + h.packets[j + 1..], debt := Some(k));
    forall x ensures g.Count(x) == h.Count(x) {
      InFlightAppend(h.packets[..j], h.packets[j..], x);
      InFlightAppend(h.packets[..j], h.packets[j + 1..], x);
      assert h.packets == h.packets[..j] + h.packets[j..] && h.packets[j..][1..] == h.packets[j + 1..];
    }
  }

  lemma {:induction false} Prove(table: Table, hs: Option<nat>, pool: Pool, h: Holders, j: nat)
    requires Consistent(table, hs, pool, h) && j < |h.packets|
    ensures var k := h.packets[j]; k in pool && Consistent(table, hs, pool[k := pool[k].(confirmed := true)], h)
  {
    var k := h.packets[j];
    InFlightAppend(h.packets[..j], h.packets[j..], k);
    assert h.packets == h.packets[..j] + h.packets[j..];
    assert h.Count(k) > 0;
  }

  lemma {:induction false} Create(table: Table, hs: Option<nat>, pool: Pool, h: Holders, id: Id, initiator: bool)
    requires Consistent(table, hs, pool, h) && id !in pool && h.debt == None && h.debt2 == None
    ensures Consistent(table, hs, pool[id := Keypair(initiator, 1, None, false, 0)], h.(debt := Some(id)))
    ensures forall i | i in table :: table[i] != KeypairEntry(id)
  {
    hide Holders.Count;
    var g, made := h.(debt := Some(id)), pool[id := Keypair(initiator, 1, None, false, 0)];
    assert forall x :: g.InSlot(x) == h.InSlot(x);
    CreatedCounts(pool, h, id, initiator);
    assert h.Count(id) == 0;
    hide Counted;
  }

  lemma {:induction false} CreatedCounts(pool: Pool, h: Holders, id: Id, initiator: bool)
    requires Counted(pool, h) && id !in pool && h.debt == None
    ensures Counted(pool[id := Keypair(initiator, 1, None, false, 0)], h.(debt := Some(id)))
  {
    var g := h.(debt := Some(id));
    assert forall x :: g.Count(x) == h.Count(x) + One(Some(id), x);
    hide Holders.Count;
  }

  /** wg_index_hashtable_replace: the keypair takes over the index of the handshake. */
  lemma {:induction false} Replace(table: Table, i: nat, pool: Pool, h: Holders, id: Id)
    requires Consistent(table, Some(i), pool, h) && h.InSlot(id) && id in pool && h.debt == None && h.debt2 == None
    requires forall j | j in table :: table[j] != KeypairEntry(id)
    ensures Consistent(table[i := KeypairEntry(id)], None, pool[id := pool[id].(index := Some(i))], h)
  {
  }

  lemma {:induction false} Unchanged(table: Table)
    ensures Shrunk(table, table)
  {
  }

  /** Moving references between the slots and the running function, without a change of any count. */
  lemma {:induction false} Moved(table: Table, hs: Option<nat>, pool: Pool, h: Holders, g: Holders)
    requires Consistent(table, hs, pool, h) && Distinct(g) && Usable(pool, g)
    requires forall x :: g.Count(x) == h.Count(x)
    requires forall x :: h.InSlot(x) || h.Owes(x) ==> g.InSlot(x) || g.Owes(x)
    requires forall x | g.InSlot(x) :: h.InSlot(x) || (x in pool && pool[x].index == None)
    ensures Consistent(table, hs, pool, g)
  {
    hide Distinct;
    hide Usable;
    hide Holders.Count;
    hide Holders.Owes;
    hide Holders.InSlot;
  }

  /** The confirmed next keypair moves to current, current to previous. */
  lemma {:induction false} Slide(table: Table, hs: Option<nat>, pool: Pool, h: Holders, k: Id)
    requires Consistent(table, hs, pool, h) && h.debt == None && h.debt2 == None && h.next == Some(k) && k in pool
    requires pool[k].confirmed
    ensures Settled(table, hs, pool, Holders(Some(k), h.current, None, h.packets, h.previous, None))
  {
    var a := Holders(Some(k), h.current, None, h.packets, h.previous, None);
    hide Counted;
    hide Reachable;
    hide Listed;
    hide InFlight;
    Moved(table, hs, pool, h, a);
  }

  /** A slot that is emptied leaves its reference to the running function. */
  lemma {:induction false} Vacate(table: Table, hs: Option<nat>, pool: Pool, h: Holders)
    requires Consistent(table, hs, pool, h) && h.debt == None && h.debt2 == None
    ensures Settled(table, hs, pool, h.(previous := None, debt := h.previous))
    ensures Settled(table, hs, pool, h.(next := None, debt := h.next))
    ensures Settled(table, hs, pool, h.(current := None, debt := h.current))
  {
    hide Counted;
    hide Reachable;
    hide Listed;
    hide InFlight;
    Moved(table, hs, pool, h, h.(previous := None, debt := h.previous));
    Moved(table, hs, pool, h, h.(next := None, debt := h.next));
    Moved(table, hs, pool, h, h.(current := None, debt := h.current));
  }

  /** The three ways a new keypair can take its slot. */
  lemma {:induction false} Promote(table: Table, hs: Option<nat>, pool: Pool, h: Holders, k: Id)
    requires Consistent(table, hs, pool, h) && h.debt == Some(k) && h.debt2 == None && k in pool
    requires pool[k].refcount == 1
    requires pool[k].index == None
    ensures pool[k].initiator && h.next.Some? ==>
      Settled(table, hs, pool, Holders(Some(k), h.next, None, h.packets, h.current, h.previous))
    ensures pool[k].initiator && h.next.None? ==>
      Settled(table, hs, pool, Holders(Some(k), h.current, None, h.packets, h.previous, None))
    ensures !pool[k].initiator ==>
      Settled(table, hs, pool, Holders(h.current, None, Some(k), h.packets, h.next, h.previous))
  {
    assert h.Count(k) == 1;
    hide Counted;
    hide Reachable;
    hide Listed;
    hide InFlight;
    assert !h.InSlot(k);
    if !pool[k].initiator {
      Moved(table, hs, pool, h, Holders(h.current, None, Some(k), h.packets, h.next, h.previous));
    } else if h.next.Some? {
      Moved(table, hs, pool, h, Holders(Some(k), h.next, None, h.packets, h.current, h.previous));
    } else {
      Moved(table, hs, pool, h, Holders(Some(k), h.current, None, h.packets, h.previous, None));
    }
  }

  /** Consistent, and what is owed is in no slot. */
  ghost predicate Settled(table: Table, hs: Option<nat>, pool: Pool, h: Holders) {
    && Consistent(table, hs, pool, h)
    && (h.debt.Some? ==> !h.InSlot(h.debt.value)) && (h.debt2.Some? ==> !h.InSlot(h.debt2.value))
  }

}
