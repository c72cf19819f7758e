/** The token bucket of wireguard_kernel/src/ratelimiter.c: hash buckets of entries that are
    collected when idle. A worker that does not find its source inserts an entry in a second
    step without looking again, so that an entry may stand before an older one of its source. */
module RateLimiter {
  import opened Options

  const NSEC_PER_SEC: nat := 1_000_000_000
  const PACKETS_PER_SECOND: nat := 20
  const PACKETS_BURSTABLE: nat := 5
  const PACKET_COST: nat := NSEC_PER_SEC / PACKETS_PER_SECOND
  const TOKEN_MAX: nat := PACKET_COST * PACKETS_BURSTABLE

  /** Source address, of which IPv6 uses 64 bits, and network namespace. */
  datatype Source = Source(v6: bool, ip: nat, net: nat)

  datatype Meter = Meter(lastTime: nat, tokens: nat)

  /** struct ratelimiter_entry */
  datatype Entry = Entry(source: Source, meter: Meter)

  // ---------- one source

  function Min(a: nat, b: nat): nat {
    if a <= b then a else b
  }

  /** Time since the last packet; no packet is later than the present. */
  function Elapsed(m: Meter, now: nat): nat {
    if m.lastTime <= now then now - m.lastTime else 0
  }

  /** Tokens at a later time. */
  function Refill(m: Meter, now: nat): nat {
    Min(TOKEN_MAX, m.tokens + Elapsed(m, now))
  }

  /** A packet at some time: the new meter and whether it passes. */
  function Charge(m: Meter, now: nat): (Meter, bool) {
    var tokens := Refill(m, now);
    var ok := tokens >= PACKET_COST;
    (Meter(now, if ok then tokens - PACKET_COST else tokens), ok)
  }

  /** The meter of a new entry, whose packet passes. */
  function First(now: nat): Meter {
    Meter(now, TOKEN_MAX - PACKET_COST)
  }

  predicate Idle(m: Meter, now: nat) {
    now > m.lastTime + NSEC_PER_SEC
  }

  // ---------- one hash bucket

  function Find(entries: seq<Entry>, s: Source): Option<Meter> {
    if entries == [] then None
    else if entries[0].source == s then Some(entries[0].meter)
    else Find(entries[1..], s)
  }

  /** Of two entries for one source the later one stands in front. */
  ghost predicate Shadowed(entries: seq<Entry>) {
    forall i, j | 0 <= i < j < |entries| ::
      entries[i].source == entries[j].source ==> entries[i].meter.lastTime >= entries[j].meter.lastTime
  }

  /** Position i is the first one of its source. */
  ghost predicate Leads(entries: seq<Entry>, i: nat)
    requires i < |entries|
  {
    forall j | 0 <= j < i :: entries[j].source != entries[i].source
  }

  lemma {:induction false} FindAt(entries: seq<Entry>, i: nat)
    requires i < |entries| && Leads(entries, i)
    ensures Find(entries, entries[i].source) == Some(entries[i].meter)
  {
    if i > 0 {
      assert entries[0].source != entries[i].source;
      FindAt(entries[1..], i - 1);
    }
  }

  lemma {:induction false} FindNone(entries: seq<Entry>, s: Source)
    requires forall i | 0 <= i < |entries| :: entries[i].source != s
    ensures Find(entries, s) == None
  {
    if entries != [] { FindNone(entries[1..], s); }
  }

  /** Changing the meter at a leading position changes one answer. */
  lemma {:induction false} FindUpdate(entries: seq<Entry>, i: nat, m: Meter, s: Source)
    requires i < |entries| && Leads(entries, i)
    ensures Find(entries[i := entries[i].(meter := m)], s) == if s == entries[i].source then Some(m)
      else Find(entries, s)
  {
    var e := entries[i := entries[i].(meter := m)];
    if i == 0 {
      assert e[1..] == entries[1..];
    } else {
      assert e[1..] == entries[1..][i - 1 := entries[i].(meter := m)];
      assert entries[0].source != entries[i].source;
      FindUpdate(entries[1..], i - 1, m, s);
    }
  }

  lemma {:induction false} ShadowedUpdate(entries: seq<Entry>, i: nat, m: Meter)
    requires Shadowed(entries) && i < |entries| && Leads(entries, i)
    requires forall j | 0 <= j < |entries| :: entries[j].meter.lastTime <= m.lastTime
    ensures Shadowed(entries[i := entries[i].(meter := m)])
  {
  }

  lemma {:induction false} ShadowedAdd(entries: seq<Entry>, e: Entry)
    requires Shadowed(entries) && forall j | 0 <= j < |entries| :: entries[j].meter.lastTime <= e.meter.lastTime
    ensures Shadowed([e] + entries)
  {
  }

  /** The entries a collection at this time keeps. */
  function Collected(entries: seq<Entry>, now: nat): seq<Entry> {
    if entries == [] then []
    else (if Idle(entries[0].meter, now) then [] else [entries[0]]) + Collected(entries[1..], now)
  }

  lemma {:induction false} CollectedUnfold(entries: seq<Entry>, i: nat, now: nat)
    requires i < |entries|
    ensures Collected(entries[i..], now) ==
      (if Idle(entries[i].meter, now) then [] else [entries[i]]) + Collected(entries[i + 1..], now)
  {
    assert entries[i..][1..] == entries[i + 1..];
  }

  lemma {:induction false} NoneCollected(entries: seq<Entry>, now: nat)
    ensures Collected(entries[|entries|..], now) == []
  {
  }

  lemma {:induction false} CollectedAre(entries: seq<Entry>, now: nat)
    ensures |Collected(entries, now)| <= |entries|
    ensures forall e | e in Collected(entries, now) :: e in entries && !Idle(e.meter, now)
  {
    if entries != [] {
      CollectedAre(entries[1..], now);
    }
  }

  lemma {:induction false} ShadowedBy(entries: seq<Entry>, e: Entry)
    requires Shadowed(entries) && entries != [] && e in entries[1..] && e.source == entries[0].source
    ensures e.meter.lastTime <= entries[0].meter.lastTime
  {
    var j :| 0 <= j < |entries[1..]| && entries[1..][j] == e;
    assert entries[j + 1] == e;
  }

  lemma {:induction false} CollectedShadowed(entries: seq<Entry>, now: nat)
    requires Shadowed(entries)
    ensures Shadowed(Collected(entries, now))
  {
    if entries != [] {
      var rest := Collected(entries[1..], now);
      CollectedShadowed(entries[1..], now);
      CollectedAre(entries[1..], now);
      forall j | 0 <= j < |rest| ensures rest[j].source == entries[0].source ==>
        rest[j].meter.lastTime <= entries[0].meter.lastTime {
        assert rest[j] in rest;
        if rest[j].source == entries[0].source { ShadowedBy(entries, rest[j]); }
      }
    }
  }

  /** What is left of an entry that a collection has passed. */
  function Swept(m: Option<Meter>, passed: bool, now: nat): Option<Meter> {
    if passed && m.Some? && Idle(m.value, now) then None else m
  }

  /** An entry is collected no earlier than those it shadows, so none of them comes to light. */
  lemma {:induction false} FindCollected(entries: seq<Entry>, now: nat, s: Source)
    requires Shadowed(entries)
    ensures Find(Collected(entries, now), s) == Swept(Find(entries, s), true, now)
  {
    if entries != [] {
      var e, rest := entries[0], Collected(entries[1..], now);
      FindCollected(entries[1..], now, s);
      assert ([e] + rest)[1..] == rest && [] + rest == rest;
      if e.source == s && Idle(e.meter, now) {
        CollectedAre(entries[1..], now);
        forall j | 0 <= j < |rest| ensures rest[j].source != s {
          assert rest[j] in rest;
          if rest[j].source == s { ShadowedBy(entries, rest[j]); }
        }
        FindNone(rest, s);
      }
    }
  }

  // ---------- the table

  function Sum(table: seq<seq<Entry>>): nat {
    if table == [] then 0 else |table[0]| + Sum(table[1..])
  }

  lemma {:induction false} SumUpdate(table: seq<seq<Entry>>, i: nat, entries: seq<Entry>)
    requires i < |table|
    ensures Sum(table[i := entries]) == Sum(table) - |table[i]| + |entries|
  {
    if i == 0 {
      assert table[0 := entries][1..] == table[1..];
    } else {
      assert table[i := entries][1..] == table[1..][i - 1 := entries];
      SumUpdate(table[1..], i - 1, entries);
    }
  }

  /** Every bucket holds its own sources, the later entry of one in front, none from the future. */
  ghost predicate Proper(table: seq<seq<Entry>>, size: nat, hash: Source -> nat, clock: nat)
    requires size > 0
  {
    && |table| == size
    && (forall b | 0 <= b < size :: Shadowed(table[b]))
    && (forall b, j | 0 <= b < size && 0 <= j < |table[b]| ::
          hash(table[b][j].source) % size == b && table[b][j].meter.lastTime <= clock)
  }

  /** The entry of a source, by way of its bucket. */
  function Seek(table: seq<seq<Entry>>, size: nat, hash: Source -> nat, s: Source): Option<Meter>
    requires size > 0 && |table| == size
  {
    Find(table[hash(s) % size], s)
  }

  lemma {:induction false} SeekUpdate(table: seq<seq<Entry>>, size: nat, hash: Source -> nat, b: nat, i: nat, m: Meter,
                                      s: Source)
    requires size > 0 && Proper(table, size, hash, m.lastTime) && b < size && i < |table[b]| && Leads(table[b], i)
    ensures var t, e := table[b := table[b][i := table[b][i].(meter := m)]], table[b][i];
      Seek(t, size, hash, s) == if s == e.source then Some(m) else Seek(table, size, hash, s)
  {
    FindUpdate(table[b], i, m, s);
    assert hash(table[b][i].source) % size == b;
  }

  lemma {:induction false} ProperUpdate(table: seq<seq<Entry>>, size: nat, hash: Source -> nat, b: nat, i: nat,
                                        m: Meter)
    requires size > 0 && Proper(table, size, hash, m.lastTime) && b < size && i < |table[b]| && Leads(table[b], i)
    ensures Proper(table[b := table[b][i := table[b][i].(meter := m)]], size, hash, m.lastTime)
  {
    ShadowedUpdate(table[b], i, m);
    hide Shadowed;
  }

  lemma {:induction false} SeekAdd(table: seq<seq<Entry>>, size: nat, hash: Source -> nat, e: Entry, s: Source)
    requires size > 0 && |table| == size
    ensures var b := hash(e.source) % size; var t := table[b := [e] + table[b]];
      Seek(t, size, hash, s) == if s == e.source then Some(e.meter) else Seek(table, size, hash, s)
  {
    var b := hash(e.source) % size;
    assert ([e] + table[b])[1..] == table[b];
  }

  lemma {:induction false} ProperAdd(table: seq<seq<Entry>>, size: nat, hash: Source -> nat, e: Entry)
    requires size > 0 && Proper(table, size, hash, e.meter.lastTime)
    ensures var b := hash(e.source) % size; Proper(table[b := [e] + table[b]], size, hash, e.meter.lastTime)
  {
    ShadowedAdd(table[hash(e.source) % size], e);
    hide Shadowed;
  }

  lemma {:induction false} SeekCollect(table: seq<seq<Entry>>, size: nat, hash: Source -> nat, clock: nat, b: nat,
                                       now: nat, s: Source)
    requires size > 0 && Proper(table, size, hash, clock) && b < size
    ensures var t := table[b := Collected(table[b], now)];
      Seek(t, size, hash, s) == Swept(Seek(table, size, hash, s), hash(s) % size == b, now)
  {
    FindCollected(table[b], now, s);
    hide Collected;
    hide Find;
  }

  lemma {:induction false} ProperCollect(table: seq<seq<Entry>>, size: nat, hash: Source -> nat, clock: nat, b: nat,
                                         now: nat)
    requires size > 0 && Proper(table, size, hash, clock) && b < size
    ensures Proper(table[b := Collected(table[b], now)], size, hash, clock)
  {
    var c := Collected(table[b], now);
    CollectedAre(table[b], now);
    CollectedShadowed(table[b], now);
    hide Collected;
    hide Shadowed;
    forall j | 0 <= j < |c| ensures hash(c[j].source) % size == b && c[j].meter.lastTime <= clock {
      assert c[j] in c;
      var i :| 0 <= i < |table[b]| && table[b][i] == c[j];
    }
  }

  lemma {:induction false} ProperLater(table: seq<seq<Entry>>, size: nat, hash: Source -> nat, clock: nat, now: nat)
    requires size > 0 && Proper(table, size, hash, clock) && clock <= now
    ensures Proper(table, size, hash, now)
  {
    hide Shadowed;
  }

  function Get(live: map<Source, Meter>, s: Source): Option<Meter> {
    if s in live then Some(live[s]) else None
  }

  /** A collection as it looks from outside. */
  function Sweep(live: map<Source, Meter>, now: nat): map<Source, Meter> {
    map s | s in live && !Idle(live[s], now) :: live[s]
  }

  lemma {:induction false} SweepIs(live: map<Source, Meter>, now: nat, s: Source)
    ensures Get(Sweep(live, now), s) == Swept(Get(live, s), true, now)
  {
  }

  /** What the two tables answer is what the map answers. */
  ghost predicate Agrees(t4: seq<seq<Entry>>, t6: seq<seq<Entry>>, size: nat, hash: Source -> nat,
                         live: map<Source, Meter>)
    requires size > 0 && |t4| == size && |t6| == size
  {
    forall s: Source :: Seek(if s.v6 then t6 else t4, size, hash, s) == Get(live, s)
  }

  type Worker = nat

  class Limiter {
    const size: nat
    const maxEntries: nat
    const hash: Source -> nat
    var table4: seq<seq<Entry>>
    var table6: seq<seq<Entry>>
    var totalEntries: nat
    /** Entries taken out of the table whose grace period is not over. */
    var retired: nat
    /** Workers that did not find their source and have not inserted it yet. */
    var pending: map<Worker, Source>
    /** The map the tables stand for, and the latest time seen. */
    ghost var live: map<Source, Meter>
    ghost var clock: nat

    constructor (size: nat, hash: Source -> nat)
      requires size > 0
      ensures Valid() && live == map[] && pending == map[] && clock == 0 && totalEntries == 0
      ensures this.size == size && this.hash == hash && maxEntries == size * 8
    {
      this.size := size;
      maxEntries := size * 8;
      this.hash := hash;
      table4 := seq(size, _ => []);
      table6 := seq(size, _ => []);
      totalEntries := 0;
      retired := 0;
      pending := map[];
      live := map[];
      clock := 0;
      new;
      EmptySum(size);
    }

    ghost predicate Valid()
      reads this`table4, this`table6, this`totalEntries, this`retired, this`live, this`clock
    {
      && size > 0 && Proper(table4, size, hash, clock) && Proper(table6, size, hash, clock)
      && totalEntries == Sum(table4) + Sum(table6) + retired
      && Agrees(table4, table6, size, hash, live)
    }

    function TableOf(v6: bool): seq<seq<Entry>>
      reads this
    {
      if v6 then table6 else table4
    }

    method SetBucket(v6: bool, b: nat, entries: seq<Entry>)
      requires b < |TableOf(v6)|
      modifies this`table4, this`table6
      ensures TableOf(v6) == old(TableOf(v6))[b := entries] && TableOf(!v6) == old(TableOf(!v6))
      ensures Sum(table4) + Sum(table6) == old(Sum(table4) + Sum(table6)) - |old(TableOf(v6))[b]| + |entries|
    {
      SumUpdate(TableOf(v6), b, entries);
      if v6 {
        table6 := table6[b := entries];
      } else {
        table4 := table4[b := entries];
      }
    }

    /** The walk over a bucket: the first position of the source, or the end. */
    method Search(entries: seq<Entry>, s: Source) returns (i: nat)
      ensures i <= |entries| && (i < |entries| ==> entries[i].source == s && Leads(entries, i))
      ensures i == |entries| ==> forall j | 0 <= j < |entries| :: entries[j].source != s
    {
      i := 0;
      while i < |entries|
        invariant i <= |entries| && forall j | 0 <= j < i :: entries[j].source != s
      {
        if entries[i].source == s {
          return;
        }
        i := i + 1;
      }
    }

    /** Time goes on. */
    ghost method Tick(now: nat)
      requires Valid() && now >= clock
      modifies this`clock
      ensures Valid() && clock == now
    {
      ProperLater(table4, size, hash, clock, now);
      ProperLater(table6, size, hash, clock, now);
      hide Proper;
      hide Agrees;
      clock := now;
    }

    /** The first half of wg_ratelimiter_allow: an entry that is found is charged, and that is the answer. */
    method Lookup(w: Worker, s: Source, now: nat) returns (ret: Option<bool>)
      requires Valid() && now >= clock && w !in pending
      modifies this
      ensures Valid() && clock == now && totalEntries == old(totalEntries)
      ensures s in old(live) ==>
        var r := Charge(old(live)[s], now); ret == Some(r.1) && live == old(live)[s := r.0] && pending == old(pending)
      ensures s !in old(live) ==> ret == None && live == old(live) && pending == old(pending)[w := s]
    {
      hide Charge;
      hide Proper;
      hide Leads;
      hide Limiter.Valid;
      Tick(now);
      ValidMeans(s);
      var b := hash(s) % size;
      var entries := TableOf(s.v6)[b];
      var i := Search(entries, s);
      if i < |entries| {
        FindAt(entries, i);
        var r := Charge(entries[i].meter, now);
        ChargedNow(entries[i].meter, now);
        ChangeEntry(s, b, i, r.0);
        return Some(r.1);
      }
      FindNone(entries, s);
      pending := pending[w := s];
      return None;
    }

    lemma {:induction false} ValidMeans(s: Source)
      requires Valid()
      ensures size > 0 && |TableOf(s.v6)| == size && Find(TableOf(s.v6)[hash(s) % size], s) == Get(live, s)
    {
      SeekIs(table4, table6, size, hash, live, s);
    }

    /** A new meter in an entry. */
    method ChangeEntry(s: Source, b: nat, i: nat, m: Meter)
      requires Valid() && b < size && i < |TableOf(s.v6)[b]| && Leads(TableOf(s.v6)[b], i)
      requires TableOf(s.v6)[b][i].source == s && m.lastTime == clock
      modifies this`table4, this`table6, this`live
      ensures Valid() && live == old(live)[s := m]
    {
      hide Sum;
      hide Shadowed;
      hide Find;
      ghost var t := TableOf(s.v6);
      ProperUpdate(t, size, hash, b, i, m);
      var entries := TableOf(s.v6)[b][i := TableOf(s.v6)[b][i].(meter := m)];
      forall x: Source ensures Seek(t[b := entries], size, hash, x) == if x == s then Some(m)
        else Seek(t, size, hash, x) {
        SeekUpdate(t, size, hash, b, i, m, x);
      }
      Store(s, b, entries, m);
    }

    /** Writes a bucket in which only one source has changed. */
    method Store(s: Source, b: nat, entries: seq<Entry>, m: Meter)
      requires size > 0 && Proper(table4, size, hash, clock) && Proper(table6, size, hash, clock)
      requires Agrees(table4, table6, size, hash, live) && b < size
      requires totalEntries == Sum(table4) + Sum(table6) + retired + |entries| - |TableOf(s.v6)[b]|
      requires Proper(TableOf(s.v6)[b := entries], size, hash, clock)
      requires forall x: Source :: Seek(TableOf(s.v6)[b := entries], size, hash, x) == if x == s then Some(m)
        else Seek(TableOf(s.v6), size, hash, x)
      modifies this`table4, this`table6, this`live
      ensures Valid() && live == old(live)[s := m]
    {
      hide Sum;
      hide Shadowed;
      hide Find;
      ghost var t4, t6 := table4, table6;
      SetBucket(s.v6, b, entries);
      Written(t4, t6, table4, table6, size, hash, live, s, m);
      live := live[s := m];
    }

    /** The second half: room permitting, a new entry at the head of the bucket, whether or not one has
        appeared there in the meantime. */
    method Insert(w: Worker, now: nat, memory: bool) returns (ret: bool)
      requires Valid() && now >= clock && w in pending
      modifies this
      ensures Valid() && clock == now && pending == old(pending) - {w}
      ensures ret == (old(totalEntries) < maxEntries && memory)
      ensures totalEntries == old(totalEntries) + if ret then 1 else 0
      ensures live == if ret then old(live)[old(pending)[w] := First(now)] else old(live)
    {
      hide Find;
      hide Sum;
      hide Shadowed;
      Tick(now);
      var s := pending[w];
      pending := pending - {w};
      if totalEntries + 1 > maxEntries || !memory {
        return false;
      }
      totalEntries := totalEntries + 1;
      var b := hash(s) % size;
      var e := Entry(s, First(now));
      ghost var t := TableOf(s.v6);
      ProperAdd(t, size, hash, e);
      forall x: Source ensures Seek(t[b := [e] + t[b]], size, hash, x) == if x == s then Some(e.meter)
        else Seek(t, size, hash, x) {
        SeekAdd(t, size, hash, e, x);
      }
      Store(s, b, [e] + TableOf(s.v6)[b], e.meter);
      return true;
    }

    /** wg_ratelimiter_allow when nothing comes between its halves. Packets of other protocols are refused. */
    method Allow(w: Worker, source: Option<Source>, now: nat, memory: bool) returns (ret: bool)
      requires Valid() && now >= clock && w !in pending
      modifies this
      ensures Valid() && clock == now && pending == old(pending)
      ensures source.None? ==> !ret && live == old(live) && totalEntries == old(totalEntries)
      ensures source.Some? && source.value in old(live) ==>
        var r := Charge(old(live)[source.value], now);
        ret == r.1 && live == old(live)[source.value := r.0] && totalEntries == old(totalEntries)
      ensures source.Some? && source.value !in old(live) ==>
        && ret == (old(totalEntries) < maxEntries && memory)
        && live == (if ret then old(live)[source.value := First(now)] else old(live))
        && totalEntries == old(totalEntries) + if ret then 1 else 0
    {
      hide Charge;
      hide Limiter.Valid;
      if source.None? {
        Tick(now);
        return false;
      }
      var answer := Lookup(w, source.value, now);
      if answer.Some? {
        return answer.value;
      }
      ret := Insert(w, now, memory);
    }

    /** The inner loop of the collection over one bucket. */
    method CollectEntries(entries: seq<Entry>, now: nat) returns (kept: seq<Entry>)
      requires forall e | e in entries :: e.meter.lastTime <= now
      ensures kept == Collected(entries, now)
    {
      hide Collected;
      kept := [];
      assert entries[0..] == entries;
      for i := 0 to |entries|
        invariant Collected(entries, now) == kept + Collected(entries[i..], now)
      {
        CollectedUnfold(entries, i, now);
        if now - entries[i].meter.lastTime <= NSEC_PER_SEC {
          kept := kept + [entries[i]];
        }
      }
      NoneCollected(entries, now);
    }

    /** Proper tables and matching counts, without the map. */
    ghost predicate Sized()
      reads this
    {
      && size > 0 && Proper(table4, size, hash, clock) && Proper(table6, size, hash, clock)
      && totalEntries == Sum(table4) + Sum(table6) + retired
    }

    /** One bucket of one table. */
    method CollectBucket(v6: bool, b: nat, now: nat)
      requires Sized() && b < size && now == clock
      modifies this`table4, this`table6, this`retired
      ensures Sized()
      ensures forall s: Source ::
        Seek(TableOf(s.v6), size, hash, s)
          == Swept(old(Seek(TableOf(s.v6), size, hash, s)), s.v6 == v6 && hash(s) % size == b, now)
    {
      hide Sum;
      hide Shadowed;
      hide Find;
      var entries := TableOf(v6)[b];
      var kept := CollectEntries(entries, now);
      CollectedAre(entries, now);
      ProperCollect(TableOf(v6), size, hash, clock, b, now);
      ghost var t := TableOf(v6);
      forall s: Source ensures Seek(t[b := kept], size, hash, s)
        == Swept(Seek(t, size, hash, s), hash(s) % size == b, now) {
        SeekCollect(t, size, hash, clock, b, now, s);
      }
      hide Collected;
      hide Proper;
      retired := retired + |entries| - |kept|;
      SetBucket(v6, b, kept);
    }

    /** wg_ratelimiter_gc_entries at a time no earlier than any stored one: the idle sources are gone. */
    method GcEntries(now: nat)
      requires Valid() && now >= clock
      modifies this
      ensures Valid() && clock == now && live == Sweep(old(live), now) && pending == old(pending)
      ensures totalEntries == old(totalEntries)
    {
      hide Find;
      hide Sum;
      Tick(now);
      for i := 0 to size
        invariant Sized() && clock == now && live == old(live) && pending == old(pending)
        invariant totalEntries == old(totalEntries)
        invariant forall s: Source ::
          Seek(TableOf(s.v6), size, hash, s) == Swept(old(Seek(TableOf(s.v6), size, hash, s)), hash(s) % size < i, now)
      {
        CollectBucket(false, i, now);
        CollectBucket(true, i, now);
      }
      forall s: Source ensures Get(Sweep(live, now), s) == Swept(Get(live, s), true, now) {
        SweepIs(live, now, s);
      }
      live := Sweep(live, now);
    }

    /** entry_free, after the grace period. */
    method EntryFree()
      requires Valid() && retired > 0
      modifies this`totalEntries, this`retired
      ensures Valid() && totalEntries == old(totalEntries) - 1 && retired == old(retired) - 1
    {
      totalEntries := totalEntries - 1;
      retired := retired - 1;
    }
  }

  lemma {:induction false} ChargedNow(m: Meter, now: nat)
    ensures Charge(m, now).0.lastTime == now
  {
  }

  lemma {:induction false} SeekIs(t4: seq<seq<Entry>>, t6: seq<seq<Entry>>, size: nat, hash: Source -> nat,
                                  live: map<Source, Meter>, s: Source)
    requires size > 0 && |t4| == size && |t6| == size && Agrees(t4, t6, size, hash, live)
    ensures Find((if s.v6 then t6 else t4)[hash(s) % size], s) == Get(live, s)
  {
    hide Find;
    assert Seek(if s.v6 then t6 else t4, size, hash, s) == Get(live, s);
  }

  lemma {:induction false} Written(t4: seq<seq<Entry>>, t6: seq<seq<Entry>>, u4: seq<seq<Entry>>, u6: seq<seq<Entry>>,
                                   size: nat,
                                   hash: Source -> nat, live: map<Source, Meter>, s: Source, m: Meter)
    requires size > 0 && |t4| == size && |t6| == size && |u4| == size && |u6| == size
    requires Agrees(t4, t6, size, hash, live)
    requires if s.v6 then t4 == u4 else t6 == u6
    requires var t, u := if s.v6 then t6 else t4, if s.v6 then u6 else u4;
      forall x: Source :: Seek(u, size, hash, x) == (if x == s then Some(m) else Seek(t, size, hash, x))
    ensures Agrees(u4, u6, size, hash, live[s := m])
  {
    hide Find;
  }

  // ---------- no more sources than entries

  ghost function SourcesOf(entries: seq<Entry>): set<Source> {
    set e | e in entries :: e.source
  }

  lemma {:induction false} FewSources(entries: seq<Entry>)
    ensures |SourcesOf(entries)| <= |entries|
  {
    if entries != [] {
      FewSources(entries[1..]);
      assert entries == [entries[0]] + entries[1..];
      assert SourcesOf(entries) == {entries[0].source} + SourcesOf(entries[1..]);
    } else {
      assert SourcesOf(entries) == {};
    }
  }

  lemma {:induction false} FoundIsSource(entries: seq<Entry>, s: Source)
    requires Find(entries, s).Some?
    ensures s in SourcesOf(entries)
  {
    if entries[0].source != s {
      FoundIsSource(entries[1..], s);
    }
  }

  ghost function AllSources(table: seq<seq<Entry>>): set<Source> {
    if table == [] then {} else SourcesOf(table[0]) + AllSources(table[1..])
  }

  lemma {:induction false} FewInTable(table: seq<seq<Entry>>)
    ensures |AllSources(table)| <= Sum(table)
  {
    hide SourcesOf;
    if table != [] {
      FewSources(table[0]);
      FewInTable(table[1..]);
    }
  }

  lemma {:induction false} BucketInTable(table: seq<seq<Entry>>, b: nat)
    requires b < |table|
    ensures SourcesOf(table[b]) <= AllSources(table)
  {
    hide SourcesOf;
    if b > 0 {
      BucketInTable(table[1..], b - 1);
    }
  }

  lemma {:induction false} FewLive(t4: seq<seq<Entry>>, t6: seq<seq<Entry>>, size: nat, hash: Source -> nat,
                                   live: map<Source, Meter>)
    requires size > 0 && |t4| == size && |t6| == size && Agrees(t4, t6, size, hash, live)
    ensures |live| <= Sum(t4) + Sum(t6)
  {
    hide Find;
    hide SourcesOf;
    hide AllSources;
    hide Sum;
    var all := AllSources(t4) + AllSources(t6);
    forall s | s in live ensures s in all {
      SeekIs(t4, t6, size, hash, live, s);
      var table := if s.v6 then t6 else t4;
      FoundIsSource(table[hash(s) % size], s);
      BucketInTable(table, hash(s) % size);
    }
    FewInTable(t4);
    FewInTable(t6);
    Fewer(live.Keys, all);
  }

  lemma {:induction false} Fewer(a: set<Source>, b: set<Source>)
    requires a <= b
    ensures |a| <= |b|
  {
    assert b == a + (b - a);
  }

  lemma {:induction false} EmptySum(n: nat)
    ensures Sum(seq(n, _ => [])) == 0
  {
    var t: seq<seq<Entry>> := seq(n, _ => []);
    if n > 0 {
      assert t[1..] == seq(n - 1, _ => []);
      EmptySum(n - 1);
    }
  }
}
