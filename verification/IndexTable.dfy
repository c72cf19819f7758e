/** The kernel's index hash table, wireguard_kernel/src/hashtables.c, shared by threads
    that insert in two parts: an unlocked search for an unused index and a check
    under the lock. Every method is one uninterrupted step of some thread. */
module IndexTable {
  import opened Bits
  import opened Options

  type Id = nat
  type Thread = nat

  const HASH_SIZE: nat := 8192

  /** Where an insertion stands: about to draw an index, about to search for it without the
      lock, or about to take the lock. */
  datatype Phase = Drawing | Drawn | Searched

  datatype Insertion = Insertion(entry: Id, phase: Phase)

  /** index_bucket */
  function Bucket(index: nat): nat {
    And(index, HASH_SIZE - 1)
  }

  lemma {:induction false} BucketIs(index: nat)
    ensures Bucket(index) == index % HASH_SIZE
  {
    Thirteen();
    hide Pow2;
    hide And;
    AndMask(index, 13);
  }

  lemma {:induction false} Thirteen()
    ensures Pow2(13) == HASH_SIZE
  {
    assert Pow2(8) == 256 && Pow2(5) == 32;
    Pow2Add(8, 5);
  }

  /** The first entry of a bucket list with the given index. */
  function Find(list: seq<Id>, index: map<Id, nat>, i: nat): Option<Id>
    requires forall e | e in list :: e in index
  {
    if list == [] then None
    else if index[list[0]] == i then Some(list[0])
    else Find(list[1..], index, i)
  }

  lemma {:induction false} FindIs(list: seq<Id>, index: map<Id, nat>, i: nat)
    requires forall e | e in list :: e in index
    ensures Find(list, index, i).Some? ==> Find(list, index, i).value in list && index[Find(list, index, i).value] == i
    ensures Find(list, index, i).None? ==> forall e | e in list :: index[e] != i
  {
    if list != [] { FindIs(list[1..], index, i); }
  }

  ghost predicate NoRepeats(list: seq<Id>) {
    forall i, j | 0 <= i < j < |list| :: list[i] != list[j]
  }

  /** hlist_del_init: the list without an entry. */
  function Without(list: seq<Id>, e: Id): seq<Id> {
    if list == [] then [] else if list[0] == e then list[1..] else [list[0]] + Without(list[1..], e)
  }

  lemma {:induction false} WithoutIs(list: seq<Id>, e: Id)
    requires NoRepeats(list)
    ensures NoRepeats(Without(list, e)) && forall x :: x in Without(list, e) <==> x in list && x != e
  {
    if list != [] {
      var rest := list[1..];
      WithoutIs(rest, e);
      assert list == [list[0]] + rest;
      forall j | 0 <= j < |rest| ensures rest[j] != list[0] {
        assert rest[j] == list[j + 1];
      }
      if list[0] != e { PrependUnique(Without(rest, e), list[0]); }
    }
  }

  lemma {:induction false} PrependUnique(list: seq<Id>, e: Id)
    requires NoRepeats(list) && e !in list
    ensures NoRepeats([e] + list)
  {
  }

  /** hlist_replace_rcu: the new entry in the place of the old. */
  function Replaced(list: seq<Id>, old_: Id, new_: Id): seq<Id> {
    if list == [] then [] else if list[0] == old_ then [new_] + list[1..]
      else [list[0]] + Replaced(list[1..], old_, new_)
  }

  lemma {:induction false} ReplacedIs(list: seq<Id>, o: Id, n: Id)
    requires NoRepeats(list) && n !in list
    ensures NoRepeats(Replaced(list, o, n))
    ensures forall x :: x in Replaced(list, o, n) <==> (x in list && x != o) || (x == n && o in list)
  {
    if list != [] {
      var rest := list[1..];
      ReplacedIs(rest, o, n);
      assert list == [list[0]] + rest;
      forall j | 0 <= j < |rest| ensures rest[j] != list[0] {
        assert rest[j] == list[j + 1];
      }
      if list[0] == o {
        PrependUnique(rest, n);
      } else {
        PrependUnique(Replaced(rest, o, n), list[0]);
      }
    }
  }

  // ---------- the table and the plain map

  /** Every listed entry lies in the bucket of its index and is what the plain map holds for that
      index, and the other way round: so indices are unique and lookups agree. */
  ghost predicate Agrees(buckets: seq<seq<Id>>, index: map<Id, nat>, plain: map<nat, Id>) {
    && |buckets| == HASH_SIZE
    && (forall b | 0 <= b < HASH_SIZE :: NoRepeats(buckets[b]))
    && (forall b, e | 0 <= b < HASH_SIZE && e in buckets[b] ::
          e in index && index[e] % HASH_SIZE == b && index[e] in plain && plain[index[e]] == e)
    && (forall i | i in plain :: plain[i] in index && index[plain[i]] == i && plain[i] in buckets[i % HASH_SIZE])
  }

  predicate Hashed(index: map<Id, nat>, plain: map<nat, Id>, e: Id) {
    e in index && index[e] in plain && plain[index[e]] == e
  }

  /** Looking up in the bucket is looking up in the map. */
  lemma {:induction false} LookupAgrees(buckets: seq<seq<Id>>, index: map<Id, nat>, plain: map<nat, Id>, i: nat)
    requires Agrees(buckets, index, plain)
    ensures Find(buckets[i % HASH_SIZE], index, i) == if i in plain then Some(plain[i]) else None
  {
    FindIs(buckets[i % HASH_SIZE], index, i);
  }

  /** An index may be written to an entry that is not in the table. */
  lemma {:induction false} DrawAgrees(buckets: seq<seq<Id>>, index: map<Id, nat>, plain: map<nat, Id>, e: Id, i: nat)
    requires Agrees(buckets, index, plain) && !Hashed(index, plain, e)
    ensures Agrees(buckets, index[e := i], plain) && !Hashed(index[e := i], plain, e)
  {
  }

  lemma {:induction false} AddAgrees(buckets: seq<seq<Id>>, index: map<Id, nat>, plain: map<nat, Id>, e: Id)
    requires Agrees(buckets, index, plain) && !Hashed(index, plain, e) && e in index && index[e] !in plain
    ensures var b := index[e] % HASH_SIZE;
      Agrees(buckets[b := [e] + buckets[b]], index, plain[index[e] := e])
  {
    var b := index[e] % HASH_SIZE;
    PrependUnique(buckets[b], e);
  }

  lemma {:induction false} RemoveAgrees(buckets: seq<seq<Id>>, index: map<Id, nat>, plain: map<nat, Id>, e: Id)
    requires Agrees(buckets, index, plain) && Hashed(index, plain, e)
    ensures var b := index[e] % HASH_SIZE;
      Agrees(buckets[b := Without(buckets[b], e)], index, plain - {index[e]})
  {
    WithoutIs(buckets[index[e] % HASH_SIZE], e);
  }

  lemma {:induction false} ReplaceAgrees(buckets: seq<seq<Id>>, index: map<Id, nat>, plain: map<nat, Id>, o: Id, n: Id)
    requires Agrees(buckets, index, plain) && Hashed(index, plain, o) && !Hashed(index, plain, n)
    ensures var b := index[o] % HASH_SIZE;
      Agrees(buckets[b := Replaced(buckets[b], o, n)], index[n := index[o]], plain[index[o] := n])
  {
    ReplacedIs(buckets[index[o] % HASH_SIZE], o, n);
  }

  class Table {
    var buckets: seq<seq<Id>>
    /** The index field of every entry, in the table or not. */
    var index: map<Id, nat>
    /** Insertions under way. */
    var pending: map<Thread, Insertion>
    /** The map from index to entry that the table stands for. */
    ghost var plain: map<nat, Id>

    ghost predicate Valid()
      reads this
    {
      && Agrees(buckets, index, plain)
      && (forall t | t in pending :: !Hashed(index, plain, pending[t].entry))
      && (forall t | t in pending && pending[t].phase != Drawing :: pending[t].entry in index)
      && (forall t, u | t in pending && u in pending && t != u :: pending[t].entry != pending[u].entry)
    }

    predicate Inserting(e: Id)
      reads this
    {
      exists t | t in pending :: pending[t].entry == e
    }

    constructor ()
      ensures Valid() && plain == map[] && pending == map[] && index == map[]
    {
      buckets := seq(HASH_SIZE, _ => []);
      index := map[];
      pending := map[];
      plain := map[];
    }

    /** hlist_del_init_rcu: does nothing to an entry that is in no list. */
    method Unlink(e: Id)
      requires Agrees(buckets, index, plain)
      modifies this`buckets, this`plain
      ensures Agrees(buckets, index, plain) && !Hashed(index, plain, e)
      ensures plain == if Hashed(index, old(plain), e) then old(plain) - {index[e]} else old(plain)
    {
      if e in index {
        BucketIs(index[e]);
        var b := Bucket(index[e]);
        if e in buckets[b] {
          RemoveAgrees(buckets, index, plain, e);
          buckets := buckets[b := Without(buckets[b], e)];
          plain := plain - {index[e]};
        }
      }
    }

    /** The first lines of wg_index_hashtable_insert. The caller's lock keeps two threads from
        inserting one entry. */
    method StartInsert(t: Thread, e: Id)
      requires Valid() && t !in pending && !Inserting(e)
      modifies this`buckets, this`plain, this`pending
      ensures Valid() && pending == old(pending)[t := Insertion(e, Drawing)]
      ensures plain == if Hashed(index, old(plain), e) then old(plain) - {index[e]} else old(plain)
    {
      hide Agrees;
      Unlink(e);
      pending := pending[t := Insertion(e, Drawing)];
    }

    /** The random index is written to the entry without the lock. */
    method Draw(t: Thread, r: nat)
      requires Valid() && t in pending && pending[t].phase == Drawing
      modifies this`index, this`pending
      ensures Valid() && index == old(index)[old(pending)[t].entry := r]
      ensures pending == old(pending)[t := old(pending)[t].(phase := Drawn)]
    {
      DrawAgrees(buckets, index, plain, pending[t].entry, r);
      DrawOthers(index, plain, pending, t, r);
      hide Agrees;
      index := index[pending[t].entry := r];
      pending := pending[t := pending[t].(phase := Drawn)];
    }

    /** The walk over a bucket, on either side of the lock. */
    method Scan(i: nat) returns (found: Option<Id>)
      requires Agrees(buckets, index, plain)
      ensures found == if i in plain then Some(plain[i]) else None
    {
      BucketIs(i);
      LookupAgrees(buckets, index, plain, i);
      var list := buckets[Bucket(i)];
      hide Agrees;
      for j := 0 to |list|
        invariant Find(list, index, i) == Find(list[j..], index, i)
      {
        assert list[j] in list;
        if index[list[j]] == i {
          return Some(list[j]);
        }
      }
      return None;
    }

    /** The unlocked search. */
    method Search(t: Thread)
      requires Valid() && t in pending && pending[t].phase == Drawn
      modifies this`pending
      ensures Valid()
      ensures var was := old(pending)[t];
        pending == old(pending)[t := was.(phase := if index[was.entry] in plain then Drawing else Searched)]
    {
      hide Agrees;
      var found := Scan(index[pending[t].entry]);
      pending := pending[t := pending[t].(phase := if found.Some? then Drawing else Searched)];
    }

    /** The check under the lock, and the insertion if the index is still unused. */
    method Commit(t: Thread) returns (ok: bool)
      requires Valid() && t in pending && pending[t].phase == Searched
      modifies this`pending, this`buckets, this`plain
      ensures Valid()
      ensures var e := old(pending)[t].entry;
        && (ok <==> index[e] !in old(plain))
        && (ok ==> plain == old(plain)[index[e] := e] && pending == old(pending) - {t})
        && (!ok ==> plain == old(plain) && pending == old(pending)[t := Insertion(e, Drawing)])
    {
      var e := pending[t].entry;
      var found := Scan(index[e]);
      if found.Some? {
        pending := pending[t := Insertion(e, Drawing)];
        return false;
      }
      AddAgrees(buckets, index, plain, e);
      BucketIs(index[e]);
      var b := Bucket(index[e]);
      buckets := buckets[b := [e] + buckets[b]];
      hide Agrees;
      plain := plain[index[e] := e];
      pending := pending - {t};
      return true;
    }

    /** wg_index_hashtable_remove */
    method Remove(e: Id)
      requires Valid()
      modifies this`buckets, this`plain
      ensures Valid()
      ensures plain == if Hashed(index, old(plain), e) then old(plain) - {index[e]} else old(plain)
    {
      hide Agrees;
      Unlink(e);
    }

    /** wg_index_hashtable_replace, with its test for a hashed entry, as one step. */
    method Replace(o: Id, n: Id) returns (ok: bool)
      requires Valid() && !Hashed(index, plain, n) && !Inserting(n)
      modifies this`buckets, this`plain, this`index
      ensures Valid() && ok == old(Hashed(index, plain, o))
      ensures ok ==> plain == old(plain)[old(index)[o] := n] && index == old(index)[n := old(index)[o]]
      ensures !ok ==> plain == old(plain) && index == old(index)
    {
      if o !in index {
        return false;
      }
      BucketIs(index[o]);
      var b := Bucket(index[o]);
      if o !in buckets[b] {
        return false;
      }
      ReplaceAgrees(buckets, index, plain, o, n);
      ReplaceOthers(buckets, index, plain, pending, o, n);
      buckets := buckets[b := Replaced(buckets[b], o, n)];
      hide Agrees;
      plain := plain[index[o] := n];
      index := index[n := index[o]];
      return true;
    }

    /** Whether an entry is in a list, as !hlist_unhashed tells. */
    method Listed(e: Id) returns (yes: bool)
      requires Valid()
      ensures yes == Hashed(index, plain, e)
    {
      if e !in index {
        return false;
      }
      BucketIs(index[e]);
      yes := e in buckets[Bucket(index[e])];
    }

    /** wg_index_hashtable_lookup: an entry of a wanted type, exactly as the plain map has it. */
    method Lookup(i: nat, kinds: Id -> nat, mask: nat) returns (found: Option<Id>)
      requires Valid()
      ensures found == if i in plain && And(kinds(plain[i]), mask) != 0 then Some(plain[i]) else None
    {
      hide Agrees;
      hide And;
      found := Scan(i);
      if found.Some? && And(kinds(found.value), mask) == 0 {
        found := None;
      }
    }
  }

  lemma {:induction false} DrawOthers(index: map<Id, nat>, plain: map<nat, Id>, pending: map<Thread, Insertion>,
                                      t: Thread, r: nat)
    requires t in pending
    requires forall u | u in pending :: !Hashed(index, plain, pending[u].entry)
    requires forall u, v | u in pending && v in pending && u != v :: pending[u].entry != pending[v].entry
    ensures forall u | u in pending && u != t :: !Hashed(index[pending[t].entry := r], plain, pending[u].entry)
  {
  }

  lemma {:induction false} ReplaceOthers(buckets: seq<seq<Id>>, index: map<Id, nat>, plain: map<nat, Id>,
                                         pending: map<Thread, Insertion>, o: Id, n: Id)
    requires Agrees(buckets, index, plain) && Hashed(index, plain, o)
      && forall t | t in pending :: pending[t].entry != n
    requires forall u | u in pending :: !Hashed(index, plain, pending[u].entry)
    ensures forall u | u in pending :: !Hashed(index[n := index[o]], plain[index[o] := n], pending[u].entry)
  {
  }
}
