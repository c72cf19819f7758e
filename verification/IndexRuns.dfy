/** Interleavings of the index table: threads that insert in steps, remove, replace and look up,
    against a plain map from index to entry. */
module IndexRuns {
  import opened Bits
  import opened Options
  import opened IndexTable

  datatype Event =
    | Begin(thread: Thread, entry: Id) | DrawIndex(thread: Thread, random: nat) | SearchFree(thread: Thread)
    | Finish(thread: Thread) | Take(entry: Id) | Swap(older: Id, newer: Id) | Look(index: nat, mask: nat)

  datatype Output = Nothing | Placed(entry: Id, index: nat) | Swapped(ok: bool) | Found(found: Option<Id>)

  /** The plain map, the index field of every entry, and the insertions under way: no buckets. */
  datatype Plain = Plain(entries: map<nat, Id>, index: map<Id, nat>, pending: map<Thread, Insertion>)
  {
    predicate Busy(e: Id) {
      exists t | t in pending :: pending[t].entry == e
    }

    predicate Holds(e: Id) {
      exists i | i in entries :: entries[i] == e
    }

    predicate At(t: Thread, phase: Phase) {
      t in pending && pending[t].phase == phase
    }

    function Off(e: Id): Plain {
      this.(entries := map i | i in entries && entries[i] != e :: entries[i])
    }
  }

  const EMPTY := Plain(map[], map[], map[])

  /** One step; a step that its thread cannot take at that moment does nothing. */
  function Step(s: Plain, e: Event, kinds: Id -> nat): (Plain, Output) {
    match e
    case Begin(t, x) =>
      (if t in s.pending || s.Busy(x) then s else s.Off(x).(pending := s.pending[t := Insertion(x, Drawing)]), Nothing)
    case DrawIndex(t, r) =>
      (if !s.At(t, Drawing) then s
       else s.(index := s.index[s.pending[t].entry := r], pending := s.pending[t := s.pending[t].(phase := Drawn)]),
       Nothing)
    case SearchFree(t) =>
      if !s.At(t, Drawn) || s.pending[t].entry !in s.index then (s, Nothing)
      else
        var used := s.index[s.pending[t].entry] in s.entries;
        (s.(pending := s.pending[t := s.pending[t].(phase := if used then Drawing else Searched)]), Nothing)
    case Finish(t) =>
      if !s.At(t, Searched) || s.pending[t].entry !in s.index then (s, Nothing)
      else
        var x := s.pending[t].entry;
        var i := s.index[x];
        if i in s.entries then (s.(pending := s.pending[t := Insertion(x, Drawing)]), Nothing)
        else (s.(entries := s.entries[i := x], pending := s.pending - {t}), Placed(x, i))
    case Take(x) => (s.Off(x), Nothing)
    case Swap(o, n) =>
      if s.Busy(n) || s.Holds(n) || !s.Holds(o) || o !in s.index then (s, Swapped(false))
      else (s.(entries := s.entries[s.index[o] := n], index := s.index[n := s.index[o]]), Swapped(true))
    case Look(i, mask) =>
      (s, Found(if i in s.entries && And(kinds(s.entries[i]), mask) != 0 then Some(s.entries[i]) else None))
  }

  function After(events: seq<Event>, kinds: Id -> nat): Plain {
    if events == [] then EMPTY else Step(After(events[..|events| - 1], kinds), events[|events| - 1], kinds).0
  }

  /** What event number n gives back. */
  function Result(events: seq<Event>, n: nat, kinds: Id -> nat): Output
    requires n < |events|
  {
    Step(After(events[..n], kinds), events[n], kinds).1
  }

  lemma {:induction false} AfterNext(events: seq<Event>, n: nat, kinds: Id -> nat)
    requires n < |events|
    ensures After(events[..n + 1], kinds) == Step(After(events[..n], kinds), events[n], kinds).0
  {
    assert events[..n + 1][..n] == events[..n];
  }

  // ---------- what the plain map keeps

  /** Every entry of the map carries the index it is under, and entries being inserted are not in it. */
  ghost predicate Sound(s: Plain) {
    && (forall i | i in s.entries :: s.entries[i] in s.index && s.index[s.entries[i]] == i)
    && (forall t | t in s.pending :: !s.Holds(s.pending[t].entry))
    && (forall t, u | t in s.pending && u in s.pending && t != u :: s.pending[t].entry != s.pending[u].entry)
    && (forall t | t in s.pending && s.pending[t].phase != Drawing :: s.pending[t].entry in s.index)
  }

  lemma {:induction false} StepSound(s: Plain, e: Event, kinds: Id -> nat)
    requires Sound(s)
    ensures Sound(Step(s, e, kinds).0)
  {
    hide And;
  }

  lemma {:induction false} AlwaysSound(events: seq<Event>, kinds: Id -> nat)
    ensures Sound(After(events, kinds))
  {
    hide Step;
    if events != [] {
      AlwaysSound(events[..|events| - 1], kinds);
      StepSound(After(events[..|events| - 1], kinds), events[|events| - 1], kinds);
    }
  }

  /** Events that take an entry away from its index. */
  predicate Disturbs(e: Event, x: Id) {
    match e
    case Begin(_, y) => x == y
    case Take(y) => x == y
    case Swap(y, _) => x == y
    case _ => false
  }

  lemma {:induction false} StepStays(s: Plain, e: Event, kinds: Id -> nat, i: nat, x: Id)
    requires Sound(s) && i in s.entries && s.entries[i] == x && !Disturbs(e, x)
    ensures i in Step(s, e, kinds).0.entries && Step(s, e, kinds).0.entries[i] == x
    ensures forall y :: Step(s, e, kinds).1 != Placed(y, i)
  {
    hide And;
  }

  lemma {:induction false} StepPlaced(s: Plain, e: Event, kinds: Id -> nat, i: nat, x: Id)
    ensures Step(s, e, kinds).1 == Placed(x, i) ==>
      i in Step(s, e, kinds).0.entries && Step(s, e, kinds).0.entries[i] == x
    ensures e.Look? && e.index == i && i in s.entries && s.entries[i] == x && And(kinds(x), e.mask) != 0 ==>
      Step(s, e, kinds).1 == Found(Some(x))
  {
    hide And;
  }

  /** An index that was handed out leads to its entry, and to nobody else, until the entry itself is inserted
      anew, removed or replaced: whatever the other threads do, the index is not handed out again. */
  lemma {:induction false} PlacedStays(events: seq<Event>, n: nat, m: nat, kinds: Id -> nat, x: Id, i: nat)
    requires n < m <= |events| && Result(events, n, kinds) == Placed(x, i)
    requires forall l | n < l < m :: !Disturbs(events[l], x)
    ensures i in After(events[..m], kinds).entries && After(events[..m], kinds).entries[i] == x
    ensures m < |events| && events[m].Look? && events[m].index == i && And(kinds(x), events[m].mask) != 0 ==>
      Result(events, m, kinds) == Found(Some(x))
    ensures m < |events| && !Disturbs(events[m], x) ==> forall y :: Result(events, m, kinds) != Placed(y, i)
    decreases m
  {
    hide Step;
    hide After;
    hide And;
    hide Sound;
    AfterNext(events, m - 1, kinds);
    var s, e := After(events[..m - 1], kinds), events[m - 1];
    StepPlaced(s, e, kinds, i, x);
    AlwaysSound(events[..m - 1], kinds);
    AlwaysSound(events[..m], kinds);
    if n + 1 < m {
      PlacedStays(events, n, m - 1, kinds, x, i);
      StepStays(s, e, kinds, i, x);
    }
    if m < |events| {
      StepPlaced(After(events[..m], kinds), events[m], kinds, i, x);
    }
    if m < |events| && !Disturbs(events[m], x) {
      StepStays(After(events[..m], kinds), events[m], kinds, i, x);
    }
  }

  // ---------- the table

  ghost predicate Follows(table: Table, s: Plain)
    reads table
  {
    table.Valid() && table.plain == s.entries && table.index == s.index && table.pending == s.pending
  }

  lemma {:induction false} OffIs(index: map<Id, nat>, plain: map<nat, Id>, s: Plain, e: Id)
    requires s.entries == plain && forall i | i in plain :: plain[i] in index && index[plain[i]] == i
    ensures s.Off(e).entries == if Hashed(index, plain, e) then plain - {index[e]} else plain
    ensures Hashed(index, plain, e) <==> s.Holds(e)
  {
    if Hashed(index, plain, e) {
      assert index[e] in s.entries;
    }
  }

  method ApplySwap(table: Table, o: Id, n: Id, kinds: Id -> nat, ghost s: Plain) returns (r: Output)
    requires Follows(table, s)
    modifies table
    ensures Follows(table, Step(s, Swap(o, n), kinds).0) && r == Step(s, Swap(o, n), kinds).1
  {
    hide And;
    hide Agrees;
    assert forall i | i in table.plain :: table.plain[i] in table.index && table.index[table.plain[i]] == i by {
      PlainIndexed(table.buckets, table.index, table.plain);
    }
    OffIs(table.index, table.plain, s, o);
    OffIs(table.index, table.plain, s, n);
    var listed := table.Listed(n);
    if table.Inserting(n) || listed {
      return Swapped(false);
    }
    var ok := table.Replace(o, n);
    r := Swapped(ok);
  }

  method Apply(table: Table, e: Event, kinds: Id -> nat, ghost s: Plain) returns (r: Output)
    requires Follows(table, s)
    modifies table
    ensures Follows(table, Step(s, e, kinds).0) && r == Step(s, e, kinds).1
  {
    hide And;
    hide Agrees;
    assert forall i | i in table.plain :: table.plain[i] in table.index && table.index[table.plain[i]] == i by {
      PlainIndexed(table.buckets, table.index, table.plain);
    }
    r := Nothing;
    match e
    case Begin(t, x) =>
      OffIs(table.index, table.plain, s, x);
      if t !in table.pending && !table.Inserting(x) { table.StartInsert(t, x); }
    case DrawIndex(t, random) =>
      if t in table.pending && table.pending[t].phase == Drawing { table.Draw(t, random); }
    case SearchFree(t) =>
      if t in table.pending && table.pending[t].phase == Drawn { table.Search(t); }
    case Finish(t) =>
      if t in table.pending && table.pending[t].phase == Searched {
        var x := table.pending[t].entry;
        var ok := table.Commit(t);
        if ok { r := Placed(x, table.index[x]); }
      }
    case Take(x) =>
      OffIs(table.index, table.plain, s, x);
      table.Remove(x);
    case Swap(o, n) => r := ApplySwap(table, o, n, kinds, s);
    case Look(i, mask) =>
      var found := table.Lookup(i, kinds, mask);
      r := Found(found);
  }

  lemma {:induction false} PlainIndexed(buckets: seq<seq<Id>>, index: map<Id, nat>, plain: map<nat, Id>)
    requires Agrees(buckets, index, plain)
    ensures forall i | i in plain :: plain[i] in index && index[plain[i]] == i
  {
  }

  /** In every interleaving the hash table gives the same results as the plain map, lookups included. */
  method Run(events: seq<Event>, kinds: Id -> nat) returns (table: Table, results: seq<Output>)
    ensures fresh(table) && table.Valid() && table.plain == After(events, kinds).entries
    ensures table.index == After(events, kinds).index && table.pending == After(events, kinds).pending
    ensures |results| == |events| && forall n | 0 <= n < |events| :: results[n] == Result(events, n, kinds)
  {
    hide Table.Valid;
    hide Step;
    table := new Table();
    results := [];
    for n := 0 to |events|
      invariant fresh(table) && Follows(table, After(events[..n], kinds))
      invariant |results| == n && forall i | 0 <= i < n :: results[i] == Result(events, i, kinds)
    {
      AfterNext(events, n, kinds);
      var r := Apply(table, events[n], kinds, After(events[..n], kinds));
      results := results + [r];
    }
    assert events[..|events|] == events;
  }
}
