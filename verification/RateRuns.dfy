/** Runs of the rate limiter with any number of workers: what passes in any span of time, when the
    table behaves as a map that is never collected, and what two workers can do to one source. */
module RateRuns {
  import opened Options
  import opened RateLimiter

  /** Every event says how much time has gone by since the one before. */
  datatype Event =
    | Lookup(worker: Worker, source: Source, after: nat)
    | Insert(worker: Worker, memory: bool, after: nat)
    | Collect(after: nat)
    | Freed(after: nat)

  /** The entries that can be found, without buckets, shadowed entries and counts. */
  datatype Live = Live(entries: map<Source, Meter>, pending: map<Worker, Source>, clock: nat)

  const START := Live(map[], map[], 0)

  /** One event: the state after it and the answer to a packet, if it gives one. Events that do not apply,
      such as an insertion by a worker that is not about to, only let time pass. */
  function Step(s: Live, e: Event, refused: bool): (Live, Option<bool>) {
    var now := s.clock + e.after;
    var t := s.(clock := now);
    match e
    case Lookup(w, x, _) =>
      if w in s.pending then (t, None)
      else if x in s.entries then
        var r := Charge(s.entries[x], now);
        (t.(entries := s.entries[x := r.0]), Some(r.1))
      else (t.(pending := s.pending[w := x]), None)
    case Insert(w, _, _) =>
      if w !in s.pending then (t, None)
      else if refused then (t.(pending := s.pending - {w}), Some(false))
      else (t.(pending := s.pending - {w}, entries := s.entries[s.pending[w] := First(now)]), Some(true))
    case Collect(_) => (t.(entries := Sweep(s.entries, now)), None)
    case Freed(_) => (t, None)
  }

  /** The state after the events, of which those numbered in refused found no room. */
  function After(events: seq<Event>, refused: set<nat>): Live {
    if events == [] then START
    else
      var n := |events| - 1;
      Step(After(events[..n], refused), events[n], n in refused).0
  }

  function Answer(events: seq<Event>, refused: set<nat>, n: nat): Option<bool>
    requires n < |events|
  {
    Step(After(events[..n], refused), events[n], n in refused).1
  }

  lemma {:induction false} AfterNext(events: seq<Event>, refused: set<nat>, n: nat)
    requires n < |events|
    ensures After(events[..n + 1], refused) == Step(After(events[..n], refused), events[n], n in refused).0
  {
    assert events[..n + 1][..n] == events[..n];
  }

  /** The source an event answers for. */
  function About(s: Live, e: Event): Option<Source> {
    match e
    case Lookup(w, x, _) => if w !in s.pending && x in s.entries then Some(x) else None
    case Insert(w, _, _) => if w in s.pending then Some(s.pending[w]) else None
    case _ => None
  }

  // ---------- the level of a source

  /** What a source has to spend; a source without an entry has everything. */
  function Level(entries: map<Source, Meter>, x: Source, now: nat): nat {
    if x in entries then Refill(entries[x], now) else TOKEN_MAX
  }

  /** No entry is from the future. */
  ghost predicate Past(s: Live) {
    forall x | x in s.entries :: s.entries[x].lastTime <= s.clock
  }

  lemma {:induction false} StepPast(s: Live, e: Event, refused: bool)
    requires Past(s)
    ensures Past(Step(s, e, refused).0)
  {
  }

  lemma {:induction false} AlwaysPast(events: seq<Event>, refused: set<nat>)
    ensures Past(After(events, refused))
  {
    hide Step;
    if events != [] {
      var n := |events| - 1;
      AlwaysPast(events[..n], refused);
      StepPast(After(events[..n], refused), events[n], n in refused);
    }
  }

  /** A packet takes its cost from the level, if there is enough. */
  function Paid(level: nat): nat {
    if level >= PACKET_COST then level - PACKET_COST else level
  }

  /** An insertion of a source that is not at its full level. */
  predicate Spends(s: Live, e: Event, refused: bool, x: Source) {
    e.Insert? && !refused && About(s, e) == Some(x) && Level(s.entries, x, s.clock + e.after) < TOKEN_MAX
  }

  predicate Passes(s: Live, e: Event, refused: bool, x: Source) {
    About(s, e) == Some(x) && Step(s, e, refused).1 == Some(true)
  }

  function If(b: bool, n: nat): nat {
    if b then n else 0
  }

  lemma {:induction false} LevelLater(entries: map<Source, Meter>, x: Source, clock: nat, after: nat)
    requires x in entries ==> entries[x].lastTime <= clock
    ensures Level(entries, x, clock + after) == Min(TOKEN_MAX, Level(entries, x, clock) + after)
  {
  }

  lemma {:induction false} LevelCharged(m: Meter, now: nat)
    ensures Refill(Charge(m, now).0, now) == Paid(Refill(m, now)) && Charge(m, now).1 == (Refill(m, now) >= PACKET_COST)
  {
  }

  lemma {:induction false} LevelSwept(entries: map<Source, Meter>, x: Source, now: nat)
    ensures Level(Sweep(entries, now), x, now) == Level(entries, x, now)
  {
  }

  lemma {:induction false} LevelFirst(now: nat)
    ensures Refill(First(now), now) == TOKEN_MAX - PACKET_COST
  {
  }

  /** What an event makes of the level of a source. */
  lemma {:induction false} StepLevel(s: Live, e: Event, refused: bool, x: Source)
    requires Past(s)
    ensures var now := s.clock + e.after;
      var level, t := Level(s.entries, x, now), Step(s, e, refused);
      && level == Min(TOKEN_MAX, Level(s.entries, x, s.clock) + e.after)
      && Level(t.0.entries, x, now) ==
           (if About(s, e) != Some(x) || (e.Insert? && refused) then level
            else if e.Insert? then TOKEN_MAX - PACKET_COST else Paid(level))
      && (About(s, e) == Some(x) && e.Lookup? ==> t.1 == Some(level >= PACKET_COST))
  {
    hide Refill;
    hide Charge;
    hide First;
    hide Sweep;
    hide Min;
    var now := s.clock + e.after;
    LevelLater(s.entries, x, s.clock, e.after);
    LevelFirst(now);
    LevelSwept(s.entries, x, now);
    if x in s.entries {
      LevelCharged(s.entries[x], now);
    }
  }

  /** Passing packets are paid for out of the level; a spending insertion brings a full level for nothing. */
  lemma {:induction false} StepPays(s: Live, e: Event, refused: bool, x: Source)
    requires Past(s)
    ensures Level(Step(s, e, refused).0.entries, x, s.clock + e.after) + If(Passes(s, e, refused, x), PACKET_COST)
         <= Min(TOKEN_MAX, Level(s.entries, x, s.clock) + e.after) + If(Spends(s, e, refused, x), TOKEN_MAX)
  {
    StepLevel(s, e, refused, x);
    hide Level;
    hide Charge;
    hide Sweep;
    hide First;
  }

  // ---------- spans of time

  /** Packets of the source that pass in events i to j - 1. */
  function Passed(events: seq<Event>, refused: set<nat>, x: Source, i: nat, j: nat): nat
    requires i <= j <= |events|
    decreases j
  {
    if i == j then 0
    else
      Passed(events, refused, x, i, j - 1)
        + If(Passes(After(events[..j - 1], refused), events[j - 1], j - 1 in refused, x), 1)
  }

  /** Spending insertions of the source in events i to j - 1. */
  function Spent(events: seq<Event>, refused: set<nat>, x: Source, i: nat, j: nat): nat
    requires i <= j <= |events|
    decreases j
  {
    if i == j then 0
    else
      Spent(events, refused, x, i, j - 1)
        + If(Spends(After(events[..j - 1], refused), events[j - 1], j - 1 in refused, x), 1)
  }

  function Clock(events: seq<Event>, n: nat): nat
    requires n <= |events|
  {
    if n == 0 then 0 else Clock(events, n - 1) + events[n - 1].after
  }

  lemma {:induction false} AfterNone(events: seq<Event>, refused: set<nat>)
    ensures After(events[..0], refused) == START
  {
  }

  lemma {:induction false} ClockIs(events: seq<Event>, refused: set<nat>, n: nat)
    requires n <= |events|
    ensures After(events[..n], refused).clock == Clock(events, n)
  {
    hide Step;
    hide After;
    if n == 0 {
      AfterNone(events, refused);
    } else {
      ClockIs(events, refused, n - 1);
      AfterNext(events, refused, n - 1);
      ClockStep(After(events[..n - 1], refused), events[n - 1], n - 1 in refused);
    }
  }

  lemma {:induction false} ClockRises(events: seq<Event>, i: nat, j: nat)
    requires i <= j <= |events|
    ensures Clock(events, i) <= Clock(events, j)
    decreases j
  {
    if i < j {
      ClockRises(events, i, j - 1);
    }
  }

  /** What the passed packets and the spending insertions amount to. */
  function Price(n: nat, cost: nat): nat {
    n * cost
  }

  lemma {:induction false} Unfold(events: seq<Event>, refused: set<nat>, x: Source, i: nat, n: nat)
    requires i <= n < |events|
    ensures var s, e := After(events[..n], refused), events[n];
      && Price(Passed(events, refused, x, i, n + 1), PACKET_COST)
         == Price(Passed(events, refused, x, i, n), PACKET_COST) + If(Passes(s, e, n in refused, x), PACKET_COST)
      && Price(Spent(events, refused, x, i, n + 1), TOKEN_MAX)
         == Price(Spent(events, refused, x, i, n), TOKEN_MAX) + If(Spends(s, e, n in refused, x), TOKEN_MAX)
      && Clock(events, n + 1) == Clock(events, n) + e.after
  {
    hide After;
    hide Passes;
    hide Spends;
    hide Price;
    var s, e := After(events[..n], refused), events[n];
    PriceMore(Passed(events, refused, x, i, n), Passes(s, e, n in refused, x), PACKET_COST);
    PriceMore(Spent(events, refused, x, i, n), Spends(s, e, n in refused, x), TOKEN_MAX);
  }

  lemma {:induction false} PriceMore(n: nat, b: bool, cost: nat)
    ensures Price(n + If(b, 1), cost) == Price(n, cost) + If(b, cost)
  {
  }

  lemma {:induction false} NoneYet(events: seq<Event>, refused: set<nat>, x: Source, i: nat)
    requires i <= |events|
    ensures Price(Passed(events, refused, x, i, i), PACKET_COST) == 0
    ensures Price(Spent(events, refused, x, i, i), TOKEN_MAX) == 0
  {
  }

  /** Over events i to j - 1 the packets that pass, together with what is left, cost no more than a full level,
      the time from the first event to the last, and a full level for every spending insertion. */
  lemma {:induction false} SpanBound(events: seq<Event>, refused: set<nat>, x: Source, i: nat, j: nat)
    requires i < j <= |events|
    ensures Clock(events, i + 1) <= Clock(events, j)
    ensures Level(After(events[..j], refused).entries, x, Clock(events, j))
      + Price(Passed(events, refused, x, i, j), PACKET_COST)
         <= TOKEN_MAX + Price(Spent(events, refused, x, i, j), TOKEN_MAX) + (Clock(events, j) - Clock(events, i + 1))
    decreases j
  {
    hide *;
    ClockRises(events, i + 1, j);
    var n := j - 1;
    AfterNext(events, refused, n);
    AlwaysPast(events[..n], refused);
    ClockIs(events, refused, n);
    StepPays(After(events[..n], refused), events[n], n in refused, x);
    MinIs(Level(After(events[..n], refused).entries, x, Clock(events, n)) + events[n].after);
    Unfold(events, refused, x, i, n);
    if i < n {
      SpanBound(events, refused, x, i, n);
    } else {
      NoneYet(events, refused, x, i);
    }
  }

  lemma {:induction false} MinIs(n: nat)
    ensures Min(TOKEN_MAX, n) <= TOKEN_MAX && Min(TOKEN_MAX, n) <= n
  {
  }

  lemma {:induction false} Quotient(n: nat, t: nat)
    requires Price(n, PACKET_COST) <= t
    ensures n <= t / PACKET_COST
  {
  }

  /** Whatever other sources, collections and a full table do in between, a span of time T lets at most
      (TOKEN_MAX + T) / PACKET_COST packets of a source pass, unless an insertion in it spends. */
  lemma {:induction false} RateBound(events: seq<Event>, refused: set<nat>, x: Source, i: nat, j: nat)
    requires i < j <= |events| && Spent(events, refused, x, i, j) == 0
    ensures Clock(events, i + 1) <= Clock(events, j)
    ensures Passed(events, refused, x, i, j) <= (TOKEN_MAX + (Clock(events, j) - Clock(events, i + 1))) / PACKET_COST
  {
    SpanBound(events, refused, x, i, j);
    assert Price(0, TOKEN_MAX) == 0;
    hide *;
    Quotient(Passed(events, refused, x, i, j), TOKEN_MAX + (Clock(events, j) - Clock(events, i + 1)));
  }

  // ---------- workers that get in each other's way

  /** Event n puts an entry of the source into the table. */
  predicate Puts(events: seq<Event>, refused: set<nat>, n: nat, x: Source)
    requires n < |events|
  {
    events[n].Insert? && n !in refused && About(After(events[..n], refused), events[n]) == Some(x)
  }

  /** The worker of an insertion looked its source up at event i, and has been about to insert it since. */
  ghost predicate Since(events: seq<Event>, refused: set<nat>, i: nat, n: nat, w: Worker, x: Source)
    requires n <= |events|
  {
    && i < n && events[i].Lookup? && events[i].worker == w && events[i].source == x
    && x !in After(events[..i], refused).entries
    && forall m | i < m <= n :: w in After(events[..m], refused).pending && After(events[..m], refused).pending[w] == x
  }

  /** One event: who is about to insert, and how a source gets an entry. */
  lemma {:induction false} StepEntry(s: Live, e: Event, refused: bool, w: Worker, x: Source)
    ensures var t := Step(s, e, refused).0;
      && (x in t.entries && x !in s.entries ==> e.Insert? && !refused && About(s, e) == Some(x))
      && (w in t.pending && w in s.pending ==> t.pending[w] == s.pending[w] && (e.Insert? ==> e.worker != w))
      && (w in t.pending && w !in s.pending ==>
            e.Lookup? && e.worker == w && e.source == t.pending[w] && e.source !in s.entries && t.entries == s.entries)
  {
    hide Charge;
    hide First;
  }

  /** A source that has come into the table since the lookup was put there by another worker. */
  lemma {:induction false} PendingSince(events: seq<Event>, refused: set<nat>, n: nat, w: Worker, x: Source)
    returns (i: nat)
    requires n <= |events| && w in After(events[..n], refused).pending && After(events[..n], refused).pending[w] == x
    ensures Since(events, refused, i, n, w, x)
    ensures x in After(events[..n], refused).entries ==>
      exists m | i < m < n :: Puts(events, refused, m, x) && events[m].worker != w
  {
    hide Step;
    hide After;
    hide Puts;
    hide Since;
    Nobody(events, refused);
    i := 0;
    if n > 0 {
      AfterNext(events, refused, n - 1);
      var s, t, e := After(events[..n - 1], refused), After(events[..n], refused), events[n - 1];
      StepEntry(s, e, n - 1 in refused, w, x);
      if w in s.pending {
        i := PendingSince(events, refused, n - 1, w, x);
        SinceLater(events, refused, i, n - 1, w, x);
        if x in t.entries && x !in s.entries {
          PutsNow(events, refused, n - 1, x);
        }
      } else {
        i := n - 1;
        SinceNow(events, refused, i, w, x);
      }
    }
  }

  lemma {:induction false} Nobody(events: seq<Event>, refused: set<nat>)
    ensures After(events[..0], refused).pending == map[]
  {
  }

  lemma {:induction false} PutsNow(events: seq<Event>, refused: set<nat>, n: nat, x: Source)
    requires n < |events| && events[n].Insert? && n !in refused
    requires About(After(events[..n], refused), events[n]) == Some(x)
    ensures Puts(events, refused, n, x)
  {
  }

  lemma {:induction false} SinceLater(events: seq<Event>, refused: set<nat>, i: nat, n: nat, w: Worker, x: Source)
    requires n < |events| && Since(events, refused, i, n, w, x)
    requires w in After(events[..n + 1], refused).pending && After(events[..n + 1], refused).pending[w] == x
    ensures Since(events, refused, i, n + 1, w, x) && i < n
  {
    hide After;
  }

  lemma {:induction false} SinceNow(events: seq<Event>, refused: set<nat>, i: nat, w: Worker, x: Source)
    requires i < |events| && events[i].Lookup? && events[i].worker == w && events[i].source == x
    requires x !in After(events[..i], refused).entries
    requires w in After(events[..i + 1], refused).pending && After(events[..i + 1], refused).pending[w] == x
    ensures Since(events, refused, i, i + 1, w, x)
  {
    hide After;
  }

  /** An insertion spends only if, since its worker looked, another one has inserted the same source. */
  lemma {:induction false} SpendsOverlap(events: seq<Event>, refused: set<nat>, n: nat, x: Source)
    requires n < |events| && Spends(After(events[..n], refused), events[n], n in refused, x)
    ensures exists i, m | 0 <= i < m < n ::
      Since(events, refused, i, n, events[n].worker, x) && Puts(events, refused, m, x)
        && events[m].worker != events[n].worker
  {
    var w := events[n].worker;
    assert x in After(events[..n], refused).entries;
    hide Step;
    hide After;
    var i := PendingSince(events, refused, n, w, x);
    var m :| i < m < n && Puts(events, refused, m, x) && events[m].worker != w;
    assert Since(events, refused, i, n, w, x) && Puts(events, refused, m, x);
  }

  /** Nothing comes between a lookup and the insertion that may follow it. */
  ghost predicate Sequential(events: seq<Event>) {
    && (forall n | 0 <= n < |events| - 1 && events[n].Lookup? ::
          events[n + 1].Insert? && events[n + 1].worker == events[n].worker)
    && (forall n | 0 <= n < |events| && events[n].Insert? :: n > 0 && events[n - 1].Lookup?)
  }

  lemma {:induction false} InsertEnds(s: Live, e: Event, refused: bool, w: Worker)
    requires e.Insert? && e.worker == w
    ensures w !in Step(s, e, refused).0.pending
  {
  }

  lemma {:induction false} NotSince(events: seq<Event>, refused: set<nat>, i: nat, n: nat, w: Worker, x: Source)
    requires Sequential(events) && i + 1 < n <= |events|
    ensures !Since(events, refused, i, n, w, x)
  {
    hide After;
    if i + 1 < |events| && events[i].Lookup? && events[i].worker == w {
      AfterNext(events, refused, i + 1);
      InsertEnds(After(events[..i + 1], refused), events[i + 1], i + 1 in refused, w);
    }
    hide Step;
  }

  lemma {:induction false} SequentialNeverSpends(events: seq<Event>, refused: set<nat>, n: nat, x: Source)
    requires Sequential(events) && n < |events|
    ensures !Spends(After(events[..n], refused), events[n], n in refused, x)
  {
    hide Step;
    hide After;
    hide Puts;
    hide Since;
    hide Level;
    hide Sequential;
    if Spends(After(events[..n], refused), events[n], n in refused, x) {
      SpendsOverlap(events, refused, n, x);
      var w := events[n].worker;
      var i, m :| 0 <= i < m < n && Since(events, refused, i, n, w, x) && Puts(events, refused, m, x);
      NotSince(events, refused, i, n, w, x);
    }
  }

  lemma {:induction false} SequentialNotSpent(events: seq<Event>, refused: set<nat>, x: Source, i: nat, j: nat)
    requires Sequential(events) && i <= j <= |events|
    ensures Spent(events, refused, x, i, j) == 0
    decreases j
  {
    hide After;
    hide Spends;
    if i < j {
      SequentialNotSpent(events, refused, x, i, j - 1);
      SequentialNeverSpends(events, refused, j - 1, x);
    }
  }

  // ---------- the map that is never collected

  /** A packet of a source at some time, by a map of meters. */
  function Pay(meters: map<Source, Meter>, x: Source, now: nat): (Meter, bool) {
    if x in meters then Charge(meters[x], now) else (First(now), true)
  }

  /** Every packet that is answered, and not refused for want of room, is charged to its meter. */
  function Meters(events: seq<Event>, refused: set<nat>, n: nat): map<Source, Meter>
    requires n <= |events|
  {
    if n == 0 then map[]
    else
      var before, e := Meters(events, refused, n - 1), events[n - 1];
      var x := About(After(events[..n - 1], refused), e);
      if x.None? || (e.Insert? && n - 1 in refused) then before
      else before[x.value := Pay(before, x.value, Clock(events, n)).0]
  }

  ghost predicate SameLevel(events: seq<Event>, refused: set<nat>, n: nat, x: Source)
    requires n <= |events|
  {
    Level(After(events[..n], refused).entries, x, Clock(events, n))
      == Level(Meters(events, refused, n), x, Clock(events, n))
  }

  /** Table and map have the same level for every source. */
  ghost predicate SameLevels(events: seq<Event>, refused: set<nat>, n: nat)
    requires n <= |events|
  {
    forall x: Source :: SameLevel(events, refused, n, x)
  }

  lemma {:induction false} LevelPaid(meters: map<Source, Meter>, x: Source, now: nat, y: Source)
    ensures Pay(meters, x, now).1 == (Level(meters, x, now) >= PACKET_COST)
    ensures Level(meters[x := Pay(meters, x, now).0], y, now) == if y == x then Paid(Level(meters, x, now))
      else Level(meters, y, now)
  {
    LevelFirst(now);
    if x in meters {
      LevelCharged(meters[x], now);
    }
    hide Refill;
    hide Charge;
    hide First;
  }

  lemma {:induction false} MetersPast(events: seq<Event>, refused: set<nat>, n: nat)
    requires n <= |events|
    ensures forall x | x in Meters(events, refused, n) :: Meters(events, refused, n)[x].lastTime <= Clock(events, n)
  {
    if n > 0 {
      MetersPast(events, refused, n - 1);
    }
    hide After;
  }

  /** What an event makes of the level in the map. */
  lemma {:induction false} MetersNext(events: seq<Event>, refused: set<nat>, n: nat, x: Source)
    requires n < |events|
    ensures var e, now := events[n], Clock(events, n + 1);
      var level, about := Level(Meters(events, refused, n), x, now), About(After(events[..n], refused), e);
      && level == Min(TOKEN_MAX, Level(Meters(events, refused, n), x, Clock(events, n)) + e.after)
      && Level(Meters(events, refused, n + 1), x, now) ==
           if about != Some(x) || (e.Insert? && n in refused) then level else Paid(level)
  {
    hide After;
    hide Level;
    hide Pay;
    hide Min;
    var e, now, meters := events[n], Clock(events, n + 1), Meters(events, refused, n);
    MetersPast(events, refused, n);
    LevelLater(meters, x, Clock(events, n), e.after);
    var about := About(After(events[..n], refused), e);
    if about.Some? {
      LevelPaid(meters, about.value, now, x);
    }
  }

  lemma {:induction false} PaidFull(level: nat)
    requires level <= TOKEN_MAX
    ensures Paid(level) == TOKEN_MAX - PACKET_COST <==> level == TOKEN_MAX
  {
  }

  /** One event for one source: the levels, equal before, stay equal exactly if it does not spend. */
  lemma {:induction false} StepAgrees(events: seq<Event>, refused: set<nat>, n: nat, x: Source)
    requires n < |events| && SameLevels(events, refused, n)
    ensures SameLevel(events, refused, n + 1, x) <==> !Spends(After(events[..n], refused), events[n], n in refused, x)
  {
    hide After;
    hide Step;
    hide Meters;
    hide Level;
    hide Paid;
    hide Clock;
    var s, e := After(events[..n], refused), events[n];
    AfterNext(events, refused, n);
    AlwaysPast(events[..n], refused);
    ClockIs(events, refused, n);
    ClockIs(events, refused, n + 1);
    ClockNext(events, n);
    StepLevel(s, e, n in refused, x);
    MetersNext(events, refused, n, x);
    assert SameLevel(events, refused, n, x);
    MinIs(Level(s.entries, x, s.clock) + e.after);
    PaidFull(Level(s.entries, x, s.clock + e.after));
  }

  lemma {:induction false} ClockNext(events: seq<Event>, n: nat)
    requires n < |events|
    ensures Clock(events, n + 1) == Clock(events, n) + events[n].after
  {
  }

  ghost predicate NeverSpends(events: seq<Event>, refused: set<nat>) {
    forall n, x | 0 <= n < |events| :: !Spends(After(events[..n], refused), events[n], n in refused, x)
  }

  /** The table has the levels of the map that is never collected, at every point of the run, exactly if no
      insertion spends: collections, frees and a full table make no difference. */
  lemma {:induction false} ExactlyPlain(events: seq<Event>, refused: set<nat>)
    ensures (forall n | 0 <= n <= |events| :: SameLevels(events, refused, n)) <==> NeverSpends(events, refused)
  {
    hide After;
    hide Spends;
    if NeverSpends(events, refused) {
      forall n | 0 <= n <= |events| ensures SameLevels(events, refused, n) {
        PlainUpTo(events, refused, n);
      }
    }
    if forall n | 0 <= n <= |events| :: SameLevels(events, refused, n) {
      forall n, x | 0 <= n < |events| ensures !Spends(After(events[..n], refused), events[n], n in refused, x) {
        StepAgrees(events, refused, n, x);
        assert SameLevels(events, refused, n + 1);
      }
    }
  }

  lemma {:induction false} PlainUpTo(events: seq<Event>, refused: set<nat>, n: nat)
    requires n <= |events| && NeverSpends(events, refused)
    ensures SameLevels(events, refused, n)
  {
    if n > 0 {
      PlainUpTo(events, refused, n - 1);
      hide After;
      hide Spends;
      hide SameLevel;
      forall x: Source ensures SameLevel(events, refused, n, x) {
        StepAgrees(events, refused, n - 1, x);
      }
    }
  }

  /** Where the levels agree, an answer is that of the map, unless it is an insertion that spends or finds no room. */
  lemma {:induction false} AnswersPlain(events: seq<Event>, refused: set<nat>, n: nat, x: Source)
    requires n < |events| && SameLevels(events, refused, n) && About(After(events[..n], refused), events[n]) == Some(x)
    requires n !in refused && !Spends(After(events[..n], refused), events[n], n in refused, x)
    ensures Answer(events, refused, n) == Some(Pay(Meters(events, refused, n), x, Clock(events, n + 1)).1)
  {
    hide After;
    hide Level;
    hide Pay;
    hide Charge;
    hide First;
    hide Meters;
    hide Sweep;
    hide Paid;
    hide Clock;
    var s, e, now, meters := After(events[..n], refused), events[n], Clock(events, n + 1), Meters(events, refused, n);
    AlwaysPast(events[..n], refused);
    ClockIs(events, refused, n);
    ClockNext(events, n);
    MetersNext(events, refused, n, x);
    StepLevel(s, e, false, x);
    assert SameLevel(events, refused, n, x);
    LevelPaid(meters, x, now, x);
  }

  /** With one packet after the other, every answer is that of the map that is never collected. */
  lemma {:induction false} SequentialPlain(events: seq<Event>, refused: set<nat>, n: nat, x: Source)
    requires Sequential(events) && n < |events| && n !in refused
    requires About(After(events[..n], refused), events[n]) == Some(x)
    ensures Answer(events, refused, n) == Some(Pay(Meters(events, refused, n), x, Clock(events, n + 1)).1)
  {
    hide After;
    hide Spends;
    hide SameLevels;
    hide Meters;
    hide Sequential;
    hide About;
    hide Step;
    hide Pay;
    forall m, y | 0 <= m < |events| ensures !Spends(After(events[..m], refused), events[m], m in refused, y) {
      SequentialNeverSpends(events, refused, m, y);
    }
    PlainUpTo(events, refused, n);
    SequentialNeverSpends(events, refused, n, x);
    AnswersPlain(events, refused, n, x);
  }

  /** With one packet after the other, the bound holds of every span. */
  lemma {:induction false} SequentialBound(events: seq<Event>, refused: set<nat>, x: Source, i: nat, j: nat)
    requires Sequential(events) && i < j <= |events|
    ensures Clock(events, i + 1) <= Clock(events, j)
    ensures Passed(events, refused, x, i, j) <= (TOKEN_MAX + (Clock(events, j) - Clock(events, i + 1))) / PACKET_COST
  {
    SequentialNotSpent(events, refused, x, i, j);
    RateBound(events, refused, x, i, j);
  }

  // ---------- two workers and one source

  const X := Source(false, 1, 1)

  /** Two workers miss a new source; one inserts it, four packets use up what is left, the other inserts it. */
  function RaceEvent(n: int): Event {
    if n < 2 then Lookup(if n == 0 then 0 else 1, X, 0)
    else if n == 2 then Insert(0, true, 0)
    else if n < 7 then Lookup(2, X, 0)
    else Insert(1, true, 0)
  }

  const RACE: seq<Event> := seq(8, n => RaceEvent(n))

  function RaceState(n: nat): Live {
    if n == 0 then START
    else if n == 1 then Live(map[], map[0 := X], 0)
    else if n == 2 then Live(map[], map[0 := X, 1 := X], 0)
    else Live(map[X := Meter(0, if n < 7 then (7 - n) * PACKET_COST else 0)], map[1 := X], 0)
  }

  lemma {:induction false} RaceStep(n: nat)
    requires n < 7
    ensures Step(RaceState(n), RaceEvent(n), false).0 == RaceState(n + 1)
    ensures Passes(RaceState(n), RaceEvent(n), false, X) == (n >= 2)
  {
    if n == 2 {
      assert map[0 := X, 1 := X] - {0} == map[1 := X];
    }
  }

  lemma {:induction false} RaceIs(n: nat)
    requires n <= 7
    ensures After(RACE[..n], {}) == RaceState(n)
  {
    if n > 0 {
      RaceIs(n - 1);
      hide After;
      hide Step;
      hide RaceState;
      AfterNext(RACE, {}, n - 1);
      RaceStep(n - 1);
    }
  }

  lemma {:induction false} RacePasses(n: nat)
    requires n <= 8
    ensures Passed(RACE, {}, X, 0, n) == if n < 2 then 0 else n - 2
    ensures Clock(RACE, n) == 0
  {
    hide After;
    hide RaceState;
    hide Passes;
    if n > 0 {
      RacePasses(n - 1);
      RaceIs(n - 1);
      if n < 8 {
        RaceStep(n - 1);
      } else {
        RaceEnds();
      }
    }
  }

  lemma {:induction false} RaceEnds()
    ensures Passes(RaceState(7), RaceEvent(7), false, X) && Spends(RaceState(7), RaceEvent(7), false, X)
  {
  }

  /** The bound does not hold without its condition: six packets of one source pass in no time at all, where
      five are allowed, because the second insertion spends. */
  lemma {:induction false} RaceBreaksBound()
    ensures Passed(RACE, {}, X, 0, 8) == 6 > (TOKEN_MAX + (Clock(RACE, 8) - Clock(RACE, 1))) / PACKET_COST == 5
    ensures Spends(After(RACE[..7], {}), RACE[7], false, X)
  {
    hide After;
    hide Passed;
    hide Clock;
    hide Spends;
    RacePasses(8);
    RacePasses(1);
    RaceIs(7);
    RaceEnds();
    assert TOKEN_MAX / PACKET_COST == 5;
  }

  // ---------- the table

  ghost predicate Follows(l: Limiter, s: Live)
    reads l
  {
    l.Valid() && l.live == s.entries && l.pending == s.pending && l.clock == s.clock
  }

  /** Insertions among the first n events. */
  function Insertions(events: seq<Event>, n: nat): nat
    requires n <= |events|
  {
    if n == 0 then 0 else Insertions(events, n - 1) + If(events[n - 1].Insert?, 1)
  }

  /** An insertion is refused exactly when the counter is at its limit or memory is out. Other insertions
      raise the counter, the late free of a collected entry lowers it. */
  predicate Counted(s: Live, e: Event, refused: bool, before: nat, after: nat, max: nat) {
    var inserts := e.Insert? && e.worker in s.pending;
    && (refused <==> inserts && (before >= max || !e.memory))
    && if e.Freed? then before - 1 <= after <= before else after == before + If(inserts && !refused, 1)
  }

  method Apply(l: Limiter, e: Event, ghost s: Live, time: nat) returns (answer: Option<bool>, refused: bool)
    requires Follows(l, s) && time == s.clock + e.after
    modifies l
    ensures Follows(l, Step(s, e, refused).0) && answer == Step(s, e, refused).1
    ensures Counted(s, e, refused, old(l.totalEntries), l.totalEntries, l.maxEntries)
  {
    hide Limiter.Valid;
    hide Charge;
    hide First;
    hide Sweep;
    answer, refused := None, false;
    match e
    case Lookup(w, x, _) =>
      if w in l.pending {
        l.Tick(time);
      } else {
        answer := l.Lookup(w, x, time);
      }
    case Insert(w, memory, _) =>
      if w !in l.pending {
        l.Tick(time);
      } else {
        var ok := l.Insert(w, time, memory);
        answer, refused := Some(ok), !ok;
      }
    case Collect(_) => l.GcEntries(time);
    case Freed(_) =>
      if l.retired > 0 {
        l.EntryFree();
      }
      l.Tick(time);
  }

  /** The counter after i events. */
  ghost predicate Covered(events: seq<Event>, refused: set<nat>, i: nat, count: nat, max: nat)
    requires i <= |events|
  {
    |After(events[..i], refused).entries| <= count <= max && count <= Insertions(events, i)
  }

  /** The answer to event i, and what it did to the counter. */
  ghost predicate Seen(events: seq<Event>, refused: set<nat>, i: nat, answer: Option<bool>, before: nat, after: nat,
                       max: nat)
    requires i < |events|
  {
    && answer == Answer(events, refused, i)
    && Counted(After(events[..i], refused), events[i], i in refused, before, after, max)
  }

  /** What has been seen of the first n events is what the machine gives. */
  ghost predicate Observed(events: seq<Event>, n: nat, answers: seq<Option<bool>>, counts: seq<nat>, refused: set<nat>,
                           max: nat)
    requires n <= |events|
  {
    && |answers| == n && |counts| == n + 1 && counts[0] == 0
    && (forall i | 0 <= i < n :: Seen(events, refused, i, answers[i], counts[i], counts[i + 1], max))
    && (forall i | 0 <= i <= n :: Covered(events, refused, i, counts[i], max))
    && (forall i | i in refused :: i < n)
  }

  lemma {:induction false} SeenNext(events: seq<Event>, refused: set<nat>, n: nat, answer: Option<bool>, before: nat,
                                    count: nat, max: nat, no: bool)
    requires n < |events| && n !in refused && Covered(events, refused, n, before, max)
    requires var s := After(events[..n], refused);
      && answer == Step(s, events[n], no).1 && |Step(s, events[n], no).0.entries| <= count
      && Counted(s, events[n], no, before, count, max)
    ensures var later := if no then refused + {n} else refused;
      && After(events[..n + 1], later) == Step(After(events[..n], refused), events[n], no).0
      && Seen(events, later, n, answer, before, count, max) && Covered(events, later, n + 1, count, max)
  {
    hide After;
    hide Step;
    var later := if no then refused + {n} else refused;
    if no {
      Extend(events, refused, n);
    }
    AfterNext(events, later, n);
  }

  lemma {:induction false} SeenStays(events: seq<Event>, refused: set<nat>, n: nat, i: nat, answer: Option<bool>,
                                     before: nat, after: nat, max: nat)
    requires i <= n < |events|
    ensures Covered(events, refused, i, before, max) ==> Covered(events, refused + {n}, i, before, max)
    ensures i < n && Seen(events, refused, i, answer, before, after, max) ==>
      Seen(events, refused + {n}, i, answer, before, after, max)
  {
    hide After;
    hide Step;
    hide Answer;
    hide Counted;
    hide Insertions;
    Extend(events, refused, n);
  }

  lemma {:induction false} ObservedNext(events: seq<Event>, n: nat, answers: seq<Option<bool>>, counts: seq<nat>,
                                        refused: set<nat>, later: set<nat>, max: nat, answer: Option<bool>, count: nat)
    requires n < |events| && Observed(events, n, answers, counts, refused, max)
    requires later == refused || later == refused + {n}
    requires Seen(events, later, n, answer, counts[n], count, max) && Covered(events, later, n + 1, count, max)
    ensures Observed(events, n + 1, answers + [answer], counts + [count], later, max)
  {
    hide Seen;
    hide Covered;
    var all, cs := answers + [answer], counts + [count];
    forall i | 0 <= i < n ensures Seen(events, later, i, all[i], cs[i], cs[i + 1], max) {
      SeenStays(events, refused, n, i, answers[i], counts[i], counts[i + 1], max);
    }
    forall i | 0 <= i <= n ensures Covered(events, later, i, cs[i], max) {
      SeenStays(events, refused, n, i, None, counts[i], 0, max);
    }
  }

  /** The hash table follows the machine through every run, whatever its workers do. Its counter never passes
      the limit and covers the sources that can be found; it decides which insertions are refused, and none is
      for lack of room before there have been as many insertions as the table has places. */
  method Run(events: seq<Event>, size: nat, hash: Source -> nat)
    returns (answers: seq<Option<bool>>, counts: seq<nat>, refused: set<nat>)
    requires size > 0
    ensures |answers| == |events| && forall n | 0 <= n < |events| :: answers[n] == Answer(events, refused, n)
    ensures |counts| == |events| + 1 && counts[0] == 0
    ensures forall n | 0 <= n < |events| ::
      Counted(After(events[..n], refused), events[n], n in refused, counts[n], counts[n + 1], 8 * size)
    ensures forall n | 0 <= n <= |events| :: |After(events[..n], refused).entries| <= counts[n] <= 8 * size
    ensures forall n | n in refused ::
      n < |events| && events[n].Insert? && (!events[n].memory || Insertions(events, n) >= 8 * size)
  {
    hide After;
    hide Step;
    hide Insertions;
    hide Answer;
    answers, counts, refused := RunTo(events, size, hash);
    forall n | n in refused
      ensures n < |events| && events[n].Insert? && (!events[n].memory || Insertions(events, n) >= 8 * size)
    {
      assert Seen(events, refused, n, answers[n], counts[n], counts[n + 1], 8 * size);
      assert Covered(events, refused, n, counts[n], 8 * size);
    }
    forall n | 0 <= n < |events| ensures answers[n] == Answer(events, refused, n)
      && Counted(After(events[..n], refused), events[n], n in refused, counts[n], counts[n + 1], 8 * size) {
      assert Seen(events, refused, n, answers[n], counts[n], counts[n + 1], 8 * size);
    }
  }

  method RunTo(events: seq<Event>, size: nat, hash: Source -> nat)
    returns (answers: seq<Option<bool>>, counts: seq<nat>, refused: set<nat>)
    requires size > 0
    ensures Observed(events, |events|, answers, counts, refused, 8 * size)
  {
    hide After;
    hide Step;
    hide Observed;
    hide Counted;
    hide Covered;
    hide Seen;
    hide Limiter.Valid;
    var max := 8 * size;
    var l := new Limiter(size, hash);
    var time := 0;
    answers, counts, refused := [], [0], {};
    RunBegins(events, max);
    for n := 0 to |events|
      invariant fresh(l) && l.maxEntries == max && Follows(l, After(events[..n], refused)) && time == l.clock
      invariant Observed(events, n, answers, counts, refused, max)
      invariant |counts| == n + 1 && counts[n] == l.totalEntries
    {
      time := time + events[n].after;
      var answer, no := Apply(l, events[n], After(events[..n], refused), time);
      Covers(l);
      ClockStep(After(events[..n], refused), events[n], no);
      ObservedLast(events, n, answers, counts, refused, max);
      SeenNext(events, refused, n, answer, counts[n], l.totalEntries, max, no);
      var later := if no then refused + {n} else refused;
      ObservedNext(events, n, answers, counts, refused, later, max, answer, l.totalEntries);
      answers, counts, refused := answers + [answer], counts + [l.totalEntries], later;
    }
    assert events[..|events|] == events;
  }

  lemma {:induction false} ObservedLast(events: seq<Event>, n: nat, answers: seq<Option<bool>>, counts: seq<nat>,
                                        refused: set<nat>, max: nat)
    requires n < |events| && Observed(events, n, answers, counts, refused, max)
    ensures n !in refused && |counts| == n + 1 && Covered(events, refused, n, counts[n], max)
  {
    hide Seen;
    hide Covered;
  }

  lemma {:induction false} RunBegins(events: seq<Event>, max: nat)
    ensures After(events[..0], {}) == START && Observed(events, 0, [], [0], {}, max)
  {
  }

  lemma {:induction false} Covers(l: Limiter)
    requires l.Valid()
    ensures |l.live| <= l.totalEntries
  {
    FewLive(l.table4, l.table6, l.size, l.hash, l.live);
  }

  lemma {:induction false} ClockStep(s: Live, e: Event, refused: bool)
    ensures Step(s, e, refused).0.clock == s.clock + e.after
  {
    hide Charge;
    hide First;
    hide Sweep;
  }

  /** What is noted of a later event says nothing about earlier ones. */
  lemma {:induction false} Extend(events: seq<Event>, refused: set<nat>, n: nat)
    requires n < |events|
    ensures forall i | 0 <= i <= n :: After(events[..i], refused + {n}) == After(events[..i], refused)
    ensures forall i | 0 <= i < n :: Answer(events, refused + {n}, i) == Answer(events, refused, i)
  {
    forall i | 0 <= i <= n ensures After(events[..i], refused + {n}) == After(events[..i], refused) {
      ExtendTo(events, refused, n, i);
    }
    hide After;
    hide Step;
  }

  lemma {:induction false} ExtendTo(events: seq<Event>, refused: set<nat>, n: nat, i: nat)
    requires i <= n < |events|
    ensures After(events[..i], refused + {n}) == After(events[..i], refused)
  {
    hide Step;
    if i > 0 {
      ExtendTo(events, refused, n, i - 1);
      assert events[..i][..i - 1] == events[..i - 1];
    }
  }
}
