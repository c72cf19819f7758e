/** counter_validate: the ring bitmap of section 2 of RFC 6479, compared with a plain
    set of accepted nonces. */
module ReplayWindow {
  import opened Bits

  const COUNTER_BITS_TOTAL: nat := 2048
  const BITS_PER_LONG: nat := 64
  const WORDS: nat := COUNTER_BITS_TOTAL / BITS_PER_LONG
  const COUNTER_WINDOW_SIZE: nat := COUNTER_BITS_TOTAL - BITS_PER_LONG
  const REJECT_AFTER_MESSAGES: nat := 0xffff_ffff_ffff_ffff - COUNTER_WINDOW_SIZE - 1

  /** What the window is for: a nonce below the limit, never accepted before, and at
      most the window size behind every accepted one. */
  ghost predicate Fresh(nonce: nat, accepted: set<nat>) {
    && nonce < REJECT_AFTER_MESSAGES && nonce !in accepted
    && forall a | a in accepted :: a <= nonce + COUNTER_WINDOW_SIZE
  }

  /** The digit for a counter value t lies in word t / 64 of the ring. */
  ghost predicate Marked(words: seq<u64>, t: nat)
    requires |words| == 32
  {
    Bit(words[t / 64 % 32] as nat, t % 64)
  }

  /** The ring covers the 32 words up to that of the counter; inside them a digit is set
      exactly for the accepted nonces, counted from one. */
  ghost predicate Covers(words: seq<u64>, counter: nat, accepted: set<nat>) {
    && |words| == 32
    && (forall a | a in accepted :: a < counter)
    && (counter > 0 ==> counter - 1 in accepted)
    && counter <= REJECT_AFTER_MESSAGES
    && forall t: nat | counter / 64 < t / 64 + 32 && t / 64 <= counter / 64 ::
         Marked(words, t) <==> t >= 1 && t - 1 in accepted
  }

  lemma {:induction false} Pow2Word()
    ensures Pow2(64) == 0x1_0000_0000_0000_0000 && Shl(1, 64) == 0x1_0000_0000_0000_0000 && Pow2(5) == 32
  {
    assert Pow2(8) == 0x100 && Pow2(5) == 32;
    Pow2Add(8, 8);
    Pow2Add(16, 16);
    Pow2Add(32, 32);
    Pow2IsShl(64);
    hide Pow2;
    hide Shl;
  }

  lemma {:induction false} Pow2IsShl(n: nat)
    ensures Pow2(n) == Shl(1, n)
  {
    if n > 0 { Pow2IsShl(n - 1); }
  }

  lemma {:induction false} ShlGrows(m: nat, n: nat)
    requires m <= n
    ensures Shl(1, m) <= Shl(1, n) && (m < n ==> Shl(1, m) < Shl(1, n))
    decreases n
  {
    ShlPositive(m);
    if m < n { ShlGrows(m, n - 1); }
  }

  lemma {:induction false} ShlPositive(n: nat)
    ensures Shl(1, n) >= 1
  {
    if n > 0 { ShlPositive(n - 1); }
  }

  /** set_bit: the word with digit b set. */
  function SetBit(w: u64, b: nat): (r: u64)
    requires b < 64
  {
    SetBitBound(w, b);
    Or(w as nat, Pow2(b)) as u64
  }

  lemma {:induction false} SetBitBound(w: u64, b: nat)
    requires b < 64
    ensures Or(w as nat, Pow2(b)) < 0x1_0000_0000_0000_0000
  {
    Pow2Word();
    Pow2IsShl(b);
    ShlGrows(b, 64);
    hide Or;
    hide Shl;
    hide Pow2;
    OrBound(w as nat, Pow2(b), 64);
  }

  lemma {:induction false} SlotIs(w: nat)
    ensures And(w, WORDS - 1) == w % 32
  {
    Pow2Word();
    hide Pow2;
    hide And;
    AndMask(w, 5);
  }

  /** Setting a digit changes the marking of its own counter value only, among
      values whose words the ring keeps apart. */
  lemma {:induction false} SetMarks(words: seq<u64>, n: nat, t: nat)
    requires |words| == 32 && t / 64 < n / 64 + 32 && n / 64 < t / 64 + 32
    ensures Marked(words[n / 64 % 32 := SetBit(words[n / 64 % 32], n % 64)], t) <==> t == n || Marked(words, t)
  {
    hide Or;
    hide Bit;
    OrSetsBit(words[n / 64 % 32] as nat, n % 64, t % 64);
    if t / 64 != n / 64 {
      assert t / 64 % 32 != n / 64 % 32;
    }
  }

  class ReceiveCounter {
    var counter: u64
    const backtrack: array<u64>
    ghost var accepted: set<nat>

    ghost predicate Valid()
      reads this, backtrack
    {
      backtrack.Length == 32 && Covers(backtrack[..], counter as nat, accepted)
    }

    constructor ()
      ensures Valid() && accepted == {} && fresh(backtrack)
    {
      counter := 0;
      backtrack := new u64[32](_ => 0);
      accepted := {};
      new;
      forall t: nat | t / 64 % 32 < 32 ensures !Marked(backtrack[..], t) {
        BitZero(t % 64);
      }
    }

    /** Clears the words between the old and the new position, at most all of them. */
    method Advance(their: u64)
      requires Valid() && counter < their && their as nat <= REJECT_AFTER_MESSAGES
      modifies this`counter, backtrack
      ensures counter == their && backtrack.Length == 32
      ensures forall t: nat | their as nat / 64 < t / 64 + 32 && t / 64 <= their as nat / 64 ::
        Marked(backtrack[..], t) <==> t >= 1 && t - 1 in accepted
    {
      hide Marked;
      ghost var was := backtrack[..];
      var indexCurrent, index := counter as nat / BITS_PER_LONG, their as nat / BITS_PER_LONG;
      Divided(counter as nat, their as nat);
      var top := if index - indexCurrent <= WORDS then index - indexCurrent else WORDS;
      Clear(indexCurrent, top);
      Cleared(was, backtrack[..], indexCurrent, index, counter as nat, accepted);
      counter := their;
    }

    /** Clears the slots of the given number of words after one. */
    method Clear(indexCurrent: nat, top: nat)
      requires backtrack.Length == 32 && top <= 32
      modifies backtrack
      ensures forall w | 0 <= w < 32 ::
        backtrack[w] == if StepsTo(w, indexCurrent) < top + 1 then 0 else old(backtrack[w])
    {
      hide And;
      for i := 1 to top + 1
        invariant forall w | 0 <= w < 32 ::
          backtrack[w] == if StepsTo(w, indexCurrent) < i then 0 else old(backtrack[w])
      {
        SlotIs(i + indexCurrent);
        StepsIs(indexCurrent, i);
        backtrack[And(i + indexCurrent, WORDS - 1)] := 0;
      }
    }

    /** counter_validate: accepts exactly the fresh nonces. */
    method Validate(their: u64) returns (ret: bool)
      requires Valid()
      modifies this, backtrack
      ensures Valid() && accepted == old(accepted) + (if ret then {their as nat} else {})
      ensures ret <==> Fresh(their as nat, old(accepted))
    {
      hide And;
      hide Bit;
      if counter as nat >= REJECT_AFTER_MESSAGES + 1 || their as nat >= REJECT_AFTER_MESSAGES {
        return false;
      }
      var n := their + 1;
      if COUNTER_WINDOW_SIZE as u64 + n < counter {
        assert counter as nat - 1 in accepted;
        return false;
      }
      if n > counter {
        Advance(n);
      }
      ghost var c, words := counter as nat, backtrack[..];
      SlotIs(n as nat / BITS_PER_LONG);
      var index := And(n as nat / BITS_PER_LONG, WORDS - 1);
      var b := n as nat % BITS_PER_LONG;
      BitIsShift(backtrack[index] as nat, b);
      ret := backtrack[index] as nat / Pow2(b) % 2 == 0;
      assert ret <==> !Marked(words, n as nat);
      assert Marked(words, n as nat) <==> their as nat in accepted;
      backtrack[index] := SetBit(backtrack[index], b);
      assert backtrack[..] == words[n as nat / 64 % 32 := SetBit(words[n as nat / 64 % 32], n as nat % 64)];
      forall t: nat | c / 64 < t / 64 + 32 && t / 64 <= c / 64
        ensures Marked(backtrack[..], t) <==> t == n as nat || Marked(words, t)
      {
        SetMarks(words, n as nat, t);
      }
      accepted := accepted + {their as nat};
    }
  }

  /** The number of steps, from 1 to 32, that lead from word cur to slot w. */
  function StepsTo(w: int, cur: int): int {
    (w - cur - 1) % 32 + 1
  }

  lemma {:induction false} StepsIs(cur: nat, i: nat)
    requires 1 <= i <= 32
    ensures forall w | 0 <= w < 32 :: StepsTo(w, cur) == i <==> w == (i + cur) % 32
  {
  }

  lemma {:induction false} Divided(a: nat, b: nat)
    requires a <= b
    ensures a / 64 <= b / 64
  {
  }

  /** The ring after clearing marks exactly the accepted nonces of the new window. */
  lemma {:induction false} Cleared(was: seq<u64>, now: seq<u64>, cur: nat, index: nat, counter: nat, accepted: set<nat>)
    requires |was| == |now| == 32 && Covers(was, counter, accepted) && cur == counter / 64 <= index
    requires var top := if index - cur <= 32 then index - cur else 32;
      forall w | 0 <= w < 32 :: now[w] == if StepsTo(w, cur) < top + 1 then 0 else was[w]
    ensures forall t: nat | index < t / 64 + 32 && t / 64 <= index :: Marked(now, t) <==> t >= 1 && t - 1 in accepted
  {
    hide Marked;
    hide StepsTo;
    forall t: nat | index < t / 64 + 32 && t / 64 <= index ensures Marked(now, t) <==> t >= 1 && t - 1 in accepted {
      Kept(cur, index, t / 64);
      if t / 64 <= cur {
        assert now[t / 64 % 32] == was[t / 64 % 32];
        SameMark(was, now, t);
      } else {
        assert now[t / 64 % 32] == 0;
        NoMark(now, t);
        Beyond(t, counter);
      }
    }
  }

  lemma {:induction false} SameMark(was: seq<u64>, now: seq<u64>, t: nat)
    requires |was| == |now| == 32 && now[t / 64 % 32] == was[t / 64 % 32]
    ensures Marked(now, t) == Marked(was, t)
  {
  }

  lemma {:induction false} NoMark(now: seq<u64>, t: nat)
    requires |now| == 32 && now[t / 64 % 32] == 0
    ensures !Marked(now, t)
  {
    BitZero(t % 64);
  }

  lemma {:induction false} Beyond(t: nat, counter: nat)
    requires t / 64 > counter / 64
    ensures t > counter
  {
  }

  /** Clearing reaches exactly the slots of the words that enter the ring. */
  lemma {:induction false} Kept(cur: nat, index: nat, word: nat)
    requires cur <= index < word + 32 && word <= index
    ensures var top := if index - cur <= 32 then index - cur else 32;
            StepsTo(word % 32, cur) < top + 1 <==> word > cur
  {
    var d := word - cur;
    assert (word % 32 - cur - 1) % 32 == (d - 1) % 32;
  }

  /** The nonces a plain set would have let through. */
  ghost function AcceptedBy(nonces: seq<u64>): set<nat> {
    if nonces == [] then {}
    else
      var before, n := AcceptedBy(nonces[..|nonces| - 1]), nonces[|nonces| - 1] as nat;
      if Fresh(n, before) then before + {n} else before
  }

  /** Over any sequence of calls the ring answers as the set does, so no nonce passes twice. */
  method ValidateAll(nonces: seq<u64>) returns (results: seq<bool>)
    ensures |results| == |nonces|
    ensures forall i | 0 <= i < |nonces| :: results[i] <==> Fresh(nonces[i] as nat, AcceptedBy(nonces[..i]))
    ensures forall i, j | 0 <= i < j < |nonces| && results[i] && results[j] :: nonces[i] != nonces[j]
  {
    hide Fresh;
    hide Covers;
    var c := new ReceiveCounter();
    results := [];
    for i := 0 to |nonces|
      invariant c.Valid() && fresh(c) && fresh(c.backtrack) && |results| == i
      invariant c.accepted == AcceptedBy(nonces[..i])
      invariant forall k | 0 <= k < i :: results[k] <==> Fresh(nonces[k] as nat, AcceptedBy(nonces[..k]))
    {
      assert nonces[..i + 1][..i] == nonces[..i];
      var ret := c.Validate(nonces[i]);
      results := results + [ret];
    }
    forall i, j | 0 <= i < j < |nonces| && results[i] && results[j] ensures nonces[i] != nonces[j] {
      AcceptedStays(nonces, i, j);
      NotTwice(nonces[j] as nat, AcceptedBy(nonces[..j]));
    }
  }

  lemma {:induction false} NotTwice(n: nat, accepted: set<nat>)
    requires Fresh(n, accepted)
    ensures n !in accepted
  {
  }

  lemma {:induction false} AcceptedStays(nonces: seq<u64>, i: nat, j: nat)
    requires i < j <= |nonces| && Fresh(nonces[i] as nat, AcceptedBy(nonces[..i]))
    ensures nonces[i] as nat in AcceptedBy(nonces[..j])
    decreases j
  {
    assert nonces[..j][..j - 1] == nonces[..j - 1];
    if i < j - 1 { AcceptedStays(nonces, i, j - 1); }
  }
}
