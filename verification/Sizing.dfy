/** Adaptive batch sizing: the batchSizer of internal/snmp/fetch.go. */
module Sizing {
  import opened Arithmetic

  const GROW_AFTER: nat := 10

  /** The sizer's three fields as a value; the class below keeps one of these up to date in place. */
  datatype Sizer = Sizer(max: nat, current: nat, streak: nat) {
    ghost predicate Valid() {
      1 <= current <= max && streak < GROW_AFTER
    }

    predicate CanShrink() {
      current > 1
    }

    function Shrunk(): Sizer {
      this.(current := Max(1, current / 2), streak := 0)
    }

    function AfterSuccess(): Sizer {
      if current >= max then this
      else if streak + 1 >= GROW_AFTER then this.(current := Min(max, current * 2), streak := 0)
      else this.(streak := streak + 1)
    }

    function AfterReset(): Sizer {
      this.(current := max, streak := 0)
    }
  }

  function NewSizer(max: int): (s: Sizer)
    ensures s.Valid() && s.current == s.max && s.streak == 0
  {
    Sizer(Max(1, max), Max(1, max), 0)
  }

  // ----- how a batch recovers -----

  function Succeed(s: Sizer, n: nat): Sizer {
    if n == 0 then s else Succeed(s, n - 1).AfterSuccess()
  }

  function Halve(s: Sizer, n: nat): Sizer {
    if n == 0 then s else Halve(s, n - 1).Shrunk()
  }

  lemma {:induction false} StreakCounts(s: Sizer, n: nat)
    requires s.Valid() && s.current < s.max && s.streak == 0 && n <= 10
    ensures Succeed(s, n) == if n < 10 then s.(streak := n) else s.(current := Min(s.max, 2 * s.current))
  {
    if n > 0 {
      StreakCounts(s, n - 1);
    }
  }

  lemma {:induction false} SucceedOn(s: Sizer, n: nat, m: nat)
    ensures Succeed(s, n + m) == Succeed(Succeed(s, n), m)
  {
    if m > 0 {
      SucceedOn(s, n, m - 1);
    }
  }

  lemma {:induction false} FullStays(s: Sizer, n: nat)
    requires s.current == s.max
    ensures Succeed(s, n) == s
  {
    if n > 0 {
      FullStays(s, n - 1);
    }
  }

  /** Ten successes in a row double the batch up to the limit: ten for every halving restore it. */
  lemma {:induction false} SuccessesRestore(s: Sizer, doublings: nat)
    requires s.Valid() && s.streak == 0
    ensures Succeed(s, 10 * doublings) == s.(current := Min(s.max, Pow2(doublings) * s.current))
    decreases doublings
  {
    if doublings > 0 {
      var n := doublings - 1;
      SuccessesRestore(s, n);
      SucceedOn(s, 10 * n, 10);
      var t := Succeed(s, 10 * n);
      ProductAssociates(2, Pow2(n), s.current);
      ProductGrows(1, Pow2(n), s.current);
      if t.current < t.max {
        StreakCounts(t, 10);
      } else {
        FullStays(t, 10);
      }
    }
  }

  /** Every refusal halves the batch, down to one OID; then it cannot shrink. */
  lemma {:induction false} RefusalsHalve(s: Sizer, n: nat)
    requires s.Valid()
    ensures Halve(s, n) == if n == 0 then s else s.(current := Max(1, s.current / Pow2(n)), streak := 0)
    ensures Halve(s, n).CanShrink() <==> s.current / Pow2(n) > 1
  {
    if n > 0 {
      RefusalsHalve(s, n - 1);
      HalfOfQuotient(s.current, Pow2(n - 1));
    }
  }

  lemma HalfOfQuotient(x: nat, d: nat)
    requires d > 0
    ensures x / (2 * d) == x / d / 2
  {
    Quotient(x, d);
    var q := x / d / 2;
    ProductAssociates(q, 2, d);
    ProductGrows(2 * q, x / d, d);
    ProductGrows(x / d, 2 * q + 1, d);
    assert (2 * q + 1) * d == 2 * q * d + d;
    QuotientIs(x, 2 * d, q);
  }

  /** No request of this many OIDs, batched this way, outgrows an error index of one octet. */
  predicate IndexFits(batchSize: int, count: nat) {
    Min(NewSizer(batchSize).max, count) <= 255
  }

  class BatchSizer {
    var max: nat
    var current: nat
    var streak: nat

    ghost function State(): Sizer
      reads this
    {
      Sizer(max, current, streak)
    }

    constructor (limit: int)
      ensures State() == NewSizer(limit)
    {
      var m := limit;
      if m < 1 {
        m := 1;
      }
      max, current, streak := m, m, 0;
    }

    method Size() returns (n: nat)
      ensures n == State().current
    {
      n := current;
    }

    method Shrink() returns (ok: bool)
      modifies this
      ensures ok == old(State()).CanShrink()
      ensures State() == if ok then old(State()).Shrunk() else old(State())
    {
      if current <= 1 {
        return false;
      }
      current := Max(1, current / 2);
      streak := 0;
      return true;
    }

    method Success()
      modifies this
      ensures State() == old(State()).AfterSuccess()
    {
      if current >= max {
        return;
      }
      streak := streak + 1;
      if streak >= GROW_AFTER {
        current := Min(max, current * 2);
        streak := 0;
      }
    }

    method Reset()
      modifies this
      ensures State() == old(State()).AfterReset()
    {
      current := max;
      streak := 0;
    }
  }

  // ----- the potential that pays for retries -----

  /** floor(log2 n). */
  function Log2(n: nat): nat
    requires n >= 1
  {
    if n == 1 then 0 else 1 + Log2(n / 2)
  }

  lemma {:induction false} Log2Monotone(a: nat, b: nat)
    requires 1 <= a <= b
    ensures Log2(a) <= Log2(b)
  {
    if a > 1 {
      Log2Monotone(a / 2, b / 2);
    }
  }

  /** Ten units per halving still available, one per success counted towards the next doubling. */
  ghost function Potential(s: Sizer): nat
    requires s.Valid()
  {
    10 * Log2(s.current) + s.streak
  }

  /** A shrink pays for the request that was wasted. */
  lemma ShrinkPays(s: Sizer)
    requires s.Valid() && s.CanShrink()
    ensures s.Shrunk().Valid() && s.Shrunk().current < s.current
    ensures Potential(s.Shrunk()) + 10 <= Potential(s)
  {
  }

  /** A success adds at most one unit: only every tenth doubles the batch. */
  lemma SuccessCosts(s: Sizer)
    requires s.Valid()
    ensures s.AfterSuccess().Valid()
    ensures Potential(s.AfterSuccess()) <= Potential(s) + 1
  {
    if s.current < s.max && s.streak + 1 >= GROW_AFTER {
      var t := s.AfterSuccess();
      Log2Monotone(t.current, 2 * s.current);
      assert (2 * s.current) / 2 == s.current;
    }
  }

  lemma PotentialIsBounded(s: Sizer)
    requires s.Valid()
    ensures s.AfterReset().Valid() && Potential(s.AfterReset()) == 10 * Log2(s.max)
  {
  }
}
