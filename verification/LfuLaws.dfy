/** What one call does to every frequency and to the total, in arithmetic. */
module LfuLaws {
  import opened Basics
  import opened LfuModel
  import opened LfuLedger
  import opened LfuRefinement
  import opened LfuTheorems
  import opened LfuCoherence

  /** `g` is what a frequency `f` is after a call, when there were `total` accesses to `size` keys:
      above an average of `m` it loses half of `m`, rounded towards zero, but stays at least 1. */
  ghost predicate Follows(f: int, g: int, total: int, size: nat, m: int) {
    var half := if m >= 0 then m / 2 else -((-m) / 2);
    g == if total >= (m + 1) * size then (if f - half >= 1 then f - half else 1) else f
  }

  /** The average exceeds `m` exactly if the total reaches m + 1 for every key. */
  lemma {:induction false} AverageExceeds(total: nat, size: nat, m: int)
    requires size > 0
    ensures Average(total, size) > m <==> total >= (m + 1) * size
    ensures Average(total, size) * size <= total < (Average(total, size) + 1) * size
  {
    var q := total / size;
    assert total == q * size + total % size;
    assert (q + 1) * size == q * size + size;
    if m >= 0 {
      QuotientBound(total, size, m);
    } else {
      assert (m + 1) * size <= 0 by { NotPositive(m + 1, size); }
    }
  }

  lemma {:induction false} NotPositive(a: int, n: nat)
    requires a <= 0
    ensures a * n <= 0
  {}

  /** Under a negative total, which the source divides as an unsigned number of 64 bits: the low 32
      bits of that quotient, as a signed number. */
  lemma {:induction false} AverageWraps(total: int, size: nat)
    requires total < 0 && size > 0 && -0x8000_0000 <= total
    ensures var q := (0x1_0000_0000_0000_0000 + total) / size;
      -0x8000_0000 <= Average(total, size) < 0x8000_0000 && (q - Average(total, size)) % 0x1_0000_0000 == 0
  {}

  // ----- counting an access -----

  /** Every resident key's frequency follows; nothing else of the indexes' keys and of the values
      changes; the total is one more, and the average is its quotient. */
  lemma {:induction false} CountedLaw<K, V>(c: Cache<K, V>, order: seq<K>)
    requires c.values.Keys == c.freqs.Keys && c.values != map[] && Enumerates(order, c.freqs.Keys) && c.total + 1 >= 0
    ensures var r := Counted(c, order);
      && r.values == c.values && r.freqs.Keys == c.freqs.Keys && r.total == c.total + 1
      && (forall k | k in c.freqs :: Follows(c.freqs[k], r.freqs[k], r.total, |c.values|, c.maxAverage))
      && r.average * |c.values| <= r.total < (r.average + 1) * |c.values|
  {
    hide Average, ScannedMin, AgedIndex;
    var n := |c.values|;
    assert n > 0 by { NonEmpty(c.values); }
    AverageExceeds(c.total + 1, n, c.maxAverage);
    if Average(c.total + 1, n) > c.maxAverage {
      AgedFreqs(Index(c.freqs, c.lists), order, c.maxAverage);
      assert forall k | k in c.freqs :: k in order;
    }
  }

  lemma {:induction false} NonEmpty<K, V>(m: map<K, V>)
    requires m != map[]
    ensures |m| > 0
  {
    assert m.Keys != {};
    assert |m| == |m.Keys|;
  }

  /** Ageing never turns two keys round, and keeps apart those that stay above 1. */
  lemma {:induction false} AgeingKeepsOrder<K, V>(c: Cache<K, V>, order: seq<K>, j: K, k: K)
    requires c.values.Keys == c.freqs.Keys && c.values != map[] && Enumerates(order, c.freqs.Keys) && c.total + 1 >= 0
    requires j in c.freqs && k in c.freqs && c.freqs[j] >= 1 && c.freqs[k] >= 1
    ensures var r := Counted(c, order);
      && j in r.freqs && k in r.freqs
      && (c.freqs[j] <= c.freqs[k] ==> r.freqs[j] <= r.freqs[k])
      && (r.freqs[j] > 1 && r.freqs[k] > 1 ==> r.freqs[k] - r.freqs[j] == c.freqs[k] - c.freqs[j])
  {
    hide Counted;
    CountedLaw(c, order);
    var r := Counted(c, order);
    assert Follows(c.freqs[j], r.freqs[j], r.total, |c.values|, c.maxAverage);
    assert Follows(c.freqs[k], r.freqs[k], r.total, |c.values|, c.maxAverage);
  }

  lemma {:induction false} TalliedLaw<K, V>(a: Ledger<K, V>, order: seq<K>)
    requires a.values.Keys == a.counts.Keys && a.values != map[] && a.total + 1 >= 0
    ensures var r := Tallied(a, order);
      && r.values == a.values && r.counts.Keys == a.counts.Keys && r.total == a.total + 1
      && (forall k | k in a.counts :: Follows(a.counts[k], r.counts[k], r.total, |a.values|, a.maxAverage))
  {
    hide Average;
    NonEmpty(a.values);
    AverageExceeds(a.total + 1, |a.values|, a.maxAverage);
  }

  // ----- whole calls -----

  /** A get of a key that is not there and a put into a cache of no capacity change nothing; a purge
      takes every key and leaves the counters and the cached minimum. */
  lemma {:induction false} OtherCalls<K, V>(c: Cache<K, V>, op: Op<K, V>)
    requires !Counts(c, op)
    ensures Step(c, op).Some?
    ensures var r := Step(c, op).value;
      if op.Purge? then
        && r.values == map[] && r.freqs == map[] && (forall f :: ListAt(r.lists, f) == [])
        && r.total == c.total && r.average == c.average && r.minFreq == c.minFreq && r.capacity == c.capacity
      else r == c
  {}

  /** A key's frequency before the call is counted: one more for the key of the call, 1 for a new
      one. */
  ghost function Base<K, V>(freqs: map<K, int>, op: Op<K, V>, k: K): int {
    if !op.Purge? && op.key == k then (if k in freqs then freqs[k] + 1 else 1)
    else if k in freqs then freqs[k] else 0
  }

  /** The call makes room. */
  ghost predicate MakesRoom<K, V>(c: Cache<K, V>, op: Op<K, V>) {
    op.Put? && op.key !in c.freqs && |c.values| == c.capacity
  }

  /** What a call leaves that counts: every resident key's frequency follows from its base; a put
      that makes room takes one key, and that key's frequency off the total; no other key comes
      or goes. */
  ghost predicate LawfulStep<K, V>(c: Cache<K, V>, op: Op<K, V>, r: Cache<K, V>, victim: Option<K>) {
    && !op.Purge? && (victim.Some? <==> MakesRoom(c, op)) && (victim.Some? ==> victim.value in c.freqs)
    && r.values.Keys == r.freqs.Keys == c.freqs.Keys - Gone(victim) + {op.key}
    && r.total == c.total + 1 - (if victim.Some? then c.freqs[victim.value] else 0)
    && (forall k | k in r.freqs :: Follows(Base(c.freqs, op, k), r.freqs[k], r.total, |r.values|, c.maxAverage))
  }

  ghost function Gone<K>(victim: Option<K>): set<K> { if victim.Some? then {victim.value} else {} }

  /** The state in which the access is counted. */
  ghost predicate LawfulBase<K, V>(c: Cache<K, V>, op: Op<K, V>, b: Cache<K, V>, victim: Option<K>) {
    && !op.Purge? && (victim.Some? <==> MakesRoom(c, op)) && (victim.Some? ==> victim.value in c.freqs)
    && b.values.Keys == b.freqs.Keys == c.freqs.Keys - Gone(victim) + {op.key}
    && b.total == c.total - (if victim.Some? then c.freqs[victim.value] else 0) && b.maxAverage == c.maxAverage
    && (forall k | k in b.freqs :: b.freqs[k] == Base(c.freqs, op, k))
  }

  lemma {:induction false} TouchedBase<K, V>(c: Cache<K, V>, op: Op<K, V>)
    requires c.values.Keys == c.freqs.Keys && !op.Purge? && op.key in c.freqs
    ensures BeforeCount(c, op).Some? && LawfulBase(c, op, BeforeCount(c, op).value, None)
  {
    hide Relisted;
    var b := BeforeCount(c, op).value;
    assert b.freqs.Keys == c.freqs.Keys == c.freqs.Keys - {} + {op.key};
    assert b.values.Keys == c.values.Keys;
  }

  lemma {:induction false} KickedParts<K, V>(c: Cache<K, V>) returns (v: K)
    requires KickedOut(c).Some?
    ensures var r := KickedOut(c).value;
      && v in c.freqs && r.values == c.values - {v} && r.freqs == c.freqs - {v}
      && r.total == c.total - c.freqs[v] && r.maxAverage == c.maxAverage
  {
    hide Average, Without;
    v := ListAt(c.lists, c.minFreq)[0];
  }

  lemma {:induction false} InsertedParts<K, V>(c: Cache<K, V>, k: K, v: V) returns (r: Cache<K, V>)
    requires Inserted(c, k, v).Some?
    ensures Full(c) ==> KickedOut(c) == Some(r)
    ensures !Full(c) ==> r == c
    ensures var b := Inserted(c, k, v).value;
      b.freqs == r.freqs[k := 1] && b.values == r.values[k := v] && b.total == r.total && b.maxAverage == r.maxAverage
  {
    hide KickedOut, ListAt;
    r := if Full(c) then KickedOut(c).value else c;
  }

  /** A map with one key gone and one more. */
  lemma {:induction false} KeysAfter<K, V>(m: map<K, V>, gone: set<K>, k: K, v: V)
    ensures (m - gone)[k := v].Keys == m.Keys - gone + {k}
  {}

  lemma {:induction false} NoneGone<K, V>(m: map<K, V>)
    ensures m - {} == m
  {}

  lemma {:induction false} InsertedBase<K, V>(c: Cache<K, V>, op: Op<K, V>) returns (victim: Option<K>)
    requires c.values.Keys == c.freqs.Keys && op.Put? && op.key !in c.freqs && BeforeCount(c, op).Some?
    ensures LawfulBase(c, op, BeforeCount(c, op).value, victim)
  {
    hide KickedOut, Inserted;
    victim := None;
    var r := InsertedParts(c, op.key, op.val);
    if Full(c) {
      var v := KickedParts(c);
      victim := Some(v);
    } else {
      NoneGone(c.freqs);
      NoneGone(c.values);
    }
    EntersOne(c, op, r, victim);
  }

  lemma {:induction false} EntersOne<K, V>(c: Cache<K, V>, op: Op<K, V>, r: Cache<K, V>, victim: Option<K>)
    requires c.values.Keys == c.freqs.Keys && op.Put? && op.key !in c.freqs && BeforeCount(c, op).Some?
    requires (victim.Some? <==> MakesRoom(c, op)) && (victim.Some? ==> victim.value in c.freqs)
    requires r.freqs == c.freqs - Gone(victim) && r.values == c.values - Gone(victim) && r.maxAverage == c.maxAverage
    requires r.total == c.total - if victim.Some? then c.freqs[victim.value] else 0
    requires var b := BeforeCount(c, op).value;
      b.freqs == r.freqs[op.key := 1] && b.values == r.values[op.key := op.val] && b.total == r.total && b.maxAverage == r.maxAverage
    ensures LawfulBase(c, op, BeforeCount(c, op).value, victim)
  {
    hide BeforeCount, MakesRoom;
    KeysAfter(c.freqs, Gone(victim), op.key, 1);
    KeysAfter(c.values, Gone(victim), op.key, op.val);
  }

  lemma {:induction false} FromBase<K, V>(c: Cache<K, V>, op: Op<K, V>, b: Cache<K, V>, victim: Option<K>)
    requires LawfulBase(c, op, b, victim) && Enumerates(op.order, b.freqs.Keys) && b.total + 1 >= 0
    ensures LawfulStep(c, op, Counted(b, op.order), victim)
  {
    hide Counted, Follows, MakesRoom;
    assert op.key in b.values;
    CountedLaw(b, op.order);
    var r := Counted(b, op.order);
    forall k | k in r.freqs ensures Follows(Base(c.freqs, op, k), r.freqs[k], r.total, |r.values|, c.maxAverage) {
      assert b.freqs[k] == Base(c.freqs, op, k);
    }
  }

  /** Every put and get that counts is lawful while the total is not negative. */
  lemma {:induction false} StepLaw<K, V>(c: Cache<K, V>, op: Op<K, V>) returns (victim: Option<K>)
    requires c.values.Keys == c.freqs.Keys && Counts(c, op) && LegalStep(c, op) && Step(c, op).Some?
    requires Step(c, op).value.total >= 0
    ensures LawfulStep(c, op, Step(c, op).value, victim)
  {
    hide Counted, Inserted, Touched, LawfulBase, Follows, Base, MakesRoom;
    victim := None;
    if op.key in c.freqs {
      TouchedBase(c, op);
    } else {
      victim := InsertedBase(c, op);
    }
    var b := BeforeCount(c, op).value;
    CountedTotal(b, op.order);
    FromBase(c, op, b, victim);
  }

  lemma {:induction false} CountedTotal<K, V>(c: Cache<K, V>, order: seq<K>)
    ensures Counted(c, order).total == c.total + 1
  {}

  /** The same of the ledger. */
  lemma {:induction false} LedgerLaw<K, V>(a: Ledger<K, V>, op: Op<K, V>)
    requires a.values.Keys == a.counts.Keys && Accesses(a, op) && Enumerates(a.recency, a.counts.Keys)
    requires LedgerStep(a, op).total >= 0
    ensures var r := LedgerStep(a, op);
      && r.values.Keys == r.counts.Keys && op.key in r.counts
      && (forall k | k in r.counts :: Follows(Base(a.counts, op, k), r.counts[k], r.total, |r.values|, a.maxAverage))
      && (op.key in a.counts || |a.values| != a.capacity ==> r.total == a.total + 1)
  {
    hide Average, Follows, Ages, Tallied, BeforeTally;
    var b := BeforeTally(a, op);
    TallyBase(a, op);
    TalliedTotal(b, op.order);
    TalliedLaw(b, op.order);
    var r := LedgerStep(a, op);
    forall k | k in r.counts ensures Follows(Base(a.counts, op, k), r.counts[k], r.total, |r.values|, a.maxAverage) {
      assert b.counts[k] == Base(a.counts, op, k);
    }
  }

  lemma {:induction false} TallyBase<K, V>(a: Ledger<K, V>, op: Op<K, V>)
    requires a.values.Keys == a.counts.Keys && Accesses(a, op) && Enumerates(a.recency, a.counts.Keys)
    ensures var b := BeforeTally(a, op);
      && !op.Purge? && op.key in b.counts && b.values.Keys == b.counts.Keys && b.values != map[]
      && b.maxAverage == a.maxAverage && (op.key in a.counts || |a.values| != a.capacity ==> b.total == a.total)
      && (forall k | k in b.counts :: b.counts[k] == Base(a.counts, op, k))
  {
    hide FirstLeast, Without;
    EnumeratedCounts(a.recency, a.counts);
    var b := BeforeTally(a, op);
    assert b.values.Keys == b.counts.Keys;
    assert op.key in b.values;
  }

  lemma {:induction false} TalliedTotal<K, V>(a: Ledger<K, V>, order: seq<K>)
    ensures Tallied(a, order).total == a.total + 1 && Tallied(a, order).maxAverage == a.maxAverage
  {}

  /** So is every call of a run in range. */
  lemma {:induction false} EveryCallLawful<K, V>(capacity: int, m: int, ops: seq<Op<K, V>>, op: Op<K, V>, c: Cache<K, V>)
    returns (victim: Option<K>)
    requires InRange(capacity, m, ops + [op]) && Legal(New(capacity, m), ops + [op])
    requires Run(New(capacity, m), ops) == Some(c) && Counts(c, op)
    ensures Run(New(capacity, m), ops + [op]).Some?
    ensures LawfulStep(c, op, Run(New(capacity, m), ops + [op]).value, victim)
  {
    hide Step, Good, LawfulStep, InRange;
    RunGood(capacity, m, ops + [op]);
    TotalBoundedByCalls(capacity, m, ops + [op]);
    assert (ops + [op])[..|ops + [op]| - 1] == ops;
    CoherentKeys(capacity, m, ops);
    victim := StepLaw(c, op);
  }

  lemma {:induction false} CoherentKeys<K, V>(capacity: int, m: int, ops: seq<Op<K, V>>)
    requires Legal(New(capacity, m), ops) && Run(New(capacity, m), ops).Some?
    ensures Run(New(capacity, m), ops).value.values.Keys == Run(New(capacity, m), ops).value.freqs.Keys
  {
    hide *;
    IndexCoherent(capacity, m, ops);
  }
}
