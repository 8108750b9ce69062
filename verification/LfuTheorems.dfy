/** What a user of the LFU cache may rely on, over every run of put, get and purge. */
module LfuTheorems {
  import opened Basics
  import opened LfuModel
  import opened LfuLedger
  import opened LfuRefinement

  // ----- the cached minimum: the exact range of maxAverageNum -----

  /** The run ends without a fault and with a right cached minimum. */
  ghost predicate EndsRight<K, V>(capacity: int, m: int, ops: seq<Op<K, V>>) {
    Run(New(capacity, m), ops).Some? && MinFreqRight(Run(New(capacity, m), ops).value)
  }

  ghost predicate AlwaysRight<K(!new), V(!new)>(capacity: int, m: int) {
    forall ops: seq<Op<K, V>> :: Legal(New(capacity, m), ops) ==> EndsRight(capacity, m, ops)
  }

  /** So do all runs of at most `n` calls. */
  ghost predicate RightUpTo<K(!new), V(!new)>(capacity: int, m: int, n: nat) {
    forall ops: seq<Op<K, V>> :: |ops| <= n && Legal(New(capacity, m), ops) ==> EndsRight(capacity, m, ops)
  }

  lemma {:induction false} GoodEndsRight<K, V>(capacity: int, m: int, ops: seq<Op<K, V>>)
    requires InRange(capacity, m, ops) && Legal(New(capacity, m), ops)
    ensures EndsRight(capacity, m, ops)
  {
    RunGood(capacity, m, ops);
    var c, a := Run(New(capacity, m), ops).value, LedgerRun(EmptyLedger(capacity, m), ops);
    SizeIsLength(a);
    LeastIsRight(c, a);
  }

  lemma {:induction false} RightInRange<K(!new), V(!new)>(capacity: int, m: int)
    requires 2 <= m <= 250
    ensures AlwaysRight<K, V>(capacity, m)
  {
    forall ops: seq<Op<K, V>> | Legal(New(capacity, m), ops) ensures EndsRight(capacity, m, ops) {
      GoodEndsRight(capacity, m, ops);
    }
  }

  /** One put of `k` followed by `gets` gets of it. */
  ghost function SoloRun<K, V>(k: K, v: V, gets: nat): (ops: seq<Op<K, V>>)
    ensures |ops| == gets + 1
  {
    if gets == 0 then [Put(k, v, [k])] else SoloRun(k, v, gets - 1) + [Get(k, [k])]
  }

  ghost function Solo<K, V>(capacity: int, m: int, total: int, k: K, v: V, f: int): Ledger<K, V> {
    Ledger(capacity, m, total, map[k := v], map[k := f], [k])
  }

  lemma {:induction false} OneKey<K>(k: K)
    ensures Enumerates([k], {k}) && Without([k], k) + [k] == [k]
  {}

  lemma {:induction false} SoloTally<K, V>(c: Cache<K, V>, capacity: int, m: int, total: nat, k: K, v: V, f: int)
    requires Mirrors(c, Solo(capacity, m, total, k, v, f))
    ensures var c' := Counted(c, [k]);
      var f' := if total + 1 > m then AgedFreq(m, f) else f;
      && Mirrors(c', Solo(capacity, m, total + 1, k, v, f'))
      && (total + 1 > m ==> c'.minFreq == if f' < INT8_MAX then f' else 1)
  {
    var a := Solo(capacity, m, total, k, v, f);
    OneKey(k);
    assert a.counts.Keys == {k};
    TallyMirrors(c, a, [k]);
    assert |a.values| == 1;
    if total + 1 > m {
      assert Ages(a);
      assert AgedCounts(a.counts, m) == map[k := AgedFreq(m, f)];
      SoloScan(Counted(c, [k]).lists, k, AgedFreq(m, f));
    }
  }

  lemma {:induction false} SoloScan<K>(lists: map<int, seq<K>>, k: K, f: int)
    requires Splits(lists, [k], map[k := f])
    ensures ScannedMin(lists) == if f < INT8_MAX then f else 1
  {
    OneKey(k);
    forall g ensures g in Occupied(lists) <==> g == f {
      OccupiedMembers(lists, [k], map[k := f], g);
      if g == f { assert k in map[k := f]; }
    }
    var below := set g | g in Occupied(lists) && g < INT8_MAX;
    if f < INT8_MAX { assert f in below; }
  }

  /** The single-key run is legal and leaves the key with frequency `f`. */
  ghost predicate SoloAt<K, V>(capacity: int, m: int, k: K, v: V, gets: nat, f: int) {
    && Legal(New(capacity, m), SoloRun(k, v, gets))
    && Run(New(capacity, m), SoloRun(k, v, gets)).Some?
    && Mirrors(Run(New(capacity, m), SoloRun(k, v, gets)).value, Solo(capacity, m, gets + 1, k, v, f))
  }

  lemma {:induction false} SoloPut<K, V>(capacity: int, m: int, k: K, v: V)
    requires capacity != 0
    ensures SoloAt(capacity, m, k, v, 0, if 1 > m then AgedFreq(m, 1) else 1)
    ensures Run(New(capacity, m), SoloRun(k, v, 0)).value.minFreq <= 1
  {
    var c0: Cache<K, V> := New(capacity, m);
    var a0: Ledger<K, V> := EmptyLedger(capacity, m);
    var op := Put(k, v, [k]);
    assert Mirrors(c0, a0);
    InsertedMirrors(c0, a0, k, v);
    assert Entered(a0, k, v) == Solo(capacity, m, 0, k, v, 1);
    SoloTally(Inserted(c0, k, v).value, capacity, m, 0, k, v, 1);
    OneKey(k);
    assert Inserted(c0, k, v).value.freqs.Keys == {k};
    var ops := SoloRun(k, v, 0);
    assert ops[..|ops| - 1] == [];
    assert Run(c0, ops) == Step(c0, op);
  }

  lemma {:induction false} SoloGet<K, V>(c: Cache<K, V>, capacity: int, m: int, total: nat, k: K, v: V, f: int)
    requires Mirrors(c, Solo(capacity, m, total, k, v, f))
    ensures LegalStep(c, Get(k, [k]))
    ensures Step(c, Get(k, [k])) == Some(Counted(Touched(c, k), [k]))
    ensures Mirrors(Touched(c, k), Solo(capacity, m, total, k, v, f + 1))
  {
    var a := Solo(capacity, m, total, k, v, f);
    OneKey(k);
    TouchedMirrors(c, a, k);
    assert Bumped(a, k) == Solo(capacity, m, total, k, v, f + 1);
    assert Touched(c, k).freqs.Keys == {k};
  }

  lemma {:induction false} AgeingTakesNothing(m: int, f: nat)
    requires -1 <= m <= 1 && f > 0
    ensures AgedFreq(m, f) == f
  {
    assert Half(m) == 0;
  }

  /** As long as ageing takes nothing off, the single key's frequency `f` is the number of calls. */
  lemma {:induction false} SoloGrows<K, V>(capacity: int, m: int, k: K, v: V, gets: nat, f: nat)
    requires capacity != 0 && f == gets + 1
    requires -1 <= m <= 1 || gets < m
    ensures SoloAt(capacity, m, k, v, gets, f)
    decreases gets
  {
    hide *;
    if m <= 1 { AgeingTakesNothing(m, f); }
    if gets == 0 {
      SoloPut(capacity, m, k, v);
    } else {
      SoloGrows(capacity, m, k, v, gets - 1, gets);
      SoloStep(capacity, m, k, v, gets, gets);
    }
  }

  /** One more get after `gets - 1` gets that left the key with frequency `f`. */
  lemma {:induction false} SoloStep<K, V>(capacity: int, m: int, k: K, v: V, gets: nat, f: int)
    requires gets > 0 && SoloAt(capacity, m, k, v, gets - 1, f)
    ensures var f' := if gets + 1 > m then AgedFreq(m, f + 1) else f + 1;
      && SoloAt(capacity, m, k, v, gets, f')
      && var c := Run(New(capacity, m), SoloRun(k, v, gets)).value;
      (gets + 1 > m ==> c.minFreq == if f' < INT8_MAX then f' else 1)
  {
    var ops := SoloRun(k, v, gets);
    assert ops[..|ops| - 1] == SoloRun(k, v, gets - 1);
    var c := Run(New(capacity, m), SoloRun(k, v, gets - 1)).value;
    SoloGet(c, capacity, m, gets, k, v, f);
    SoloTally(Touched(c, k), capacity, m, gets, k, v, f + 1);
  }

  /** The calls that a wrong cached minimum takes. */
  function WrongAfter(m: int): nat
    requires !(2 <= m <= 250)
  {
    if m < -1 then 1 else if m <= 1 then 127 else m + 1
  }

  /** Outside 2..250 a run on a single key ends with a wrong cached minimum. */
  lemma {:induction false} WrongOutsideRange<K(!new), V(!new)>(capacity: int, m: int, k: K, v: V)
    requires capacity != 0 && !(2 <= m <= 250)
    ensures !RightUpTo<K, V>(capacity, m, WrongAfter(m)) && !AlwaysRight<K, V>(capacity, m)
  {
    var gets := WrongAfter(m) - 1;
    var ops := SoloRun(k, v, gets);
    if m < -1 {
      SoloPut(capacity, m, k, v);
    } else {
      SoloGrows(capacity, m, k, v, gets - 1, gets);
      SoloStep(capacity, m, k, v, gets, gets);
    }
    var c := Run(New(capacity, m), ops).value;
    assert k in c.values && k in c.freqs;
    assert forall x :: x in c.freqs ==> c.freqs[x] != c.minFreq;
    assert !MinFreqRight(c);
    NotRight(capacity, m, ops, WrongAfter(m));
  }

  lemma {:induction false} NotRight<K(!new), V(!new)>(capacity: int, m: int, ops: seq<Op<K, V>>, n: nat)
    requires Legal(New(capacity, m), ops) && !EndsRight(capacity, m, ops) && |ops| <= n
    ensures !RightUpTo<K, V>(capacity, m, n) && !AlwaysRight<K, V>(capacity, m)
  {}

  /** The cached minimum is right in all runs exactly for maxAverageNum in 2..250. */
  lemma {:induction false} MinFreqExactRange<K(!new), V(!new)>(capacity: int, m: int, k: K, v: V)
    requires capacity != 0
    ensures AlwaysRight<K, V>(capacity, m) <==> 2 <= m <= 250
  {
    if 2 <= m <= 250 {
      RightInRange<K, V>(capacity, m);
    } else {
      WrongOutsideRange(capacity, m, k, v);
    }
  }

  /** A new state of the ledger in which ageing is out of reach. */
  lemma {:induction false} BelowNeverAges<K, V>(c: Cache<K, V>, a: Ledger<K, V>, op: Op<K, V>)
    requires Good(c, a) && a.total < a.maxAverage
    ensures !StepAges(a, op)
  {
    SumNonNegative(a);
    var b := BeforeTally(a, op);
    if op.Put? && op.key !in a.counts && a.capacity != 0 {
      RoomBound(a);
      SumNonNegative(Room(a));
      StepTotal(a, op);
    }
    if Accesses(a, op) { AverageAtMost(b.total + 1, |b.values|); }
  }

  lemma {:induction false} AverageAtMost(total: nat, size: nat)
    ensures Average(total, size) <= total
  {
    if size > 0 {
      QuotientBound(total, size, total);
      Multiplied(total + 1, size);
    }
  }

  lemma {:induction false} Multiplied(t: nat, n: nat)
    requires n > 0
    ensures t * n >= t
    decreases n
  {
    if n > 1 {
      Multiplied(t, n - 1);
      assert t * n == t * (n - 1) + t;
    }
  }

  /** No more calls than maxAverageNum: nothing ages. */
  lemma {:induction false} FewCalls<K, V>(capacity: int, m: int, ops: seq<Op<K, V>>)
    requires Legal(New<K, V>(capacity, m), ops) && 1 <= m && |ops| <= m
    ensures NothingAges(EmptyLedger<K, V>(capacity, m), ops)
    decreases |ops|
  {
    if ops != [] {
      var before := ops[..|ops| - 1];
      FewCalls(capacity, m, before);
      RunGood(capacity, m, before);
      BelowNeverAges(Run(New<K, V>(capacity, m), before).value, LedgerRun(EmptyLedger<K, V>(capacity, m), before), ops[|ops| - 1]);
    }
  }

  /** With maxAverageNum in -1..1, where ageing takes nothing off: after `n` calls no count
      exceeds `n`, and below the sentinel the scan finds the least. */
  ghost predicate Small<K, V>(c: Cache<K, V>, a: Ledger<K, V>, n: nat) {
    && Mirrors(c, a) && -1 <= a.maxAverage <= 1 && Positive(a.counts)
    && (forall k | k in a.counts :: a.counts[k] <= n)
    && c.minFreq >= 1 && (a.recency != [] ==> LeastCount(a.counts, c.minFreq))
  }

  lemma {:induction false} TallySmall<K, V>(c: Cache<K, V>, a: Ledger<K, V>, order: seq<K>, n: nat)
    requires Mirrors(c, a) && -1 <= a.maxAverage <= 1 && Positive(a.counts) && n < INT8_MAX
    requires (forall k | k in a.counts :: a.counts[k] <= n) && a.recency != [] && Enumerates(order, a.counts.Keys)
    ensures Mirrors(Counted(c, order), Tallied(a, order)) && Tallied(a, order).counts == a.counts
    ensures Tallied(a, order).recency != []
    ensures !Ages(a) ==> Counted(c, order).minFreq == c.minFreq
    ensures Ages(a) ==> LeastCount(a.counts, Counted(c, order).minFreq)
  {
    hide Splits, Average, AgedIndex;
    TallyMirrors(c, a, order);
    forall k | k in a.counts ensures AgedFreq(a.maxAverage, a.counts[k]) == a.counts[k] {
      AgeingTakesNothing(a.maxAverage, a.counts[k]);
    }
    assert AgedCounts(a.counts, a.maxAverage) == a.counts;
    assert a.recency[0] in a.counts && a.recency[0] in order;
    if Ages(a) {
      ScanFindsLeast(Counted(c, order).lists, order, a.counts, a.recency[0]);
    }
  }

  lemma {:induction false} AccessSmall<K, V>(c: Cache<K, V>, a: Ledger<K, V>, k: K, order: seq<K>, n: nat)
    requires Small(c, a, n) && k in c.freqs && Enumerates(order, c.freqs.Keys) && n + 1 < INT8_MAX
    ensures Small(Counted(Touched(c, k), order), Tallied(Bumped(a, k), order), n + 1)
  {
    hide Splits, AgedIndex, ScannedMin, Average;
    assert k in a.recency;
    TouchedMirrors(c, a, k);
    TouchedLeast(c, a, k);
    assert Bumped(a, k).counts.Keys == a.counts.Keys;
    TallySmall(Touched(c, k), Bumped(a, k), order, n + 1);
    LeastPositive(Bumped(a, k).counts, Counted(Touched(c, k), order).minFreq);
  }

  lemma {:induction false} InsertSmall<K, V>(c: Cache<K, V>, a: Ledger<K, V>, k: K, v: V, order: seq<K>, n: nat)
    requires Small(c, a, n) && k !in c.freqs && a.capacity != 0 && n + 1 < INT8_MAX
    requires Inserted(c, k, v).Some? ==> Enumerates(order, Inserted(c, k, v).value.freqs.Keys)
    ensures Inserted(c, k, v).Some?
    ensures var counted := Counted(Inserted(c, k, v).value, order);
      Small(counted.(minFreq := Min(counted.minFreq, 1)), Tallied(Entered(a, k, v), order), n + 1)
  {
    hide Splits, AgedIndex, ScannedMin, Average, Entered, Inserted, Counted, Tallied, Enumerates;
    InsertedMirrors(c, a, k, v);
    EnteredSmall(a, k, v, n);
    var b, a1 := Inserted(c, k, v).value, Entered(a, k, v);
    TallySmall(b, a1, order, n + 1);
    var counted, a2 := Counted(b, order), Tallied(a1, order);
    TalliedRange(a1, order);
    if Ages(a1) { LeastPositive(a2.counts, counted.minFreq); }
  }

  lemma {:induction false} EnteredSmall<K, V>(a: Ledger<K, V>, k: K, v: V, n: nat)
    requires Positive(a.counts) && forall x | x in a.counts :: a.counts[x] <= n
    ensures var e := Entered(a, k, v);
      && Positive(e.counts) && (forall x | x in e.counts :: e.counts[x] <= n + 1)
      && k in e.counts && e.counts[k] == 1 && e.recency != [] && e.maxAverage == a.maxAverage
  {
    hide FirstLeast, Without;
  }

  lemma {:induction false} TalliedRange<K, V>(a: Ledger<K, V>, order: seq<K>)
    ensures Tallied(a, order).maxAverage == a.maxAverage
  {}

  lemma {:induction false} StepSmall<K, V>(c: Cache<K, V>, a: Ledger<K, V>, op: Op<K, V>, n: nat)
    requires Small(c, a, n) && LegalStep(c, op) && n + 1 < INT8_MAX
    ensures Step(c, op).Some? && Small(Step(c, op).value, LedgerStep(a, op), n + 1)
  {
    hide AgedIndex, ScannedMin, Average, Counted, Tallied, Entered, Inserted;
    match op
    case Purge => assert Splits<K>(map[], [], map[]);
    case Get(k, order) =>
      if k in c.freqs { AccessSmall(c, a, k, order, n); }
    case Put(k, v, order) =>
      if c.capacity != 0 {
        if k in c.freqs {
          assert c.values[k := v].Keys == c.values.Keys;
          AccessSmall(c.(values := c.values[k := v]), a.(values := a.values[k := v]), k, order, n);
        } else {
          InsertSmall(c, a, k, v, order, n);
        }
      }
  }

  lemma {:induction false} RunSmall<K, V>(capacity: int, m: int, ops: seq<Op<K, V>>)
    requires -1 <= m <= 1 && |ops| < INT8_MAX && Legal(New<K, V>(capacity, m), ops)
    ensures Run(New<K, V>(capacity, m), ops).Some?
    ensures Small(Run(New<K, V>(capacity, m), ops).value, LedgerRun(EmptyLedger<K, V>(capacity, m), ops), |ops|)
    decreases |ops|
  {
    hide Step, LedgerStep, LegalStep;
    if ops != [] {
      var before := ops[..|ops| - 1];
      RunSmall(capacity, m, before);
      StepSmall(Run(New<K, V>(capacity, m), before).value, LedgerRun(EmptyLedger<K, V>(capacity, m), before), ops[|ops| - 1], |before|);
    }
  }

  /** Fewer calls than a wrong cached minimum takes. */
  lemma {:induction false} ShortEndsRight<K, V>(capacity: int, m: int, ops: seq<Op<K, V>>)
    requires !(2 <= m <= 250) && |ops| < WrongAfter(m) && Legal(New(capacity, m), ops)
    ensures EndsRight(capacity, m, ops)
  {
    if m > 250 {
      FewCalls(capacity, m, ops);
      GoodEndsRight(capacity, m, ops);
    } else if m >= -1 {
      RunSmall(capacity, m, ops);
      var c, a := Run(New(capacity, m), ops).value, LedgerRun(EmptyLedger(capacity, m), ops);
      SizeIsLength(a);
      LeastIsRight(c, a);
    } else {
      assert ops == [];
    }
  }

  /** Outside 2..250 the shortest run that ends with a wrong cached minimum has exactly
      WrongAfter(m) calls. */
  lemma {:induction false} ShortestWrongRun<K(!new), V(!new)>(capacity: int, m: int, k: K, v: V, n: nat)
    requires capacity != 0 && !(2 <= m <= 250)
    ensures RightUpTo<K, V>(capacity, m, n) <==> n < WrongAfter(m)
  {
    if n < WrongAfter(m) {
      forall ops: seq<Op<K, V>> | |ops| <= n && Legal(New(capacity, m), ops) ensures EndsRight(capacity, m, ops) {
        ShortEndsRight(capacity, m, ops);
      }
    } else {
      WrongOutsideRange<K, V>(capacity, m, k, v);
      FewerCallsRight<K, V>(capacity, m, WrongAfter(m), n);
    }
  }

  lemma {:induction false} FewerCallsRight<K(!new), V(!new)>(capacity: int, m: int, n: nat, more: nat)
    requires n <= more
    ensures RightUpTo<K, V>(capacity, m, more) ==> RightUpTo<K, V>(capacity, m, n)
  {}

  const INT_MAX := 0x7FFF_FFFF

  /** The same in the source's int: in runs of up to INT_MAX calls, in which the access counter
      cannot overflow, the cached minimum is right for maxAverageNum in 2..250 and for INT_MAX
      itself, which no average exceeds, and for no other. */
  lemma {:induction false} MinFreqExactInInt<K(!new), V(!new)>(capacity: int, m: int, k: K, v: V)
    requires capacity != 0 && m <= INT_MAX
    ensures RightUpTo<K, V>(capacity, m, INT_MAX) <==> 2 <= m <= 250 || m == INT_MAX
  {
    if 2 <= m <= 250 {
      RightInRange<K, V>(capacity, m);
      forall ops: seq<Op<K, V>> | |ops| <= INT_MAX && Legal(New(capacity, m), ops) ensures EndsRight(capacity, m, ops) {}
    } else {
      ShortestWrongRun<K, V>(capacity, m, k, v, INT_MAX);
    }
  }

  // ----- capacity -----

  lemma {:induction false} LedgerKeepsCapacity<K, V>(a: Ledger<K, V>, ops: seq<Op<K, V>>)
    ensures LedgerRun(a, ops).capacity == a.capacity && LedgerRun(a, ops).maxAverage == a.maxAverage
    decreases |ops|
  {
    if ops != [] { LedgerKeepsCapacity(a, ops[..|ops| - 1]); }
  }

  // ----- values -----

  /** The value of the last put of `k`. */
  ghost function LastPut<K, V>(ops: seq<Op<K, V>>, k: K): Option<V>
    decreases |ops|
  {
    if ops == [] then None
    else if ops[|ops| - 1].Put? && ops[|ops| - 1].key == k then Some(ops[|ops| - 1].val)
    else LastPut(ops[..|ops| - 1], k)
  }

  /** A resident key has the value last put, in every run and for every maxAverageNum. */
  lemma {:induction false} ResidentHasLastPut<K, V>(capacity: int, m: int, ops: seq<Op<K, V>>, k: K)
    requires Run(New(capacity, m), ops).Some?
    requires k in Run(New(capacity, m), ops).value.values
    ensures LastPut(ops, k) == Some(Run(New(capacity, m), ops).value.values[k])
    decreases |ops|
  {
    if ops != [] {
      var before, op := ops[..|ops| - 1], ops[|ops| - 1];
      var c := Run(New<K, V>(capacity, m), before).value;
      StepValues(c, op, k);
      RunKeepsCapacity(New<K, V>(capacity, m), before);
      if !(op.Put? && op.key == k && c.capacity != 0) {
        ResidentHasLastPut(capacity, m, before, k);
      }
      if capacity == 0 { NeverResident(capacity, m, ops); }
    }
  }

  lemma {:induction false} StepValues<K, V>(c: Cache<K, V>, op: Op<K, V>, k: K)
    requires Step(c, op).Some? && k in Step(c, op).value.values
    ensures op.Put? && op.key == k && c.capacity != 0 ==> Step(c, op).value.values[k] == op.val
    ensures !(op.Put? && op.key == k && c.capacity != 0) ==>
      k in c.values && Step(c, op).value.values[k] == c.values[k]
  {
    hide Counted, Relisted, Average;
    if BeforeCount(c, op).Some? && Counts(c, op) { CountedValues(BeforeCount(c, op).value, op.order); }
  }

  lemma {:induction false} CountedValues<K, V>(c: Cache<K, V>, order: seq<K>)
    ensures Counted(c, order).values == c.values
  {}

  lemma {:induction false} RunKeepsCapacity<K, V>(c: Cache<K, V>, ops: seq<Op<K, V>>)
    requires Run(c, ops).Some?
    ensures Run(c, ops).value.capacity == c.capacity
    decreases |ops|
  {
    if ops != [] { RunKeepsCapacity(c, ops[..|ops| - 1]); }
  }

  lemma {:induction false} NeverResident<K, V>(capacity: int, m: int, ops: seq<Op<K, V>>)
    requires capacity == 0 && Run(New<K, V>(capacity, m), ops).Some?
    ensures Run(New<K, V>(capacity, m), ops).value.values == map[]
    ensures Run(New<K, V>(capacity, m), ops).value.freqs == map[]
    decreases |ops|
  {
    if ops != [] {
      NeverResident(capacity, m, ops[..|ops| - 1]);
      RunKeepsCapacity(New<K, V>(capacity, m), ops[..|ops| - 1]);
    }
  }

  /** The access counter never exceeds the number of calls, so its 32-bit field
      cannot overflow in runs of fewer than 2^31 calls. */
  lemma {:induction false} TotalBoundedByCalls<K, V>(capacity: int, m: int, ops: seq<Op<K, V>>)
    requires InRange(capacity, m, ops) && Legal(New<K, V>(capacity, m), ops)
    ensures Run(New<K, V>(capacity, m), ops).Some?
    ensures 0 <= Run(New<K, V>(capacity, m), ops).value.total <= |ops|
  {
    RunGood(capacity, m, ops);
    SumNonNegative(LedgerRun(EmptyLedger(capacity, m), ops));
  }

  // ----- eviction -----

  /** The ledger of a run has the values and counts of the cache. */
  lemma {:induction false} LedgerAgrees<K, V>(capacity: int, m: int, ops: seq<Op<K, V>>)
    requires InRange(capacity, m, ops) && Legal(New(capacity, m), ops)
    ensures Run(New(capacity, m), ops).Some?
    ensures var c, a := Run(New(capacity, m), ops).value, LedgerRun(EmptyLedger(capacity, m), ops);
      && c.values == a.values && c.freqs == a.counts && a.values.Keys == a.counts.Keys
      && Enumerates(a.recency, a.counts.Keys) && |a.values| == |a.recency| && a.capacity == capacity
  {
    RunGood(capacity, m, ops);
    LedgerKeepsCapacity(EmptyLedger(capacity, m), ops);
    SizeIsLength(LedgerRun(EmptyLedger(capacity, m), ops));
  }

  lemma {:induction false} LegalPrefix<K, V>(c: Cache<K, V>, a: Ledger<K, V>, ops: seq<Op<K, V>>, op: Op<K, V>)
    requires Legal(c, ops + [op])
    ensures Legal(c, ops)
    ensures LedgerRun(a, ops + [op]) == LedgerStep(LedgerRun(a, ops), op)
  {
    assert (ops + [op])[..|ops + [op]| - 1] == ops;
  }

  /** `victim` is a key of least count, and every key before it in recency has a greater one. */
  ghost predicate OldestLeast<K>(rec: seq<K>, counts: map<K, int>, victim: K, at: nat) {
    && (forall k | k in rec :: k in counts)
    && at < |rec| && rec[at] == victim
    && (forall k | k in counts :: counts[victim] <= counts[k])
    && (forall i | 0 <= i < at :: counts[victim] < counts[rec[i]])
  }

  lemma {:induction false} EvictingStep<K, V>(a: Ledger<K, V>, op: Op<K, V>) returns (victim: K, at: nat)
    requires op.Put? && op.key !in a.counts && a.capacity != 0 && |a.values| == a.capacity
    requires a.recency != [] && Enumerates(a.recency, a.counts.Keys)
    ensures LedgerStep(a, op).values == (a.values - {victim})[op.key := op.val]
    ensures OldestLeast(a.recency, a.counts, victim, at)
  {
    victim := FirstLeast(a.recency, a.counts);
    var v := victim;
    at :| 0 <= at < |a.recency| && a.recency[at] == v &&
      forall j :: 0 <= j < at ==> a.counts[v] < a.counts[a.recency[j]];
  }

  /** A put of a new key on a full cache removes one key: one of least frequency, and
      among those the one that entered its list first. */
  lemma {:induction false} EvictsLeastFrequent<K, V>(capacity: int, m: int, ops: seq<Op<K, V>>, op: Op<K, V>,
                                                     c: Cache<K, V>) returns (victim: K, at: nat)
    requires InRange(capacity, m, ops) && capacity > 0 && Legal(New(capacity, m), ops + [op])
    requires Run(New(capacity, m), ops) == Some(c)
    requires op.Put? && op.key !in c.freqs && |c.values| == capacity
    ensures Run(New(capacity, m), ops + [op]).Some?
    ensures Run(New(capacity, m), ops + [op]).value.values == (c.values - {victim})[op.key := op.val]
    ensures OldestLeast(LedgerRun(EmptyLedger(capacity, m), ops).recency, c.freqs, victim, at)
  {
    hide Step, Good;
    LegalPrefix(New(capacity, m), EmptyLedger(capacity, m), ops, op);
    LedgerAgrees(capacity, m, ops);
    RunGood(capacity, m, ops);
    var a := LedgerRun(EmptyLedger<K, V>(capacity, m), ops);
    RunKeepsCapacity(New<K, V>(capacity, m), ops);
    InsertingStep(c, a, op);
    RunOne(New(capacity, m), ops, op);
    victim, at := EvictingStep(a, op);
  }

  lemma {:induction false} RunOne<K, V>(c: Cache<K, V>, ops: seq<Op<K, V>>, op: Op<K, V>)
    requires Run(c, ops).Some?
    ensures Run(c, ops + [op]) == Step(Run(c, ops).value, op)
  {
    assert (ops + [op])[..|ops + [op]| - 1] == ops;
  }

  /** A put of a new key leaves the ledger's values, whether or not it ages the keys. */
  lemma {:induction false} InsertingStep<K, V>(c: Cache<K, V>, a: Ledger<K, V>, op: Op<K, V>)
    requires Good(c, a) && op.Put? && op.key !in c.freqs && c.capacity != 0
    ensures Step(c, op).Some? && Step(c, op).value.values == LedgerStep(a, op).values
  {
    hide Counted, Inserted, Entered, Ages, Splits;
    InsertedMirrors(c, a, op.key, op.val);
    CountedValues(Inserted(c, op.key, op.val).value, op.order);
  }

  // ----- least recently used, where nothing ages -----

  /** The position of the last call with key `k`, or -1. */
  ghost function LastUse<K, V>(ops: seq<Op<K, V>>, k: K): int
    decreases |ops|
  {
    if ops == [] then -1
    else if !ops[|ops| - 1].Purge? && ops[|ops| - 1].key == k then |ops| - 1
    else LastUse(ops[..|ops| - 1], k)
  }

  ghost predicate ByUse<K, V>(s: seq<K>, ops: seq<Op<K, V>>) {
    forall i, j :: 0 <= i < j < |s| ==> LastUse(ops, s[i]) < LastUse(ops, s[j])
  }

  lemma {:induction false} LastUseBelow<K, V>(ops: seq<Op<K, V>>, k: K)
    ensures LastUse(ops, k) < |ops|
    decreases |ops|
  {
    if ops != [] { LastUseBelow(ops[..|ops| - 1], k); }
  }

  lemma {:induction false} WithoutByUse<K, V>(s: seq<K>, k: K, ops: seq<Op<K, V>>)
    requires ByUse(s, ops)
    ensures ByUse(Without(s, k), ops)
  {
    if s != [] {
      WithoutByUse(s[1..], k, ops);
      WithoutMembers(s[1..], k);
      var rest := Without(s[1..], k);
      if s[0] != k {
        forall j | 0 <= j < |rest| ensures LastUse(ops, s[0]) < LastUse(ops, rest[j]) {
          assert rest[j] in s[1..];
        }
      }
    }
  }

  /** Keys other than that of the last call keep their order; that key goes last. */
  lemma {:induction false} UseGoesLast<K, V>(s: seq<K>, ops: seq<Op<K, V>>, k: K)
    requires ops != [] && !ops[|ops| - 1].Purge? && ops[|ops| - 1].key == k
    requires ByUse(s, ops[..|ops| - 1])
    ensures ByUse(Without(s, k), ops)
    ensures ByUse(Without(s, k) + [k], ops)
  {
    var rest := Without(s, k);
    WithoutByUse(s, k, ops[..|ops| - 1]);
    WithoutMembers(s, k);
    forall i | 0 <= i < |rest|
      ensures LastUse(ops, rest[i]) == LastUse(ops[..|ops| - 1], rest[i]) < |ops| - 1
    {
      assert rest[i] in rest;
      LastUseBelow(ops[..|ops| - 1], rest[i]);
    }
  }

  lemma {:induction false} StepByUse<K, V>(a: Ledger<K, V>, ops: seq<Op<K, V>>)
    requires ops != [] && Enumerates(a.recency, a.counts.Keys)
    requires ByUse(a.recency, ops[..|ops| - 1])
    requires Accesses(a, ops[|ops| - 1]) ==> !Ages(BeforeTally(a, ops[|ops| - 1]))
    requires ops[|ops| - 1].Put? ==> a.capacity != 0
    ensures ByUse(LedgerStep(a, ops[|ops| - 1]).recency, ops)
  {
    var op := ops[|ops| - 1];
    match op
    case Purge =>
    case Get(k, _) =>
      UseGoesLast(a.recency, ops, k);
      if k !in a.counts { WithoutAbsent(a.recency, k); }
    case Put(k, v, _) =>
      if k in a.counts {
        UseGoesLast(a.recency, ops, k);
      } else {
        var r := Room(a);
        if |a.values| == a.capacity && a.recency != [] {
          var x := FirstLeast(a.recency, a.counts);
          WithoutByUse(a.recency, x, ops[..|ops| - 1]);
          WithoutMembers(a.recency, x);
        }
        UseGoesLast(r.recency, ops, k);
        WithoutAbsent(r.recency, k);
      }
  }

  lemma {:induction false} RecencyByUse<K, V>(capacity: int, m: int, ops: seq<Op<K, V>>)
    requires InRange(capacity, m, ops) && capacity != 0 && Legal(New(capacity, m), ops)
    requires NothingAges(EmptyLedger(capacity, m), ops)
    ensures ByUse(LedgerRun(EmptyLedger(capacity, m), ops).recency, ops)
    decreases |ops|
  {
    if ops != [] {
      var before := ops[..|ops| - 1];
      RecencyByUse(capacity, m, before);
      RunGood(capacity, m, before);
      LedgerKeepsCapacity(EmptyLedger<K, V>(capacity, m), before);
      StepByUse(LedgerRun(EmptyLedger(capacity, m), before), ops);
    }
  }

  lemma {:induction false} OldestIsLeastRecent<K, V>(rec: seq<K>, counts: map<K, int>, ops: seq<Op<K, V>>, v: K, at: nat, k: K)
    requires OldestLeast(rec, counts, v, at) && ByUse(rec, ops) && k in rec && k != v
    ensures counts[v] < counts[k] || (counts[v] == counts[k] && LastUse(ops, v) < LastUse(ops, k))
  {
    var i :| 0 <= i < |rec| && rec[i] == k;
  }

  /** In a run in which nothing ages, the victim is the least recently used of the
      least frequently used keys. */
  lemma {:induction false} EvictsLeastRecent<K, V>(capacity: int, m: int, ops: seq<Op<K, V>>, op: Op<K, V>,
                                                   c: Cache<K, V>) returns (victim: K)
    requires InRange(capacity, m, ops) && capacity > 0 && Legal(New(capacity, m), ops + [op])
    requires NothingAges(EmptyLedger(capacity, m), ops)
    requires Run(New(capacity, m), ops) == Some(c)
    requires op.Put? && op.key !in c.freqs && |c.values| == capacity
    ensures Run(New(capacity, m), ops + [op]).Some?
    ensures Run(New(capacity, m), ops + [op]).value.values == (c.values - {victim})[op.key := op.val]
    ensures victim in c.freqs
    ensures forall k | k in c.freqs && k != victim ::
      c.freqs[victim] < c.freqs[k] || (c.freqs[victim] == c.freqs[k] && LastUse(ops, victim) < LastUse(ops, k))
  {
    var at;
    victim, at := EvictsLeastFrequent(capacity, m, ops, op, c);
    LegalPrefix(New(capacity, m), EmptyLedger(capacity, m), ops, op);
    RecencyByUse(capacity, m, ops);
    LedgerAgrees(capacity, m, ops);
    var rec, v := LedgerRun(EmptyLedger<K, V>(capacity, m), ops).recency, victim;
    forall k | k in c.freqs && k != v
      ensures c.freqs[v] < c.freqs[k] || (c.freqs[v] == c.freqs[k] && LastUse(ops, v) < LastUse(ops, k))
    {
      OldestIsLeastRecent(rec, c.freqs, ops, v, at, k);
    }
  }
}
