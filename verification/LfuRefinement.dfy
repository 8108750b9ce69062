/** Every run of the LFU cache with maxAverageNum in 2..250, and every run in which nothing
    ages, refines the ledger and keeps the cached minimum right. */
module LfuRefinement {
  import opened Basics
  import opened LfuModel
  import opened LfuLedger

  // ----- the ageing pass -----

  ghost function PartlyAged<K>(counts: map<K, int>, order: seq<K>, maxAverage: int): map<K, int> {
    map k | k in counts :: if k in order then AgedFreq(maxAverage, counts[k]) else counts[k]
  }

  lemma {:induction false} WithoutConcat<K>(s: seq<K>, t: seq<K>, k: K)
    requires k !in t
    ensures Without(s + t, k) == Without(s, k) + t
  {
    if s == [] {
      assert s + t == t;
      WithoutAbsent(t, k);
    } else {
      assert (s + t)[1..] == s[1..] + t;
      WithoutConcat(s[1..], t, k);
    }
  }

  lemma {:induction false} AgedOne<K>(counts: map<K, int>, order: seq<K>, maxAverage: int)
    requires order != [] && order[0] in counts && order[0] !in order[1..]
    ensures PartlyAged(counts[order[0] := AgedFreq(maxAverage, counts[order[0]])], order[1..], maxAverage)
         == PartlyAged(counts, order, maxAverage)
  {
    assert order == [order[0]] + order[1..];
  }

  /** Visiting `k`: it leaves the keys to come and goes behind those already visited. */
  lemma {:induction false} VisitOne<K>(x: Index<K>, k: K, f: int, todo: seq<K>, done: seq<K>)
    requires Splits(x.lists, todo + done, x.freqs)
    requires Enumerates(todo + done, x.freqs.Keys)
    requires k in todo
    ensures k in x.freqs
    ensures Splits(Reindexed(x, k, f).lists, Without(todo, k) + (done + [k]), x.freqs[k := f])
    ensures Enumerates(Without(todo, k) + (done + [k]), x.freqs[k := f].Keys)
  {
    assert k in todo + done;
    NoDupConcat(todo, done);
    WithoutConcat(todo, done, k);
    assert Without(todo, k) + (done + [k]) == Without(todo + done, k) + [k];
    assert x.freqs[k := f].Keys == x.freqs.Keys;
    MoveSplits(x.lists, todo + done, x.freqs, k, f);
    MovedEnumerates(todo + done, x.freqs.Keys, k);
  }

  lemma {:induction false} AgedFreqs<K>(x: Index<K>, order: seq<K>, m: int)
    requires NoDup(order)
    requires forall k | k in order :: k in x.freqs
    ensures AgedIndex(x, order, m).freqs == PartlyAged(x.freqs, order, m)
    decreases |order|
  {
    if order == [] {
    } else {
      var k, rest := order[0], order[1..];
      assert order == [k] + rest;
      AgedFreqs(Reindexed(x, k, AgedFreq(m, x.freqs[k])), rest, m);
      AgedOne(x.freqs, order, m);
    }
  }

  lemma {:induction false} RestOfPass<K>(order: seq<K>, todo: seq<K>)
    requires NoDup(order) && order != []
    requires forall k | k in order :: k in todo
    requires forall k | k in todo :: k in order
    ensures NoDup(order[1..])
    ensures forall k | k in order[1..] :: k in Without(todo, order[0])
    ensures forall k | k in Without(todo, order[0]) :: k in order[1..]
  {
    assert order == [order[0]] + order[1..];
    WithoutMembers(todo, order[0]);
  }

  /** The pass over the key map: keys already visited sit behind the others, in
      the order of the visit, under their aged frequency. */
  lemma {:induction false} AgedSplits<K>(x: Index<K>, order: seq<K>, m: int, todo: seq<K>, done: seq<K>)
    requires Splits(x.lists, todo + done, x.freqs)
    requires Enumerates(todo + done, x.freqs.Keys)
    requires NoDup(order)
    requires forall k | k in order :: k in todo
    requires forall k | k in todo :: k in order
    ensures Splits(AgedIndex(x, order, m).lists, done + order, AgedIndex(x, order, m).freqs)
    decreases |order|
  {
    hide Splits, Without;
    if order == [] {
      NoMembers(todo);
      assert todo + done == done + order;
    } else {
      var k, rest := order[0], order[1..];
      RestOfPass(order, todo);
      assert k in order && k in todo;
      VisitOne(x, k, AgedFreq(m, x.freqs[k]), todo, done);
      AgedSplits(Reindexed(x, k, AgedFreq(m, x.freqs[k])), rest, m, Without(todo, k), done + [k]);
      assert done + [k] + rest == done + order;
    }
  }

  lemma {:induction false} AgedMirrors<K>(lists: map<int, seq<K>>, rec: seq<K>, counts: map<K, int>, order: seq<K>, m: int)
    requires Splits(lists, rec, counts)
    requires Enumerates(rec, counts.Keys) && Enumerates(order, counts.Keys)
    ensures AgedIndex(Index(counts, lists), order, m).freqs == AgedCounts(counts, m)
    ensures Splits(AgedIndex(Index(counts, lists), order, m).lists, order, AgedCounts(counts, m))
  {
    assert rec + [] == rec && [] + order == order;
    AgedSplits(Index(counts, lists), order, m, rec, []);
    AgedFreqs(Index(counts, lists), order, m);
    assert PartlyAged(counts, order, m) == AgedCounts(counts, m);
  }

  // ----- the bounds -----

  ghost function Sum<K, V>(a: Ledger<K, V>): int { SumOver(a.recency, a.counts) }

  ghost predicate Positive<K>(counts: map<K, int>) { forall k | k in counts :: counts[k] >= 1 }

  /** The two inductive bounds that keep the least frequency below the sentinel. */
  ghost predicate Bounded<K, V>(a: Ledger<K, V>) {
    && Positive(a.counts)
    && Sum(a) <= a.total
    && (a.recency != [] ==> Sum(a) <= (a.maxAverage + 1) * |a.recency| - 1)
  }

  lemma {:induction false} QuotientBound(total: int, size: nat, m: nat)
    requires total >= 0 && size > 0
    ensures total / size <= m <==> total <= (m + 1) * size - 1
  {
    var q := total / size;
    assert total == q * size + total % size;
    if q <= m {
      assert q * size <= m * size;
      assert (m + 1) * size == m * size + size;
    } else {
      assert (m + 1) * size <= q * size;
    }
  }

  lemma {:induction false} SumNonNegative<K, V>(a: Ledger<K, V>)
    requires Enumerates(a.recency, a.counts.Keys) && Positive(a.counts)
    ensures Sum(a) >= |a.recency|
  {
    SumOverAtLeast(a.recency, a.counts, 1);
  }

  /** Before ageing, a mean frequency of at most maxAverage + 1 leaves one key
      that ages to less than the sentinel. */
  lemma {:induction false} SomeKeyAgesBelowSentinel<K>(rec: seq<K>, counts: map<K, int>, m: int)
    requires rec != [] && forall x | x in rec :: x in counts
    requires 2 <= m <= 250
    requires SumOver(rec, counts) <= (m + 1) * |rec|
    ensures exists k :: k in rec && AgedFreq(m, counts[k]) < INT8_MAX
  {
    if forall k | k in rec :: AgedFreq(m, counts[k]) >= INT8_MAX {
      SumOverAtLeast(rec, counts, 127 + m / 2);
      MulStrict(m + 1, 127 + m / 2, |rec|);
    }
  }

  lemma {:induction false} MulStrict(a: int, b: int, n: int)
    requires a < b && n > 0
    ensures a * n < b * n
  {}

  lemma {:induction false} OccupiedMembers<K>(lists: map<int, seq<K>>, rec: seq<K>, counts: map<K, int>, f: int)
    requires Splits(lists, rec, counts) && Enumerates(rec, counts.Keys)
    ensures f in Occupied(lists) <==> exists k :: k in counts && counts[k] == f
  {
    WithCountMembers(rec, counts, f);
    assert ListAt(lists, f) == WithCount(rec, counts, f);
    if f in Occupied(lists) {
      assert ListAt(lists, f)[0] in ListAt(lists, f);
    }
  }

  /** The scan finds the least frequency when some frequency is below the sentinel. */
  lemma {:induction false} ScanFindsLeast<K>(lists: map<int, seq<K>>, rec: seq<K>, counts: map<K, int>, k: K)
    requires Splits(lists, rec, counts) && Enumerates(rec, counts.Keys)
    requires k in counts && counts[k] < INT8_MAX
    ensures LeastCount(counts, ScannedMin(lists))
  {
    var below := set f | f in Occupied(lists) && f < INT8_MAX;
    OccupiedMembers(lists, rec, counts, counts[k]);
    assert counts[k] in below;
    var m := LeastOf(below);
    OccupiedMembers(lists, rec, counts, m);
    forall x | x in counts ensures m <= counts[x] {
      OccupiedMembers(lists, rec, counts, counts[x]);
      if counts[x] < INT8_MAX { assert counts[x] in below; }
    }
  }

  ghost predicate LeastCount<K>(counts: map<K, int>, m: int) {
    && (exists k :: k in counts && counts[k] == m)
    && (forall k :: k in counts ==> m <= counts[k])
  }

  lemma {:induction false} LeastIsRight<K, V>(c: Cache<K, V>, a: Ledger<K, V>)
    requires Mirrors(c, a)
    ensures MinFreqRight(c) <==> (c.values != map[] ==> LeastCount(a.counts, c.minFreq))
  {
    if c.values != map[] && LeastCount(a.counts, c.minFreq) {
      OccupiedMembers(c.lists, a.recency, a.counts, c.minFreq);
    }
  }

  // ----- counting an access -----

  /** What holds when an access reaches addFreqNum: the sums are at most one over
      their bounds, and where the second bound is used up some key will drop. */
  ghost predicate Tallyable<K, V>(a: Ledger<K, V>, order: seq<K>, k: K) {
    && a.recency != []
    && Enumerates(a.recency, a.counts.Keys)
    && Enumerates(order, a.counts.Keys)
    && a.values.Keys == a.counts.Keys
    && Positive(a.counts)
    && Sum(a) <= a.total + 1
    && Sum(a) <= (a.maxAverage + 1) * |a.recency|
    && k in a.counts
    && (a.counts[k] >= 2 || Sum(a) <= (a.maxAverage + 1) * |a.recency| - 1)
  }

  lemma {:induction false} SizeIsLength<K, V>(a: Ledger<K, V>)
    requires Enumerates(a.recency, a.counts.Keys) && a.values.Keys == a.counts.Keys
    ensures |a.values| == |a.recency|
    ensures a.values == map[] <==> a.recency == []
  {
    EnumerationLength(a.recency, a.values.Keys);
    NoMembers(a.recency);
    assert |a.values| == |a.values.Keys|;
  }

  lemma {:induction false} AgeingLowersSum<K>(rec: seq<K>, order: seq<K>, counts: map<K, int>, m: int, k: K)
    requires Enumerates(rec, counts.Keys) && Enumerates(order, counts.Keys)
    requires Positive(counts) && m >= 2 && k in counts
    ensures SumOver(order, AgedCounts(counts, m)) <= SumOver(rec, counts)
    ensures counts[k] >= 2 ==> SumOver(order, AgedCounts(counts, m)) < SumOver(rec, counts)
    ensures |order| == |rec|
  {
    var aged := AgedCounts(counts, m);
    SumOverReordered(order, rec, aged);
    SumOverMonotone(rec, aged, counts, k);
  }

  lemma {:induction false} TallyKeepsBound<K, V>(a: Ledger<K, V>, order: seq<K>, k: K)
    requires Tallyable(a, order, k) && a.maxAverage >= 1 && (Ages(a) ==> a.maxAverage >= 2)
    ensures Bounded(Tallied(a, order))
  {
    hide Enumerates, Average;
    if Ages(a) {
      AgeingLowersSum(a.recency, order, a.counts, a.maxAverage, k);
      assert Sum(Tallied(a, order)) <= (a.maxAverage + 1) * |a.recency| - 1;
    } else {
      PlainTallyBound(a, order, k);
    }
  }

  lemma {:induction false} PlainTallyBound<K, V>(a: Ledger<K, V>, order: seq<K>, k: K)
    requires Tallyable(a, order, k) && a.maxAverage >= 1 && !Ages(a)
    ensures Sum(a) <= (a.maxAverage + 1) * |a.recency| - 1
  {
    hide Enumerates, Positive;
    SizeIsLength(a);
    SumNonNegative(a);
    QuotientBound(a.total + 1, |a.recency|, a.maxAverage);
  }

  lemma {:induction false} AgedCountsKeys<K>(counts: map<K, int>, m: int)
    ensures AgedCounts(counts, m).Keys == counts.Keys
  {}

  lemma {:induction false} AgeingTallyMirrors<K, V>(c: Cache<K, V>, a: Ledger<K, V>, order: seq<K>)
    requires Mirrors(c, a) && Enumerates(order, a.counts.Keys) && Ages(a)
    ensures Mirrors(Counted(c, order), Tallied(a, order))
    ensures Counted(c, order).minFreq == ScannedMin(Counted(c, order).lists)
  {
    AgedMirrors(c.lists, a.recency, a.counts, order, a.maxAverage);
    AgedCountsKeys(a.counts, a.maxAverage);
  }

  lemma {:induction false} TallyMirrors<K, V>(c: Cache<K, V>, a: Ledger<K, V>, order: seq<K>)
    requires Mirrors(c, a) && Enumerates(order, a.counts.Keys)
    ensures Mirrors(Counted(c, order), Tallied(a, order))
    ensures !Ages(a) ==> Counted(c, order).minFreq == c.minFreq
    ensures Ages(a) ==> Counted(c, order).minFreq == ScannedMin(Counted(c, order).lists)
  {
    if Ages(a) {
      AgeingTallyMirrors(c, a, order);
    }
  }

  /** After an ageing pass the scan has the least count. */
  lemma {:induction false} TallyScans<K, V>(c: Cache<K, V>, a: Ledger<K, V>, order: seq<K>, k: K)
    requires Mirrors(c, a) && Tallyable(a, order, k) && Ages(a)
    requires 2 <= a.maxAverage <= 250
    ensures LeastCount(Tallied(a, order).counts, Counted(c, order).minFreq)
  {
    TallyMirrors(c, a, order);
    SomeKeyAgesBelowSentinel(a.recency, a.counts, a.maxAverage);
    var x :| x in a.recency && AgedFreq(a.maxAverage, a.counts[x]) < INT8_MAX;
    ScanFindsLeast(Counted(c, order).lists, order, AgedCounts(a.counts, a.maxAverage), x);
  }

  // ----- one call -----

  /** The invariant of every run in range. */
  ghost predicate Good<K, V>(c: Cache<K, V>, a: Ledger<K, V>) {
    && Mirrors(c, a)
    && Bounded(a)
    && a.maxAverage >= 1
    && c.minFreq >= 1
    && (a.recency != [] ==> LeastCount(a.counts, c.minFreq))
    && (a.capacity > 0 ==> |a.recency| <= a.capacity)
  }

  lemma {:induction false} MovedSum<K>(rec: seq<K>, counts: map<K, int>, k: K, f: int)
    requires Enumerates(rec, counts.Keys) && k in counts
    ensures SumOver(Without(rec, k) + [k], counts[k := f]) == SumOver(rec, counts) - counts[k] + f
    ensures |Without(rec, k) + [k]| == |rec|
  {
    var rest := Without(rec, k);
    WithoutMembers(rec, k);
    WithoutLength(rec, k);
    SumOverWithout(rec, k, counts);
    SumOverConcat(rest, [k], counts[k := f]);
    SumOverSame(rest, counts, counts[k := f]);
  }

  lemma {:induction false} TouchMin<K>(rec: seq<K>, counts: map<K, int>, k: K, minFreq: int)
    requires Enumerates(rec, counts.Keys) && k in counts && LeastCount(counts, minFreq)
    ensures var counts' := counts[k := counts[k] + 1];
      var left := Without(WithCount(rec, counts, counts[k]), k);
      LeastCount(counts', if counts[k] == minFreq && left == [] then minFreq + 1 else minFreq)
  {
    var f := counts[k];
    var counts' := counts[k := f + 1];
    var left := Without(WithCount(rec, counts, f), k);
    WithoutMembers(WithCount(rec, counts, f), k);
    WithCountMembers(rec, counts, f);
    NoMembers(left);
    if f == minFreq && left == [] {
      assert counts'[k] == minFreq + 1;
    } else if f == minFreq {
      var x :| x in left;
      assert counts'[x] == minFreq;
    } else {
      var x :| x in counts && counts[x] == minFreq;
      assert counts'[x] == minFreq;
    }
  }

  lemma {:induction false} TouchedMirrors<K, V>(c: Cache<K, V>, a: Ledger<K, V>, k: K)
    requires Mirrors(c, a) && k in c.freqs
    ensures Mirrors(Touched(c, k), Bumped(a, k))
  {
    hide Splits, Enumerates, Relisted;
    MoveMirrors(c, a, k, c.freqs[k] + 1);
  }

  lemma {:induction false} TouchedLeast<K, V>(c: Cache<K, V>, a: Ledger<K, V>, k: K)
    requires Mirrors(c, a) && k in c.freqs && LeastCount(a.counts, c.minFreq)
    ensures LeastCount(Bumped(a, k).counts, Touched(c, k).minFreq)
  {
    var f := a.counts[k];
    TouchMin(a.recency, a.counts, k, c.minFreq);
    assert ListAt(c.lists, f) == WithCount(a.recency, a.counts, f);
    assert ListAt(Relisted(c.lists, k, f, f + 1), f) == Without(ListAt(c.lists, f), k);
  }

  lemma {:induction false} BumpedTallyable<K, V>(a: Ledger<K, V>, k: K, order: seq<K>)
    requires a.recency != [] && Enumerates(a.recency, a.counts.Keys) && a.values.Keys == a.counts.Keys
    requires Bounded(a) && k in a.counts && Enumerates(order, a.counts.Keys)
    ensures Tallyable(Bumped(a, k), order, k)
    ensures |Bumped(a, k).recency| == |a.recency|
  {
    hide SumOver, Without, Enumerates;
    MovedSum(a.recency, a.counts, k, a.counts[k] + 1);
    MovedEnumerates(a.recency, a.counts.Keys, k);
    assert Bumped(a, k).counts.Keys == a.counts.Keys;
  }

  /** The common end of every access: tally, and age if the average is too high. */
  lemma {:induction false} TallyGood<K, V>(c: Cache<K, V>, a: Ledger<K, V>, order: seq<K>, k: K)
    requires Mirrors(c, a) && Tallyable(a, order, k) && a.maxAverage >= 1 && (Ages(a) ==> 2 <= a.maxAverage <= 250)
    requires a.capacity > 0 ==> |a.recency| <= a.capacity
    ensures Mirrors(Counted(c, order), Tallied(a, order))
    ensures Bounded(Tallied(a, order))
    ensures Tallied(a, order).recency != []
    ensures a.capacity > 0 ==> |Tallied(a, order).recency| <= a.capacity
    ensures Ages(a) ==> LeastCount(Tallied(a, order).counts, Counted(c, order).minFreq)
    ensures !Ages(a) ==> Counted(c, order).minFreq == c.minFreq && Tallied(a, order).counts == a.counts
  {
    TallyMirrors(c, a, order);
    TallyKeepsBound(a, order, k);
    SumOverReordered(order, a.recency, a.counts);
    if Ages(a) {
      TallyScans(c, a, order, k);
    }
  }

  lemma {:induction false} LeastPositive<K>(counts: map<K, int>, m: int)
    requires Positive(counts) && LeastCount(counts, m)
    ensures m >= 1
  {}

  lemma {:induction false} AccessGood<K, V>(c: Cache<K, V>, a: Ledger<K, V>, k: K, order: seq<K>)
    requires Good(c, a) && k in c.freqs && Enumerates(order, c.freqs.Keys)
    requires Ages(Bumped(a, k)) ==> 2 <= a.maxAverage <= 250
    ensures Good(Counted(Touched(c, k), order), Tallied(Bumped(a, k), order))
  {
    assert k in a.recency;
    TouchedMirrors(c, a, k);
    TouchedLeast(c, a, k);
    BumpedTallyable(a, k, order);
    TallyGood(Touched(c, k), Bumped(a, k), order, k);
    LeastPositive(Tallied(Bumped(a, k), order).counts, Counted(Touched(c, k), order).minFreq);
  }

  // ----- eviction and insertion -----

  /** The head of the list of least frequency is the ledger's victim. */
  lemma {:induction false} HeadIsFirstLeast<K>(s: seq<K>, counts: map<K, int>, m: int)
    requires s != [] && forall x | x in s :: x in counts && m <= counts[x]
    requires exists x :: x in s && counts[x] == m
    ensures WithCount(s, counts, m) != [] && WithCount(s, counts, m)[0] == FirstLeast(s, counts)
  {
    assert s == [s[0]] + s[1..];
    if counts[s[0]] != m {
      HeadIsFirstLeast(s[1..], counts, m);
      WithCountMembers(s[1..], counts, m);
      assert WithCount(s[1..], counts, m)[0] in WithCount(s[1..], counts, m);
    }
  }

  lemma {:induction false} DroppedSplits<K>(lists: map<int, seq<K>>, rec: seq<K>, counts: map<K, int>, k: K)
    requires Splits(lists, rec, counts) && Enumerates(rec, counts.Keys) && k in counts
    ensures Splits(lists[counts[k] := Without(ListAt(lists, counts[k]), k)], Without(rec, k), counts - {k})
  {
    var lists' := lists[counts[k] := Without(ListAt(lists, counts[k]), k)];
    WithoutMembers(rec, k);
    forall g ensures ListAt(lists', g) == WithCount(Without(rec, k), counts - {k}, g) {
      MovedList(rec, counts, k, 0, g);
      WithCountWithout(rec, k, counts, g);
      WithCountSame(Without(rec, k), counts, counts - {k}, g);
      assert ListAt(lists, g) == WithCount(rec, counts, g);
    }
  }

  lemma {:induction false} DroppedSum<K>(rec: seq<K>, counts: map<K, int>, k: K)
    requires Enumerates(rec, counts.Keys) && k in counts
    ensures SumOver(Without(rec, k), counts - {k}) == SumOver(rec, counts) - counts[k]
    ensures |Without(rec, k)| == |rec| - 1
    ensures Enumerates(Without(rec, k), (counts - {k}).Keys)
  {
    WithoutMembers(rec, k);
    WithoutLength(rec, k);
    SumOverWithout(rec, k, counts);
    SumOverSame(Without(rec, k), counts, counts - {k});
    MovedEnumerates(rec, counts.Keys, k);
    assert (counts - {k}).Keys == counts.Keys - {k};
  }

  lemma {:induction false} VictimIsHead<K>(lists: map<int, seq<K>>, rec: seq<K>, counts: map<K, int>, minFreq: int)
    requires Splits(lists, rec, counts) && Enumerates(rec, counts.Keys)
    requires rec != [] && LeastCount(counts, minFreq)
    ensures ListAt(lists, minFreq) != [] && ListAt(lists, minFreq)[0] == FirstLeast(rec, counts)
  {
    var x :| x in counts && counts[x] == minFreq;
    assert x in rec;
    HeadIsFirstLeast(rec, counts, minFreq);
    assert ListAt(lists, minFreq) == WithCount(rec, counts, minFreq);
  }

  lemma {:induction false} KickMirrors<K, V>(c: Cache<K, V>, a: Ledger<K, V>)
    requires Mirrors(c, a) && a.recency != [] && LeastCount(a.counts, c.minFreq)
    ensures KickedOut(c).Some? && Mirrors(KickedOut(c).value, Evicted(a))
    ensures KickedOut(c).value.minFreq == c.minFreq
  {
    hide Splits, Enumerates, SumOver, FirstLeast, Average, LeastCount;
    EnumeratedCounts(a.recency, a.counts);
    VictimIsHead(c.lists, a.recency, a.counts, c.minFreq);
    var k := FirstLeast(a.recency, a.counts);
    DroppedSplits(c.lists, a.recency, a.counts, k);
    DroppedSum(a.recency, a.counts, k);
    assert (c.values - {k}).Keys == (c.freqs - {k}).Keys;
  }

  lemma {:induction false} AppendedSplits<K>(lists: map<int, seq<K>>, rec: seq<K>, counts: map<K, int>, k: K)
    requires Splits(lists, rec, counts) && Enumerates(rec, counts.Keys) && k !in counts
    ensures Splits(lists[1 := ListAt(lists, 1) + [k]], rec + [k], counts[k := 1])
  {
    var lists' := lists[1 := ListAt(lists, 1) + [k]];
    forall g ensures ListAt(lists', g) == WithCount(rec + [k], counts[k := 1], g) {
      WithCountConcat(rec, [k], counts[k := 1], g);
      WithCountSame(rec, counts, counts[k := 1], g);
      assert ListAt(lists, g) == WithCount(rec, counts, g);
    }
  }

  lemma {:induction false} AppendedSum<K>(rec: seq<K>, counts: map<K, int>, k: K)
    requires Enumerates(rec, counts.Keys) && k !in counts
    ensures SumOver(rec + [k], counts[k := 1]) == SumOver(rec, counts) + 1
    ensures Enumerates(rec + [k], counts[k := 1].Keys)
  {
    SumOverConcat(rec, [k], counts[k := 1]);
    SumOverSame(rec, counts, counts[k := 1]);
    NoDupConcat(rec, [k]);
  }

  ghost function Room<K, V>(a: Ledger<K, V>): Ledger<K, V> {
    if |a.values| == a.capacity then Evicted(a) else a
  }

  lemma {:induction false} InsertedMirrors<K, V>(c: Cache<K, V>, a: Ledger<K, V>, k: K, v: V)
    requires Mirrors(c, a) && k !in c.freqs && a.capacity != 0
    requires a.recency != [] ==> LeastCount(a.counts, c.minFreq)
    ensures Inserted(c, k, v).Some? && Mirrors(Inserted(c, k, v).value, Entered(a, k, v))
    ensures Inserted(c, k, v).value.minFreq == c.minFreq
  {
    SizeIsLength(a);
    var c1, a1 := c, a;
    if Full(c) {
      KickMirrors(c, a);
      c1, a1 := KickedOut(c).value, Evicted(a);
    }
    AppendedSplits(c1.lists, a1.recency, a1.counts, k);
    AppendedSum(a1.recency, a1.counts, k);
    assert c1.values[k := v].Keys == c1.freqs[k := 1].Keys;
  }

  /** After the capacity test there is room for one more key under every bound. */
  ghost predicate Roomy<K, V>(r: Ledger<K, V>) {
    && Enumerates(r.recency, r.counts.Keys) && r.values.Keys == r.counts.Keys
    && Positive(r.counts)
    && Sum(r) <= r.total
    && Sum(r) + 1 <= (r.maxAverage + 1) * (|r.recency| + 1) - 1
    && (r.capacity > 0 ==> |r.recency| < r.capacity)
  }

  lemma {:induction false} EnumeratedCounts<K>(rec: seq<K>, counts: map<K, int>)
    requires Enumerates(rec, counts.Keys)
    ensures forall x :: x in rec ==> x in counts
  {}

  lemma {:induction false} EvictedRoomy<K, V>(a: Ledger<K, V>)
    requires Enumerates(a.recency, a.counts.Keys) && a.values.Keys == a.counts.Keys
    requires Bounded(a) && a.recency != [] && a.maxAverage >= 1
    requires a.capacity > 0 ==> |a.recency| <= a.capacity
    ensures Roomy(Evicted(a)) && Evicted(a).counts.Keys <= a.counts.Keys
  {
    hide FirstLeast, Without, SumOver, Enumerates;
    EnumeratedCounts(a.recency, a.counts);
    var k := FirstLeast(a.recency, a.counts);
    DroppedSum(a.recency, a.counts, k);
    assert (a.values - {k}).Keys == (a.counts - {k}).Keys;
    var e := Evicted(a);
    assert Sum(e) == Sum(a) - a.counts[k] && |e.recency| + 1 == |a.recency|;
    assert (a.maxAverage + 1) * (|e.recency| + 1) == (a.maxAverage + 1) * |a.recency|;
  }

  lemma {:induction false} RoomBound<K, V>(a: Ledger<K, V>)
    requires Enumerates(a.recency, a.counts.Keys) && a.values.Keys == a.counts.Keys
    requires Bounded(a) && a.maxAverage >= 1 && a.capacity != 0
    requires a.capacity > 0 ==> |a.recency| <= a.capacity
    ensures Roomy(Room(a)) && Room(a).counts.Keys <= a.counts.Keys
  {
    SizeIsLength(a);
    if |a.values| == a.capacity {
      EvictedRoomy(a);
    } else {
      var m, n := a.maxAverage, |a.recency|;
      assert (m + 1) * (n + 1) == (m + 1) * n + (m + 1);
    }
  }

  lemma {:induction false} RoomKeeps<K, V>(a: Ledger<K, V>)
    ensures Room(a).maxAverage == a.maxAverage && Room(a).capacity == a.capacity
  {}

  lemma {:induction false} EnteredTallyable<K, V>(a: Ledger<K, V>, k: K, v: V, order: seq<K>)
    requires Enumerates(a.recency, a.counts.Keys) && a.values.Keys == a.counts.Keys
    requires Bounded(a) && a.maxAverage >= 1 && a.capacity != 0 && k !in a.counts
    requires a.capacity > 0 ==> |a.recency| <= a.capacity
    requires Enumerates(order, Entered(a, k, v).counts.Keys)
    ensures Tallyable(Entered(a, k, v), order, k)
    ensures a.capacity > 0 ==> |Entered(a, k, v).recency| <= a.capacity
    ensures Entered(a, k, v).counts[k] == 1
  {
    hide Evicted, SumOver, Enumerates;
    RoomBound(a);
    var r := Room(a);
    AppendedSum(r.recency, r.counts, k);
    RoomKeeps(a);
    assert r.values[k := v].Keys == r.counts[k := 1].Keys;
  }

  lemma {:induction false} InsertGood<K, V>(c: Cache<K, V>, a: Ledger<K, V>, k: K, v: V, order: seq<K>)
    requires Good(c, a) && k !in c.freqs && a.capacity != 0
    requires Ages(Entered(a, k, v)) ==> 2 <= a.maxAverage <= 250
    requires Inserted(c, k, v).Some? ==> Enumerates(order, Inserted(c, k, v).value.freqs.Keys)
    ensures Inserted(c, k, v).Some?
    ensures var counted := Counted(Inserted(c, k, v).value, order);
      Good(counted.(minFreq := Min(counted.minFreq, 1)), Tallied(Entered(a, k, v), order))
  {
    hide Splits, SumOver, Average, Enumerates, AgedIndex, ScannedMin;
    InsertedMirrors(c, a, k, v);
    EnteredTallyable(a, k, v, order);
    var b, a1 := Inserted(c, k, v).value, Entered(a, k, v);
    TallyGood(b, a1, order, k);
    var counted, a2 := Counted(b, order), Tallied(a1, order);
    assert k in a2.counts && a2.counts[k] == 1;
    if Ages(a1) {
      LeastPositive(a2.counts, counted.minFreq);
    }
  }

  /** The call ages the keys. */
  ghost predicate StepAges<K, V>(a: Ledger<K, V>, op: Op<K, V>) { Accesses(a, op) && Ages(BeforeTally(a, op)) }

  /** If the call ages the keys, it may. */
  ghost predicate Harmless<K, V>(a: Ledger<K, V>, op: Op<K, V>) { StepAges(a, op) ==> 2 <= a.maxAverage <= 250 }

  lemma {:induction false} PurgeGood<K, V>(c: Cache<K, V>, a: Ledger<K, V>)
    requires Good(c, a)
    ensures Good(Step(c, Purge).value, LedgerStep(a, Purge))
  {
    SumNonNegative(a);
    assert Splits<K>(map[], [], map[]);
  }

  lemma {:induction false} RevaluedGood<K, V>(c: Cache<K, V>, a: Ledger<K, V>, k: K, v: V)
    requires Good(c, a)
    ensures c.freqs == a.counts && c.capacity == a.capacity
    ensures k in c.freqs ==> Good(c.(values := c.values[k := v]), a.(values := a.values[k := v]))
  {
    hide Splits, Enumerates;
    if k in c.freqs { assert c.values[k := v].Keys == c.values.Keys; }
  }

  lemma {:induction false} PutGood<K, V>(c: Cache<K, V>, a: Ledger<K, V>, k: K, v: V, order: seq<K>)
    requires Good(c, a) && Harmless(a, Put(k, v, order)) && LegalStep(c, Put(k, v, order)) && c.capacity != 0
    ensures Step(c, Put(k, v, order)).Some?
    ensures Good(Step(c, Put(k, v, order)).value, LedgerStep(a, Put(k, v, order)))
  {
    hide Average, AgedIndex, ScannedMin, Good;
    RevaluedGood(c, a, k, v);
    if k in c.freqs {
      AccessGood(c.(values := c.values[k := v]), a.(values := a.values[k := v]), k, order);
    } else {
      InsertGood(c, a, k, v, order);
    }
  }

  /** Every call keeps the invariant, faults nowhere, and is the ledger's step. */
  lemma {:induction false} StepGood<K, V>(c: Cache<K, V>, a: Ledger<K, V>, op: Op<K, V>)
    requires Good(c, a) && Harmless(a, op) && LegalStep(c, op)
    ensures Step(c, op).Some? && Good(Step(c, op).value, LedgerStep(a, op))
  {
    match op
    case Purge => PurgeGood(c, a);
    case Get(k, order) =>
      if k in c.freqs { AccessGood(c, a, k, order); }
    case Put(k, v, order) =>
      if c.capacity != 0 { PutGood(c, a, k, v, order); }
  }

  lemma {:induction false} StepTotal<K, V>(a: Ledger<K, V>, op: Op<K, V>)
    requires Enumerates(a.recency, a.counts.Keys) && Positive(a.counts)
    ensures LedgerStep(a, op).total <= a.total + 1
    ensures BeforeTally(a, op).total <= a.total && LedgerStep(a, op).maxAverage == a.maxAverage
  {
    hide FirstLeast, Without, Ages, AgedCounts, Enumerates, Evicted;
    EnumeratedCounts(a.recency, a.counts);
    EvictedTotal(a);
  }

  lemma {:induction false} EvictedTotal<K, V>(a: Ledger<K, V>)
    requires Positive(a.counts)
    ensures Evicted(a).total <= a.total && Evicted(a).maxAverage == a.maxAverage
  {}

  lemma {:induction false} NewGood<K, V>(capacity: int, m: int)
    requires m >= 1
    ensures Good<K, V>(New(capacity, m), EmptyLedger(capacity, m))
  {}

  // ----- whole runs -----

  ghost predicate NothingAges<K, V>(a: Ledger<K, V>, ops: seq<Op<K, V>>)
    decreases |ops|
  {
    ops == [] || (NothingAges(a, ops[..|ops| - 1]) && !StepAges(LedgerRun(a, ops[..|ops| - 1]), ops[|ops| - 1]))
  }

  /** maxAverageNum is in 2..250, or nothing ages in this run. */
  ghost predicate InRange<K, V>(capacity: int, m: int, ops: seq<Op<K, V>>) {
    2 <= m <= 250 || (m >= 1 && NothingAges(EmptyLedger<K, V>(capacity, m), ops))
  }

  /** No run in range faults, and every run of the lists is the run of the ledger. */
  lemma {:induction false} RunGood<K, V>(capacity: int, m: int, ops: seq<Op<K, V>>)
    requires InRange(capacity, m, ops) && Legal(New(capacity, m), ops)
    ensures Run(New(capacity, m), ops).Some?
    ensures Good(Run(New(capacity, m), ops).value, LedgerRun(EmptyLedger(capacity, m), ops))
    ensures LedgerRun(EmptyLedger<K, V>(capacity, m), ops).total <= |ops|
    ensures LedgerRun(EmptyLedger<K, V>(capacity, m), ops).maxAverage == m
    decreases |ops|
  {
    if ops == [] {
      NewGood<K, V>(capacity, m);
    } else {
      var before := ops[..|ops| - 1];
      RunGood(capacity, m, before);
      StepTotal(LedgerRun(EmptyLedger(capacity, m), before), ops[|ops| - 1]);
      StepGood(Run(New(capacity, m), before).value, LedgerRun(EmptyLedger(capacity, m), before), ops[|ops| - 1]);
    }
  }
}
