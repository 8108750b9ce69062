/** The two indexes of the LFU cache agree in every run, whatever maxAverageNum is and
    whether or not the cached minimum is right. */
module LfuCoherence {
  import opened Basics
  import opened LfuModel
  import opened LfuLedger
  import opened LfuRefinement

  /** The key map and the lists agree; `rec` orders the keys as the lists do. */
  ghost predicate Coherent<K, V>(c: Cache<K, V>, rec: seq<K>) {
    && c.values.Keys == c.freqs.Keys
    && Enumerates(rec, c.freqs.Keys)
    && Splits(c.lists, rec, c.freqs)
  }

  ghost predicate Fits<K, V>(c: Cache<K, V>) { c.capacity > 0 ==> |c.values| <= c.capacity }

  // ----- one call -----

  lemma {:induction false} TouchedCoherent<K, V>(c: Cache<K, V>, rec: seq<K>, k: K)
    requires Coherent(c, rec) && k in c.freqs
    ensures Coherent(Touched(c, k), Without(rec, k) + [k])
    ensures Touched(c, k).values == c.values && Touched(c, k).freqs.Keys == c.freqs.Keys
  {
    hide Splits, Relisted;
    MoveSplits(c.lists, rec, c.freqs, k, c.freqs[k] + 1);
    MovedEnumerates(rec, c.freqs.Keys, k);
    assert Touched(c, k).freqs.Keys == c.freqs.Keys;
  }

  /** The victim is the head of the list of the cached minimum, right or not. */
  lemma {:induction false} KickedCoherent<K, V>(c: Cache<K, V>, rec: seq<K>) returns (rest: seq<K>)
    requires Coherent(c, rec) && KickedOut(c).Some?
    ensures Coherent(KickedOut(c).value, rest)
    ensures |KickedOut(c).value.values| == |c.values| - 1 && KickedOut(c).value.freqs.Keys <= c.freqs.Keys
  {
    hide Splits;
    var k := ListAt(c.lists, c.minFreq)[0];
    DroppedSplits(c.lists, rec, c.freqs, k);
    DroppedSum(rec, c.freqs, k);
    rest := Without(rec, k);
    assert (c.values - {k}).Keys == (c.freqs - {k}).Keys == c.values.Keys - {k};
    assert |c.values - {k}| == |(c.values - {k}).Keys| && |c.values| == |c.values.Keys|;
  }

  lemma {:induction false} InsertedCoherent<K, V>(c: Cache<K, V>, rec: seq<K>, k: K, v: V) returns (rec': seq<K>)
    requires Coherent(c, rec) && Fits(c) && k !in c.freqs && Inserted(c, k, v).Some?
    ensures Coherent(Inserted(c, k, v).value, rec') && Fits(Inserted(c, k, v).value)
  {
    hide Splits, KickedOut, Enumerates;
    var r, rs := c, rec;
    if Full(c) {
      rs := KickedCoherent(c, rec);
      r := KickedOut(c).value;
      KickedKeeps(c);
    }
    AppendedSplits(r.lists, rs, r.freqs, k);
    AppendedSum(rs, r.freqs, k);
    rec' := rs + [k];
    assert r.values[k := v].Keys == r.freqs[k := 1].Keys == r.values.Keys + {k};
    assert |r.values[k := v]| == |r.values[k := v].Keys| && |r.values| == |r.values.Keys|;
  }

  lemma {:induction false} KickedKeeps<K, V>(c: Cache<K, V>)
    requires KickedOut(c).Some?
    ensures KickedOut(c).value.capacity == c.capacity
  {}

  lemma {:induction false} CountedCoherent<K, V>(c: Cache<K, V>, rec: seq<K>, order: seq<K>) returns (rec': seq<K>)
    requires Coherent(c, rec) && Enumerates(order, c.freqs.Keys)
    ensures Coherent(Counted(c, order), rec')
    ensures Counted(c, order).values == c.values && Counted(c, order).capacity == c.capacity
  {
    hide Splits, AgedIndex, ScannedMin, Average;
    rec' := rec;
    if Average(c.total + 1, |c.values|) > c.maxAverage && c.values != map[] {
      AgedMirrors(c.lists, rec, c.freqs, order, c.maxAverage);
      AgedCountsKeys(c.freqs, c.maxAverage);
      rec' := order;
    }
  }

  lemma {:induction false} StepCoherent<K, V>(c: Cache<K, V>, rec: seq<K>, op: Op<K, V>) returns (rec': seq<K>)
    requires Coherent(c, rec) && Fits(c) && LegalStep(c, op) && Step(c, op).Some?
    ensures Coherent(Step(c, op).value, rec') && Fits(Step(c, op).value)
  {
    hide Splits, Enumerates, Touched, Inserted, Counted;
    rec' := rec;
    if op.Purge? {
      rec' := [];
      NothingCoherent<K, V>(Step(c, op).value);
    } else if Counts(c, op) {
      if op.key in c.freqs {
        var c1 := if op.Put? then c.(values := c.values[op.key := op.val]) else c;
        assert c1.values.Keys == c.values.Keys;
        assert |c1.values| == |c1.values.Keys| == |c.values|;
        TouchedCoherent(c1, rec, op.key);
        TouchedKeeps(c1, op.key);
        rec' := Without(rec, op.key) + [op.key];
      } else {
        rec' := InsertedCoherent(c, rec, op.key, op.val);
      }
      rec' := CountedCoherent(BeforeCount(c, op).value, rec', op.order);
    }
  }

  lemma {:induction false} TouchedKeeps<K, V>(c: Cache<K, V>, k: K)
    requires k in c.freqs
    ensures Touched(c, k).capacity == c.capacity
  {}

  lemma {:induction false} NothingCoherent<K, V>(c: Cache<K, V>)
    requires c.values == map[] && c.freqs == map[] && c.lists == map[]
    ensures Coherent(c, []) && Fits(c)
  {}

  lemma {:induction false} RunCoherent<K, V>(capacity: int, m: int, ops: seq<Op<K, V>>) returns (rec: seq<K>)
    requires Legal(New<K, V>(capacity, m), ops) && Run(New<K, V>(capacity, m), ops).Some?
    ensures Coherent(Run(New<K, V>(capacity, m), ops).value, rec) && Fits(Run(New<K, V>(capacity, m), ops).value)
    ensures Run(New<K, V>(capacity, m), ops).value.capacity == capacity
    decreases |ops|
  {
    hide Coherent, Step, LegalStep;
    if ops == [] {
      rec := [];
      NothingCoherent(New<K, V>(capacity, m));
    } else {
      var before, op := ops[..|ops| - 1], ops[|ops| - 1];
      rec := RunCoherent(capacity, m, before);
      var c := Run(New<K, V>(capacity, m), before).value;
      StepKeepsCapacity(c, op);
      rec := StepCoherent(c, rec, op);
    }
  }

  lemma {:induction false} StepKeepsCapacity<K, V>(c: Cache<K, V>, op: Op<K, V>)
    requires Step(c, op).Some?
    ensures Step(c, op).value.capacity == c.capacity
  {
    hide Relisted, AgedIndex, ScannedMin, Average;
  }

  // ----- list lengths -----

  /** The lengths of the lists of the frequencies `fs`, added up. */
  ghost function Lengths<K>(lists: map<int, seq<K>>, fs: seq<int>): nat {
    if fs == [] then 0 else |ListAt(lists, fs[0])| + Lengths(lists, fs[1..])
  }

  ghost function Shares<K>(rec: seq<K>, counts: map<K, int>, fs: seq<int>): nat {
    if fs == [] then 0 else |WithCount(rec, counts, fs[0])| + Shares(rec, counts, fs[1..])
  }

  lemma {:induction false} LengthsAreShares<K>(lists: map<int, seq<K>>, rec: seq<K>, counts: map<K, int>, fs: seq<int>)
    requires Splits(lists, rec, counts)
    ensures Lengths(lists, fs) == Shares(rec, counts, fs)
  {
    if fs != [] {
      LengthsAreShares(lists, rec, counts, fs[1..]);
      assert ListAt(lists, fs[0]) == WithCount(rec, counts, fs[0]);
    }
  }

  /** One key more is one more in the list of its frequency and in no other. */
  lemma {:induction false} ShareOfOne<K>(rec: seq<K>, counts: map<K, int>, fs: seq<int>)
    requires rec != [] && rec[0] in counts && NoDup(fs)
    ensures Shares(rec, counts, fs) == Shares(rec[1..], counts, fs) + (if counts[rec[0]] in fs then 1 else 0)
  {
    if fs != [] {
      assert fs == [fs[0]] + fs[1..];
      ShareOfOne(rec, counts, fs[1..]);
    }
  }

  lemma {:induction false} SharesTotal<K>(rec: seq<K>, counts: map<K, int>, fs: seq<int>)
    requires NoDup(fs) && forall k | k in rec :: k in counts && counts[k] in fs
    ensures Shares(rec, counts, fs) == |rec|
  {
    if rec == [] {
      NoShares(counts, fs);
    } else {
      assert rec == [rec[0]] + rec[1..];
      ShareOfOne(rec, counts, fs);
      SharesTotal(rec[1..], counts, fs);
    }
  }

  lemma {:induction false} NoShares<K>(counts: map<K, int>, fs: seq<int>)
    ensures Shares([], counts, fs) == 0
  {
    if fs != [] { NoShares(counts, fs[1..]); }
  }

  // ----- every run -----

  lemma {:induction false} WithCountNoDup<K>(s: seq<K>, counts: map<K, int>, f: int)
    requires NoDup(s)
    ensures NoDup(WithCount(s, counts, f))
  {
    if s != [] {
      WithCountNoDup(s[1..], counts, f);
      WithCountMembers(s[1..], counts, f);
      var rest := WithCount(s[1..], counts, f);
      assert ([s[0]] + rest)[1..] == rest;
    }
  }

  /** In every state that a run without a fault reaches, for every maxAverageNum: each resident
      key is in the list of its frequency, once, and in no other list; the lengths of the lists
      add up to the number of keys; and the capacity is respected. */
  lemma {:induction false} IndexCoherent<K, V>(capacity: int, m: int, ops: seq<Op<K, V>>)
    requires Legal(New(capacity, m), ops) && Run(New(capacity, m), ops).Some?
    ensures var c := Run(New(capacity, m), ops).value;
      && c.values.Keys == c.freqs.Keys
      && (forall f, k | k in ListAt(c.lists, f) :: k in c.freqs && c.freqs[k] == f)
      && (forall k | k in c.freqs :: k in ListAt(c.lists, c.freqs[k]))
      && (forall f :: NoDup(ListAt(c.lists, f)))
      && (forall fs | Enumerates(fs, c.lists.Keys) :: Lengths(c.lists, fs) == |c.values|)
      && (capacity > 0 ==> |c.values| <= capacity)
  {
    hide Run, Legal, New;
    var rec := RunCoherent(capacity, m, ops);
    var c := Run(New(capacity, m), ops).value;
    forall f
      ensures NoDup(ListAt(c.lists, f))
      ensures forall k | k in ListAt(c.lists, f) :: k in c.freqs && c.freqs[k] == f
      ensures forall k | k in c.freqs && c.freqs[k] == f :: k in ListAt(c.lists, f)
    {
      assert ListAt(c.lists, f) == WithCount(rec, c.freqs, f);
      WithCountMembers(rec, c.freqs, f);
      WithCountNoDup(rec, c.freqs, f);
    }
    forall fs | Enumerates(fs, c.lists.Keys) ensures Lengths(c.lists, fs) == |c.values| {
      CoherentLengths(c, rec, fs);
    }
  }

  lemma {:induction false} CoherentLengths<K, V>(c: Cache<K, V>, rec: seq<K>, fs: seq<int>)
    requires Coherent(c, rec) && Enumerates(fs, c.lists.Keys)
    requires forall k | k in c.freqs :: k in ListAt(c.lists, c.freqs[k])
    ensures Lengths(c.lists, fs) == |c.values|
  {
    LengthsAreShares(c.lists, rec, c.freqs, fs);
    SharesTotal(rec, c.freqs, fs);
    EnumerationLength(rec, c.freqs.Keys);
    assert |c.values| == |c.values.Keys|;
  }
}
