/** The LFU cache as a plain ledger (value and count per key, keys by recency),
    and the proof that the list structure of LfuModel refines it. */
module LfuLedger {
  import opened Basics
  import opened LfuModel

  /** `recency` lists the resident keys by their last insertion into a list,
      oldest first. There is no cached minimum and there are no lists. */
  datatype Ledger<K, V> = Ledger(
    capacity: int,
    maxAverage: int,
    total: int,
    values: map<K, V>,
    counts: map<K, int>,
    recency: seq<K>)

  /** The keys of `s` whose count is `f`, in the order of `s`. */
  ghost function WithCount<K>(s: seq<K>, counts: map<K, int>, f: int): seq<K> {
    if s == [] then []
    else if s[0] in counts && counts[s[0]] == f then [s[0]] + WithCount(s[1..], counts, f)
    else WithCount(s[1..], counts, f)
  }

  ghost function SumOver<K>(s: seq<K>, counts: map<K, int>): int {
    if s == [] then 0
    else (if s[0] in counts then counts[s[0]] else 0) + SumOver(s[1..], counts)
  }

  // ----- Without, WithCount and SumOver -----

  lemma {:induction false} WithoutMembers<K>(s: seq<K>, k: K)
    ensures forall x | x in Without(s, k) :: x in s && x != k
    ensures forall x | x in s && x != k :: x in Without(s, k)
    ensures NoDup(s) ==> NoDup(Without(s, k))
  {
    if s != [] {
      WithoutMembers(s[1..], k);
      assert s == [s[0]] + s[1..];
      var rest := Without(s[1..], k);
      assert s[0] != k ==> ([s[0]] + rest)[1..] == rest;
    }
  }

  lemma {:induction false} NoMembers<K>(s: seq<K>)
    ensures s == [] || exists x :: x in s
  {
    assert s == [] || s[0] in s;
  }

  lemma {:induction false} WithoutAbsent<K>(s: seq<K>, k: K)
    requires k !in s
    ensures Without(s, k) == s
  {
    if s != [] {
      assert s == [s[0]] + s[1..];
      WithoutAbsent(s[1..], k);
    }
  }

  lemma {:induction false} WithoutLength<K>(s: seq<K>, k: K)
    requires NoDup(s) && k in s
    ensures |Without(s, k)| == |s| - 1
  {
    assert s == [s[0]] + s[1..];
    if s[0] == k {
      assert k !in s[1..];
      WithoutAbsent(s[1..], k);
    } else {
      WithoutLength(s[1..], k);
    }
  }

  lemma {:induction false} WithCountConcat<K>(s: seq<K>, t: seq<K>, counts: map<K, int>, f: int)
    ensures WithCount(s + t, counts, f) == WithCount(s, counts, f) + WithCount(t, counts, f)
  {
    if s == [] {
      assert s + t == t;
    } else {
      assert (s + t)[1..] == s[1..] + t;
      WithCountConcat(s[1..], t, counts, f);
    }
  }

  lemma {:induction false} WithCountWithout<K>(s: seq<K>, k: K, counts: map<K, int>, f: int)
    ensures WithCount(Without(s, k), counts, f) == Without(WithCount(s, counts, f), k)
  {
    if s != [] {
      WithCountWithout(s[1..], k, counts, f);
      if s[0] != k {
        assert ([s[0]] + Without(s[1..], k))[1..] == Without(s[1..], k);
        assert ([s[0]] + WithCount(s[1..], counts, f))[1..] == WithCount(s[1..], counts, f);
      } else {
        assert ([s[0]] + WithCount(s[1..], counts, f))[1..] == WithCount(s[1..], counts, f);
      }
    }
  }

  lemma {:induction false} WithCountMembers<K>(s: seq<K>, counts: map<K, int>, f: int)
    ensures forall x | x in WithCount(s, counts, f) :: x in s && x in counts && counts[x] == f
    ensures forall x | x in s && x in counts && counts[x] == f :: x in WithCount(s, counts, f)
  {
    if s != [] {
      assert s == [s[0]] + s[1..];
      WithCountMembers(s[1..], counts, f);
    }
  }

  lemma {:induction false} WithCountSame<K>(s: seq<K>, c1: map<K, int>, c2: map<K, int>, f: int)
    requires forall x :: x in s ==> x in c1 && x in c2 && c1[x] == c2[x]
    ensures WithCount(s, c1, f) == WithCount(s, c2, f)
  {
    if s != [] {
      assert forall x :: x in s[1..] ==> x in s;
      WithCountSame(s[1..], c1, c2, f);
    }
  }

  lemma {:induction false} SumOverConcat<K>(s: seq<K>, t: seq<K>, counts: map<K, int>)
    ensures SumOver(s + t, counts) == SumOver(s, counts) + SumOver(t, counts)
  {
    if s == [] {
      assert s + t == t;
    } else {
      assert (s + t)[1..] == s[1..] + t;
      SumOverConcat(s[1..], t, counts);
    }
  }

  lemma {:induction false} SumOverWithout<K>(s: seq<K>, k: K, counts: map<K, int>)
    requires NoDup(s) && k in s && k in counts
    ensures SumOver(Without(s, k), counts) == SumOver(s, counts) - counts[k]
  {
    assert s == [s[0]] + s[1..];
    if s[0] == k {
      assert k !in s[1..];
      WithoutAbsent(s[1..], k);
    } else {
      SumOverWithout(s[1..], k, counts);
      assert ([s[0]] + Without(s[1..], k))[1..] == Without(s[1..], k);
    }
  }

  lemma {:induction false} SumOverSame<K>(s: seq<K>, c1: map<K, int>, c2: map<K, int>)
    requires forall x :: x in s ==> x in c1 && x in c2 && c1[x] == c2[x]
    ensures SumOver(s, c1) == SumOver(s, c2)
  {
    if s != [] {
      assert forall x :: x in s[1..] ==> x in s;
      SumOverSame(s[1..], c1, c2);
    }
  }

  /** A lower bound on every count bounds the sum. */
  lemma {:induction false} SumOverAtLeast<K>(s: seq<K>, counts: map<K, int>, b: int)
    requires forall x :: x in s ==> x in counts && counts[x] >= b
    ensures SumOver(s, counts) >= b * |s|
  {
    if s != [] {
      assert forall x :: x in s[1..] ==> x in s;
      SumOverAtLeast(s[1..], counts, b);
      assert b * |s| == b * |s[1..]| + b;
    }
  }

  /** Lowering counts lowers the sum, strictly if one of them drops. */
  lemma {:induction false} SumOverMonotone<K>(s: seq<K>, lo: map<K, int>, hi: map<K, int>, dropped: K)
    requires forall x :: x in s ==> x in lo && x in hi && lo[x] <= hi[x]
    ensures SumOver(s, lo) <= SumOver(s, hi)
    ensures dropped in s && lo[dropped] < hi[dropped] ==> SumOver(s, lo) < SumOver(s, hi)
  {
    if s != [] {
      assert s == [s[0]] + s[1..];
      SumOverMonotone(s[1..], lo, hi, dropped);
    }
  }

  /** Two enumerations of one key set have the same sum and length. */
  lemma {:induction false} SumOverReordered<K>(s: seq<K>, t: seq<K>, counts: map<K, int>)
    requires NoDup(s) && NoDup(t)
    requires forall x | x in s :: x in t
    requires forall x | x in t :: x in s
    requires forall x :: x in s ==> x in counts
    ensures SumOver(s, counts) == SumOver(t, counts)
    ensures |s| == |t|
    decreases |s|
  {
    if s == [] {
      NoMembers(t);
    } else {
      var k := s[0];
      assert s == [k] + s[1..];
      assert k !in s[1..];
      WithoutMembers(t, k);
      SumOverWithout(t, k, counts);
      WithoutLength(t, k);
      SumOverReordered(s[1..], Without(t, k), counts);
    }
  }

  lemma {:induction false} EnumerationLength<K>(s: seq<K>, keys: set<K>)
    requires Enumerates(s, keys)
    ensures |s| == |keys|
  {
    if s == [] {
      assert keys == {};
    } else {
      assert s == [s[0]] + s[1..];
      assert Enumerates(s[1..], keys - {s[0]});
      EnumerationLength(s[1..], keys - {s[0]});
    }
  }

  // ----- the ledger's operations -----

  ghost function Moved<K, V>(a: Ledger<K, V>, k: K, f: int): Ledger<K, V> {
    a.(counts := a.counts[k := f], recency := Without(a.recency, k) + [k])
  }

  ghost function Bumped<K, V>(a: Ledger<K, V>, k: K): Ledger<K, V>
    requires k in a.counts
  {
    Moved(a, k, a.counts[k] + 1)
  }

  /** The first key of `s` with the least count: a left-to-right scan. */
  ghost function FirstLeast<K>(s: seq<K>, counts: map<K, int>): (k: K)
    requires s != []
    requires forall x :: x in s ==> x in counts
    ensures k in s
    ensures forall x :: x in s ==> counts[k] <= counts[x]
    ensures exists i :: 0 <= i < |s| && s[i] == k && forall j :: 0 <= j < i ==> counts[k] < counts[s[j]]
  {
    assert s == [s[0]] + s[1..];
    if |s| == 1 then s[0]
    else
      var r := FirstLeast(s[1..], counts);
      if counts[s[0]] <= counts[r] then s[0]
      else
        assert exists i :: 0 <= i < |s| && s[i] == r && forall j :: 0 <= j < i ==> counts[r] < counts[s[j]] by {
          var i :| 0 <= i < |s[1..]| && s[1..][i] == r && forall j :: 0 <= j < i ==> counts[r] < counts[s[1..][j]];
          assert s[i + 1] == r;
          assert forall j :: 0 <= j < i + 1 ==> counts[r] < counts[s[j]] by {
            forall j | 0 <= j < i + 1 ensures counts[r] < counts[s[j]] {
              if j > 0 { assert s[j] == s[1..][j - 1]; }
            }
          }
        }
        r
  }

  ghost function Evicted<K, V>(a: Ledger<K, V>): Ledger<K, V> {
    if a.recency == [] || !(forall x :: x in a.recency ==> x in a.counts) then a
    else
      var k := FirstLeast(a.recency, a.counts);
      a.(values := a.values - {k}, counts := a.counts - {k}, recency := Without(a.recency, k),
         total := a.total - a.counts[k])
  }

  ghost function Entered<K, V>(a: Ledger<K, V>, k: K, v: V): Ledger<K, V> {
    var room := if |a.values| == a.capacity then Evicted(a) else a;
    room.(values := room.values[k := v], counts := room.counts[k := 1], recency := room.recency + [k])
  }

  ghost predicate Ages<K, V>(a: Ledger<K, V>) {
    Average(a.total + 1, |a.values|) > a.maxAverage && a.values != map[]
  }

  ghost function AgedCounts<K>(counts: map<K, int>, maxAverage: int): map<K, int> {
    map k | k in counts :: AgedFreq(maxAverage, counts[k])
  }

  /** Counts the access; above the allowed average every count drops and the
      keys are listed anew in the order of the pass. */
  ghost function Tallied<K, V>(a: Ledger<K, V>, order: seq<K>): Ledger<K, V> {
    if Ages(a) then a.(total := a.total + 1, counts := AgedCounts(a.counts, a.maxAverage), recency := order)
    else a.(total := a.total + 1)
  }

  ghost predicate Accesses<K, V>(a: Ledger<K, V>, op: Op<K, V>) {
    match op
    case Purge => false
    case Get(k, _) => k in a.counts
    case Put(_, _, _) => a.capacity != 0
  }

  /** The ledger in which an access is tallied. */
  ghost function BeforeTally<K, V>(a: Ledger<K, V>, op: Op<K, V>): Ledger<K, V> {
    match op
    case Purge => a
    case Get(k, _) => if k in a.counts then Bumped(a, k) else a
    case Put(k, v, _) =>
      if k in a.counts then Bumped(a.(values := a.values[k := v]), k) else Entered(a, k, v)
  }

  ghost function LedgerStep<K, V>(a: Ledger<K, V>, op: Op<K, V>): Ledger<K, V> {
    if op.Purge? then a.(values := map[], counts := map[], recency := [])
    else if Accesses(a, op) then Tallied(BeforeTally(a, op), op.order)
    else a
  }

  ghost function LedgerRun<K, V>(a: Ledger<K, V>, ops: seq<Op<K, V>>): Ledger<K, V> {
    if ops == [] then a else LedgerStep(LedgerRun(a, ops[..|ops| - 1]), ops[|ops| - 1])
  }

  ghost function EmptyLedger<K, V>(capacity: int, maxAverage: int): Ledger<K, V> {
    Ledger(capacity, maxAverage, 0, map[], map[], [])
  }

  // ----- refinement -----

  /** Every list holds the keys of its frequency, in recency order. */
  ghost predicate Splits<K>(lists: map<int, seq<K>>, rec: seq<K>, counts: map<K, int>) {
    forall f :: ListAt(lists, f) == WithCount(rec, counts, f)
  }

  /** The lists are the ledger's recency order, split by count. */
  ghost predicate Mirrors<K, V>(c: Cache<K, V>, a: Ledger<K, V>) {
    && c.capacity == a.capacity
    && c.maxAverage == a.maxAverage
    && c.total == a.total
    && c.values == a.values
    && c.freqs == a.counts
    && c.values.Keys == c.freqs.Keys
    && Enumerates(a.recency, a.counts.Keys)
    && Splits(c.lists, a.recency, a.counts)
  }

  lemma {:induction false} MovedList<K>(rec: seq<K>, counts: map<K, int>, k: K, f: int, g: int)
    requires Enumerates(rec, counts.Keys) && k in counts
    ensures WithCount(Without(rec, k) + [k], counts[k := f], g)
         == Without(WithCount(rec, counts, g), k) + (if g == f then [k] else [])
    ensures counts[k] != g ==> Without(WithCount(rec, counts, g), k) == WithCount(rec, counts, g)
  {
    var rest := Without(rec, k);
    WithoutMembers(rec, k);
    assert forall x | x in rest :: x in rec;
    WithCountConcat(rest, [k], counts[k := f], g);
    WithCountSame(rest, counts, counts[k := f], g);
    WithCountWithout(rec, k, counts, g);
    assert WithCount([k], counts[k := f], g) == if g == f then [k] else [];
    if counts[k] != g {
      WithCountMembers(rec, counts, g);
      WithoutAbsent(WithCount(rec, counts, g), k);
    }
  }

  lemma {:induction false} MovedEnumerates<K>(rec: seq<K>, keys: set<K>, k: K)
    requires Enumerates(rec, keys) && k in keys
    ensures Enumerates(Without(rec, k) + [k], keys)
    ensures Enumerates(Without(rec, k), keys - {k})
  {
    WithoutMembers(rec, k);
    var rest := Without(rec, k);
    NoDupConcat(rest, [k]);
    assert forall x | x in rest :: x in rec;
    assert forall x | x in rest + [k] :: x in rest || x == k;
  }

  lemma {:induction false} MoveSplits<K>(lists: map<int, seq<K>>, rec: seq<K>, counts: map<K, int>, k: K, f: int)
    requires Splits(lists, rec, counts) && Enumerates(rec, counts.Keys) && k in counts
    ensures Splits(Relisted(lists, k, counts[k], f), Without(rec, k) + [k], counts[k := f])
  {
    var lists' := Relisted(lists, k, counts[k], f);
    forall g ensures ListAt(lists', g) == WithCount(Without(rec, k) + [k], counts[k := f], g) {
      MovedList(rec, counts, k, f, g);
      assert ListAt(lists, g) == WithCount(rec, counts, g);
    }
  }

  lemma {:induction false} MoveMirrors<K, V>(c: Cache<K, V>, a: Ledger<K, V>, k: K, f: int)
    requires Mirrors(c, a) && k in c.freqs
    ensures Mirrors(Move(c, k, f), Moved(a, k, f))
  {
    MovedEnumerates(a.recency, a.counts.Keys, k);
    assert Moved(a, k, f).counts.Keys == a.counts.Keys;
    MoveSplits(c.lists, a.recency, a.counts, k, f);
  }
}
