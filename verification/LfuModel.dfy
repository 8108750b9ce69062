/** The frequency lists of the LFU cache on values: what every operation of
    LfuCache does to the key map, the per-frequency lists, the cached minimum
    frequency and the running totals. */
module LfuModel {
  import opened Basics

  /** The sentinel used by the constructor and by the minimum scan. */
  const INT8_MAX := 127

  /** The fields of LfuCache. `lists` is the frequency table with every list
      given by its keys from the head to the tail. */
  datatype Cache<K, V> = Cache(
    capacity: int,
    maxAverage: int,
    minFreq: int,
    average: int,
    total: int,
    values: map<K, V>,
    freqs: map<K, int>,
    lists: map<int, seq<K>>)

  // ----- sequences of keys -----

  /** `order` lists every key of `keys` once: one pass over a hash map. */
  ghost predicate Enumerates<K>(order: seq<K>, keys: set<K>) {
    && NoDup(order)
    && (forall k | k in order :: k in keys)
    && (forall k | k in keys :: k in order)
  }

  ghost function Without<K>(s: seq<K>, k: K): seq<K> {
    if s == [] then []
    else if s[0] == k then Without(s[1..], k)
    else [s[0]] + Without(s[1..], k)
  }

  ghost function ListAt<K>(lists: map<int, seq<K>>, f: int): seq<K> {
    if f in lists then lists[f] else []
  }

  // ----- helpers of the operations -----

  function Min(a: int, b: int): int { if a < b then a else b }

  /** C++ integer division by two, which truncates towards zero. */
  function Half(n: int): int { if n >= 0 then n / 2 else -((-n) / 2) }

  /** The frequency a node has after one ageing pass. */
  function AgedFreq(maxAverage: int, f: int): int {
    if f - Half(maxAverage) < 1 then 1 else f - Half(maxAverage)
  }

  /** `curTotalNum_ / nodeMap_.size()` stored in an int: the dividend is
      converted to a 64-bit unsigned value first, the quotient back to 32 bits. */
  function Average(total: int, size: nat): int {
    if size == 0 then 0
    else if total >= 0 then total / size
    else
      var q := ((0x1_0000_0000_0000_0000 + total) / size) % 0x1_0000_0000;
      if q >= 0x8000_0000 then q - 0x1_0000_0000 else q
  }

  ghost function LeastOf(s: set<int>): (m: int)
    requires exists x :: x in s
    ensures m in s
    ensures forall x :: x in s ==> m <= x
    decreases s
  {
    var x :| x in s;
    var rest := s - {x};
    assert forall y :: y in s ==> y == x || y in rest;
    if exists y :: y in rest then Min(x, LeastOf(rest)) else x
  }

  ghost function Occupied<K>(lists: map<int, seq<K>>): set<int> {
    set f | f in lists && lists[f] != []
  }

  /** The result of the scan in updateMinFreq. */
  ghost function ScannedMin<K>(lists: map<int, seq<K>>): int {
    var below := set f | f in Occupied(lists) && f < INT8_MAX;
    if exists f :: f in below then LeastOf(below) else 1
  }

  // ----- operations -----

  ghost function New<K, V>(capacity: int, maxAverage: int): Cache<K, V> {
    Cache(capacity, maxAverage, INT8_MAX, 0, 0, map[], map[], map[])
  }

  /** removeFromFreqList under the old frequency, then addToFreqList under the new one. */
  ghost function Relisted<K>(lists: map<int, seq<K>>, k: K, from: int, to: int): map<int, seq<K>> {
    var removed := lists[from := Without(ListAt(lists, from), k)];
    removed[to := ListAt(removed, to) + [k]]
  }

  /** Moves `k` from the list of its frequency to the tail of the list of `f`. */
  ghost function Move<K, V>(c: Cache<K, V>, k: K, f: int): Cache<K, V>
    requires k in c.freqs
  {
    c.(freqs := c.freqs[k := f], lists := Relisted(c.lists, k, c.freqs[k], f))
  }

  /** getInternal up to, and without, the call of addFreqNum. */
  ghost function Touched<K, V>(c: Cache<K, V>, k: K): Cache<K, V>
    requires k in c.freqs
  {
    var f := c.freqs[k];
    var moved := Move(c, k, f + 1);
    if f == c.minFreq && ListAt(moved.lists, f) == [] then moved.(minFreq := c.minFreq + 1) else moved
  }

  /** kickOut; None when the list of the cached minimum has no node to take. */
  ghost function KickedOut<K, V>(c: Cache<K, V>): Option<Cache<K, V>> {
    var list := ListAt(c.lists, c.minFreq);
    if list == [] || list[0] !in c.freqs then None
    else
      var k := list[0];
      var f := c.freqs[k];
      Some(c.(values := c.values - {k},
              freqs := c.freqs - {k},
              lists := c.lists[f := Without(ListAt(c.lists, f), k)],
              total := c.total - f,
              average := Average(c.total - f, |c.values - {k}|)))
  }

  ghost predicate Full<K, V>(c: Cache<K, V>) { |c.values| == c.capacity }

  /** putInternal up to the call of addFreqNum. */
  ghost function Inserted<K, V>(c: Cache<K, V>, k: K, v: V): Option<Cache<K, V>> {
    var room := if Full(c) then KickedOut(c) else Some(c);
    match room
    case None => None
    case Some(r) =>
      Some(r.(values := r.values[k := v],
              freqs := r.freqs[k := 1],
              lists := r.lists[1 := ListAt(r.lists, 1) + [k]]))
  }

  /** The two indexes the ageing pass rewrites. */
  datatype Index<K> = Index(freqs: map<K, int>, lists: map<int, seq<K>>)

  ghost function Reindexed<K>(x: Index<K>, k: K, f: int): Index<K>
    requires k in x.freqs
  {
    Index(x.freqs[k := f], Relisted(x.lists, k, x.freqs[k], f))
  }

  /** The loop of handleOverMaxAverageNum over the keys of `order`. */
  ghost function AgedIndex<K>(x: Index<K>, order: seq<K>, maxAverage: int): Index<K>
    decreases |order|
  {
    if order == [] then x
    else if order[0] !in x.freqs then AgedIndex(x, order[1..], maxAverage)
    else AgedIndex(Reindexed(x, order[0], AgedFreq(maxAverage, x.freqs[order[0]])), order[1..], maxAverage)
  }

  /** handleOverMaxAverageNum, with the pass over the key map given by `order`. */
  ghost function Aged<K, V>(c: Cache<K, V>, order: seq<K>): Cache<K, V> {
    if c.values == map[] then c
    else
      var aged := AgedIndex(Index(c.freqs, c.lists), order, c.maxAverage);
      c.(freqs := aged.freqs, lists := aged.lists, minFreq := ScannedMin(aged.lists))
  }

  /** addFreqNum. */
  ghost function Counted<K, V>(c: Cache<K, V>, order: seq<K>): Cache<K, V> {
    var counted := c.(total := c.total + 1, average := Average(c.total + 1, |c.values|));
    if counted.average > counted.maxAverage then Aged(counted, order) else counted
  }

  // ----- runs -----

  /** One public call. `order` is the pass the hash map makes if the call ages. */
  datatype Op<K, V> = Put(key: K, val: V, order: seq<K>) | Get(key: K, order: seq<K>) | Purge

  /** The state in which the call reaches addFreqNum, if it does. */
  ghost function BeforeCount<K, V>(c: Cache<K, V>, op: Op<K, V>): Option<Cache<K, V>> {
    match op
    case Purge => Some(c)
    case Get(k, _) => if k in c.freqs then Some(Touched(c, k)) else Some(c)
    case Put(k, v, _) =>
      if k in c.freqs then Some(Touched(c.(values := c.values[k := v]), k)) else Inserted(c, k, v)
  }

  ghost predicate Counts<K, V>(c: Cache<K, V>, op: Op<K, V>) {
    match op
    case Purge => false
    case Get(k, _) => k in c.freqs
    case Put(_, _, _) => c.capacity != 0
  }

  /** put, get and purge; None is the fault of kickOut on a list with no node. */
  ghost function Step<K, V>(c: Cache<K, V>, op: Op<K, V>): Option<Cache<K, V>> {
    if op.Purge? then Some(c.(values := map[], freqs := map[], lists := map[]))
    else if !Counts(c, op) then Some(c)
    else
      match BeforeCount(c, op)
      case None => None
      case Some(b) =>
        var counted := Counted(b, op.order);
        if op.Put? && op.key !in c.freqs then Some(counted.(minFreq := Min(counted.minFreq, 1)))
        else Some(counted)
  }

  /** The pass over the hash map is a pass over the keys it holds at that point. */
  ghost predicate LegalStep<K, V>(c: Cache<K, V>, op: Op<K, V>) {
    Counts(c, op) && BeforeCount(c, op).Some? ==>
      Enumerates(op.order, BeforeCount(c, op).value.freqs.Keys)
  }

  ghost function Run<K, V>(c: Cache<K, V>, ops: seq<Op<K, V>>): Option<Cache<K, V>>
    decreases |ops|
  {
    if ops == [] then Some(c)
    else
      var before := Run(c, ops[..|ops| - 1]);
      if before.None? then None else Step(before.value, ops[|ops| - 1])
  }

  ghost predicate Legal<K, V>(c: Cache<K, V>, ops: seq<Op<K, V>>)
    decreases |ops|
  {
    ops == [] ||
    (Legal(c, ops[..|ops| - 1]) &&
     (Run(c, ops[..|ops| - 1]).Some? ==> LegalStep(Run(c, ops[..|ops| - 1]).value, ops[|ops| - 1])))
  }

  /** What kickOut relies on: a non-empty cache whose cached minimum is the least
      resident frequency, with a node in its list. */
  ghost predicate MinFreqRight<K, V>(c: Cache<K, V>) {
    c.values != map[] ==>
      && ListAt(c.lists, c.minFreq) != []
      && (forall k :: k in c.freqs ==> c.minFreq <= c.freqs[k])
      && (exists k :: k in c.freqs && c.minFreq == c.freqs[k])
  }
}
