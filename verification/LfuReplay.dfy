/** The linked LFU cache driven by an arbitrary list of calls. */
module LfuReplay {
  import opened Basics
  import opened LfuModel
  import opened LfuHeap
  import opened LfuLedger
  import opened LfuRefinement
  import opened LfuTheorems

  datatype Call<K, V> = PutCall(key: K, val: V) | GetCall(key: K) | PurgeCall

  /** `op` is `call` with the order in which the hash map would be passed over. */
  ghost predicate Matches<K, V>(op: Op<K, V>, call: Call<K, V>) {
    match call
    case PutCall(k, v) => op.Put? && op.key == k && op.val == v
    case GetCall(k) => op.Get? && op.key == k
    case PurgeCall => op.Purge?
  }

  /** The run so far, as a run of the list model. */
  ghost predicate Follows<K(!new, 0), V(!new, 0)>(cache: LfuCache<K, V>, m: int, ops: seq<Op<K, V>>, calls: seq<Call<K, V>>)
    reads cache, cache.lists, cache.cells, cache.nodeMap.Values
  {
    && cache.Valid() && cache.maxAverageNum == m
    && |ops| == |calls| && (forall i | 0 <= i < |ops| :: Matches(ops[i], calls[i]))
    && Legal(New(cache.capacity, m), ops)
    && Run(New(cache.capacity, m), ops) == Some(cache.Abs())
  }

  lemma {:induction false} RunNext<K, V>(c0: Cache<K, V>, ops: seq<Op<K, V>>, op: Op<K, V>, c: Cache<K, V>)
    requires Legal(c0, ops) && Run(c0, ops) == Some(c) && LegalStep(c, op)
    ensures Legal(c0, ops + [op]) && Run(c0, ops + [op]) == Step(c, op)
  {
    assert (ops + [op])[..|ops + [op]| - 1] == ops;
  }

  /** maxAverageNum is in 2..250, or is more and not exceeded by the number of calls. */
  predicate Suits(m: int, calls: nat) { 2 <= m && (m <= 250 || calls <= m) }

  /** In range, a full cache always has a node in the list of its cached minimum. */
  lemma {:induction false} EvictionSafe<K(!new), V(!new)>(capacity: int, m: int, ops: seq<Op<K, V>>, c: Cache<K, V>)
    requires Suits(m, |ops|) && Legal(New(capacity, m), ops) && Run(New(capacity, m), ops) == Some(c)
    ensures InRange(capacity, m, ops) && (c.values != map[] ==> ListAt(c.lists, c.minFreq) != [])
  {
    if m > 250 { FewCalls(capacity, m, ops); }
    GoodEndsRight(capacity, m, ops);
  }

  /** A get hits exactly where the ledger of the calls before it has the key, and returns the
      value last put. */
  ghost predicate Answers<K, V>(capacity: int, m: int, before: seq<Op<K, V>>, call: Call<K, V>, answer: Option<V>) {
    && (answer.Some? <==> call.GetCall? && call.key in LedgerRun(EmptyLedger<K, V>(capacity, m), before).values)
    && (answer.Some? ==> LastPut(before, call.key) == answer)
  }

  /** `ops` are the calls, with passes over the hash map that it could have made, and the
      answers are right for them. */
  ghost predicate Explains<K, V>(capacity: int, m: int, calls: seq<Call<K, V>>, answers: seq<Option<V>>, ops: seq<Op<K, V>>) {
    && |answers| == |calls| == |ops| && Legal(New(capacity, m), ops)
    && forall i | 0 <= i < |calls| :: Matches(ops[i], calls[i]) && Answers(capacity, m, ops[..i], calls[i], answers[i])
  }

  /** Runs the calls on a new cache: no call is stuck for want of a node to evict, and
      every get has the right answer. */
  method Replay<K(!new, ==, 0), V(!new, 0)>(capacity: int, m: int, calls: seq<Call<K, V>>)
    returns (answers: seq<Option<V>>)
    requires Suits(m, |calls|)
    ensures exists ops :: Explains(capacity, m, calls, answers, ops)
  {
    hide Answers;
    answers := [];
    ghost var ops: seq<Op<K, V>> := [];
    var cache := new LfuCache<K, V>(capacity, m);
    for i := 0 to |calls|
      invariant fresh(cache)
      invariant cache.capacity == capacity && Follows(cache, m, ops, calls[..i])
      invariant |answers| == i
      invariant forall n | n in cache.cells :: fresh(n)
      invariant forall l | l in cache.lists :: fresh(l)
      invariant forall j | 0 <= j < i :: Answers(capacity, m, ops[..j], calls[j], answers[j])
    {
      var answer, op := Serve(cache, m, calls[i], ops, calls[..i]);
      assert calls[..i + 1] == calls[..i] + [calls[i]];
      assert forall j | 0 <= j < i :: (ops + [op])[..j] == ops[..j];
      assert (ops + [op])[..i] == ops;
      answers, ops := answers + [answer], ops + [op];
    }
    assert calls[..|calls|] == calls;
    assert Explains(capacity, m, calls, answers, ops);
  }

  method Serve<K(!new, ==, 0), V(!new, 0)>(cache: LfuCache<K, V>, m: int, call: Call<K, V>,
                                           ghost ops: seq<Op<K, V>>, ghost calls: seq<Call<K, V>>)
    returns (answer: Option<V>, ghost op: Op<K, V>)
    requires Suits(m, |calls|) && Follows(cache, m, ops, calls)
    modifies cache, cache.lists, cache.cells
    ensures Follows(cache, m, ops + [op], calls + [call])
    ensures Answers(cache.capacity, m, ops, call, answer)
    ensures forall n | n in cache.cells && n !in old(cache.cells) :: fresh(n)
    ensures forall l | l in cache.lists && l !in old(cache.lists) :: fresh(l)
  {
    ghost var c0, c := New<K, V>(cache.capacity, m), cache.Abs();
    answer := None;
    EvictionSafe(cache.capacity, m, ops, c);
    match call {
      case PutCall(k, v) =>
        cache.SizeOfValues();
        ghost var order := cache.Put(k, v);
        op := Put(k, v, order);
      case GetCall(k) =>
        ghost var order;
        var found, value;
        found, value, order := cache.Get(k);
        LedgerAgrees(cache.capacity, m, ops);
        if found {
          answer := Some(value);
          ResidentHasLastPut(cache.capacity, m, ops, k);
        }
        op := Get(k, order);
      case PurgeCall =>
        cache.Purge();
        op := Purge;
    }
    RunNext(c0, ops, op, c);
  }
}
