/** The LFU cache as it is built: nodes linked into per-frequency lists with two
    sentinels, a key map and a frequency table, all updated in place. */
module LfuHeap {
  import opened Basics
  import opened LfuModel
  import LfuLedger

  class Node<K(0), V(0)> {
    const key: K
    var value: V
    var freq: int
    var pre: Node?<K, V>
    var next: Node?<K, V>
    ghost var list: FreqList?<K, V>  // the list whose chain holds this node

    constructor (key: K, value: V)
      ensures this.key == key && this.value == value && freq == 1
      ensures pre == null && next == null && list == null
    {
      this.key, this.value, freq := key, value, 1;
      pre, next, list := null, null, null;
    }

    constructor Sentinel()
      ensures freq == 1 && pre == null && next == null && list == null
    {
      key, value, freq := *, *, 1;
      pre, next, list := null, null, null;
    }
  }

  /** A chain without its two sentinels. */
  ghost function Interior<T>(chain: seq<T>): seq<T> {
    if |chain| < 2 then [] else chain[1..|chain| - 1]
  }

  lemma {:induction false} InteriorAdded<T>(chain: seq<T>, x: T, last: T)
    requires |chain| >= 2
    ensures Interior(chain[..|chain| - 1] + [x, last]) == Interior(chain) + [x]
  {}

  lemma {:induction false} InteriorRemoved<T>(chain: seq<T>, at: nat)
    requires 0 < at < |chain| - 1
    ensures Interior(chain[..at] + chain[at + 1..]) == Interior(chain)[..at - 1] + Interior(chain)[at..]
  {}

  class FreqList<K(0), V(0)> {
    var head: Node<K, V>
    var tail: Node<K, V>
    ghost var chain: seq<Node<K, V>>  // head, the nodes, tail

    ghost predicate Linked()
      reads this, chain`pre, chain`next, chain`list
    {
      && |chain| >= 2
      && head == chain[0] && tail == chain[|chain| - 1]
      && (forall i {:trigger chain[i].next} :: 0 <= i < |chain| - 1 ==> chain[i].next == chain[i + 1])
      && (forall i {:trigger chain[i].pre} :: 0 < i < |chain| ==> chain[i].pre == chain[i - 1])
      && (forall i :: 0 <= i < |chain| ==> chain[i].list == this)
      && (forall i, j :: 0 <= i < j < |chain| ==> chain[i] != chain[j])
    }

    /** The list is linked and holds exactly the nodes `ns`. */
    ghost predicate Holds(ns: seq<Node<K, V>>)
      reads this, chain`pre, chain`next, chain`list
    {
      Linked() && Nodes() == ns
    }

    ghost function At(i: int): Node<K, V>
      requires 0 <= i < |chain|
      reads this`chain
    {
      chain[i]
    }

    ghost function Nodes(): seq<Node<K, V>>
      reads this`chain
    {
      Interior(chain)
    }

    lemma {:induction false} Ends()
      requires Linked()
      ensures |chain| >= 2 && tail in chain
    {}

    /** Changes to nodes of other lists leave this list linked. */
    twostate lemma StaysLinked()
      requires old(Linked()) && chain == old(chain) && head == old(head) && tail == old(tail)
      requires forall i :: 0 <= i < |chain| ==>
        chain[i].pre == old(chain[i].pre) && chain[i].next == old(chain[i].next) && chain[i].list == old(chain[i].list)
      ensures Linked()
    {}

    constructor ()
      ensures Linked() && Nodes() == []
      ensures forall n | n in chain :: fresh(n)
    {
      var h := new Node.Sentinel();
      var t := new Node.Sentinel();
      head, tail := h, t;
      new;
      head.next := tail;
      tail.pre := head;
      head.list, tail.list := this, this;
      chain := [head, tail];
    }

    method IsEmpty() returns (b: bool)
      requires Linked()
      ensures b <==> Nodes() == []
    {
      b := head.next == tail;
      assert chain[0].next == chain[1];
    }

    /** addNode: links `node` in front of the tail sentinel. */
    method AddNode(node: Node<K, V>, ghost others: set<Node<K, V>>)
      requires Linked() && node.list == null
      modifies this`chain, node`pre, node`next, node`list, tail`pre, At(|chain| - 2)`next
      ensures Linked()
      ensures chain == old(chain)[..|old(chain)| - 1] + [node, tail]
      ensures forall n | n in others && n != node && old(n.list) != this ::
        n.pre == old(n.pre) && n.next == old(n.next) && n.list == old(n.list)
    {
      ghost var n := |chain|;
      assert chain[n - 1].pre == chain[n - 2];
      assert forall i :: 0 <= i < n ==> chain[i] != node;
      node.pre := tail.pre;
      node.next := tail;
      tail.pre.next := node;
      tail.pre := node;
      node.list := this;
      chain := chain[..n - 1] + [node, tail];
    }

    /** removeNode: unlinks a node that lies between the sentinels. */
    method RemoveNode(node: Node<K, V>, ghost at: nat, ghost others: set<Node<K, V>>)
      requires Linked() && 0 < at < |chain| - 1 && chain[at] == node
      modifies this`chain, node`pre, node`next, node`list, At(at - 1)`next, At(at + 1)`pre
      ensures Linked() && chain == old(chain)[..at] + old(chain)[at + 1..]
      ensures node.pre == null && node.next == null && node.list == null
      ensures forall n | n in others && old(n.list) != this ::
        n.pre == old(n.pre) && n.next == old(n.next) && n.list == old(n.list)
    {
      assert chain[at].pre == chain[at - 1] && chain[at].next == chain[at + 1];
      if node.pre == null || node.next == null { return; }
      node.pre.next := node.next;
      node.next.pre := node.pre;
      node.pre := null;
      node.next := null;
      node.list := null;
      chain := chain[..at] + chain[at + 1..];
    }

    method GetFirstNode() returns (node: Node<K, V>)
      requires Linked()
      ensures Nodes() != [] ==> node == Nodes()[0]
      ensures node == chain[1]
    {
      assert chain[0].next == chain[1];
      node := head.next;
    }
  }

  /** The keys of a run of nodes. */
  ghost function Keys<K(0), V(0)>(ns: seq<Node<K, V>>): seq<K> {
    seq(|ns|, i requires 0 <= i < |ns| => ns[i].key)
  }

  ghost function KeyLists<K(0), V(0)>(shape: map<int, seq<Node<K, V>>>): map<int, seq<K>> {
    map f | f in shape :: Keys(shape[f])
  }

  lemma {:induction false} WithoutAt<K>(s: seq<K>, at: nat)
    requires at < |s| && forall i :: 0 <= i < |s| && i != at ==> s[i] != s[at]
    ensures Without(s, s[at]) == s[..at] + s[at + 1..]
  {
    assert s == [s[0]] + s[1..];
    if at == 0 {
      LfuLedger.WithoutAbsent(s[1..], s[0]);
    } else {
      assert s[1..][at - 1] == s[at];
      WithoutAt(s[1..], at - 1);
      assert s[at + 1..] == s[1..][at..];
      assert s[..at] == [s[0]] + s[1..][..at - 1];
    }
  }

  /** The nodes listed in `shape` are the resident nodes, each in the list of its
      frequency; only `out` is resident and in no list. */
  ghost predicate MapWell<K(0), V(0)>(nodes: map<K, Node<K, V>>, freqs: map<K, int>,
                                      shape: map<int, seq<Node<K, V>>>, out: Node?<K, V>)
  {
    && freqs.Keys == nodes.Keys
    && (forall k | k in nodes :: nodes[k].key == k)
    && (forall k | k in nodes && nodes[k] != out :: freqs[k] in shape && nodes[k] in shape[freqs[k]])
    && (forall f, n: Node<K, V> | f in shape && n in shape[f] ::
          n != out && n.key in nodes && nodes[n.key] == n && freqs[n.key] == f)
  }

  lemma {:induction false} Removal<K(0), V(0)>(nodes: map<K, Node<K, V>>, freqs: map<K, int>,
                                               shape: map<int, seq<Node<K, V>>>, f: int, i: nat)
    requires MapWell(nodes, freqs, shape, null) && f in shape && i < |shape[f]|
    requires forall j | 0 <= j < |shape[f]| && j != i :: shape[f][j] != shape[f][i]
    ensures MapWell(nodes, freqs, shape[f := shape[f][..i] + shape[f][i + 1..]], shape[f][i])
    ensures KeyLists(shape[f := shape[f][..i] + shape[f][i + 1..]])
         == KeyLists(shape)[f := Without(KeyLists(shape)[f], shape[f][i].key)]
  {
    var ns := shape[f];
    assert ns[i] in ns;
    forall j | 0 <= j < |ns| && j != i ensures ns[j].key != ns[i].key {
      assert ns[j] in ns;
    }
    RemovedMembers(ns, i);
    KeysRemoved(ns, i);
  }

  lemma {:induction false} Addition<K(0), V(0)>(nodes: map<K, Node<K, V>>, freqs: map<K, int>,
                                                shape: map<int, seq<Node<K, V>>>, node: Node<K, V>)
    requires MapWell(nodes, freqs, shape, node)
    requires node.key in nodes && nodes[node.key] == node
    ensures var f := freqs[node.key];
      var shape' := shape[f := ListAt(shape, f) + [node]];
      && MapWell(nodes, freqs, shape', null)
      && KeyLists(shape') == KeyLists(shape)[f := ListAt(KeyLists(shape), f) + [node.key]]
  {
    var ns := ListAt(shape, freqs[node.key]);
    assert Keys(ns + [node]) == Keys(ns) + [node.key];
  }

  lemma {:induction false} OutFreqFree<K(0), V(0)>(nodes: map<K, Node<K, V>>, freqs: map<K, int>,
                                                   shape: map<int, seq<Node<K, V>>>, node: Node<K, V>, f: int)
    requires MapWell(nodes, freqs, shape, node)
    requires node.key in nodes && nodes[node.key] == node
    ensures MapWell(nodes, freqs[node.key := f], shape, node)
  {
    forall g, n: Node<K, V> | g in shape && n in shape[g] ensures n.key != node.key {
      assert nodes[n.key] == n;
    }
  }

  class LfuCache<K(==, 0), V(0)> {
    const capacity: int
    const maxAverageNum: int
    var minFreq: int
    var curAverageNum: int
    var curTotalNum: int
    var nodeMap: map<K, Node<K, V>>
    var freqToFreqList: map<int, FreqList<K, V>>
    ghost var shape: map<int, seq<Node<K, V>>>  // the nodes of every list, head to tail
    ghost var cells: set<Node<K, V>>      // every node: resident ones and sentinels
    ghost var lists: set<FreqList<K, V>>  // every list of the table

    /** Each list of the table is linked, holds the nodes of `shape`, and is its own object. */
    ghost predicate ListsWell()
      reads this`freqToFreqList, this`shape, this`cells, this`lists, lists, cells`pre, cells`next, cells`list
    {
      && freqToFreqList.Keys == shape.Keys
      && (forall f | f in freqToFreqList :: freqToFreqList[f] in lists)
      && (forall f, n | f in freqToFreqList && n in freqToFreqList[f].chain :: n in cells)
      && (forall f | f in freqToFreqList :: freqToFreqList[f].Holds(shape[f]))
      && (forall f, g | f in freqToFreqList && g in freqToFreqList && f != g ::
            freqToFreqList[f] != freqToFreqList[g])
    }

    ghost predicate Owned()
      reads this`nodeMap, this`cells
    {
      forall k | k in nodeMap :: nodeMap[k] in cells
    }

    ghost predicate Valid()
      reads this`freqToFreqList, this`shape, this`cells, this`lists, this`nodeMap, lists
      reads cells`pre, cells`next, cells`list, nodeMap.Values`freq
    {
      ListsWell() && Owned() && MapWell(nodeMap, Freqs(), shape, null)
    }

    ghost function Lists(): map<int, seq<K>>
      reads this`shape
    {
      KeyLists(shape)
    }

    ghost function Freqs(): map<K, int>
      reads this`nodeMap, nodeMap.Values`freq
    {
      map k | k in nodeMap :: nodeMap[k].freq
    }

    ghost function Values(): map<K, V>
      reads this`nodeMap, nodeMap.Values`value
    {
      map k | k in nodeMap :: nodeMap[k].value
    }

    ghost function Abs(): Cache<K, V>
      reads this, nodeMap.Values
    {
      Cache(capacity, maxAverageNum, minFreq, curAverageNum, curTotalNum, Values(), Freqs(), Lists())
    }

    constructor (capacity: int, maxAverageNum: int := 10)
      ensures Valid() && cells == {} && lists == {}
      ensures Abs() == New(capacity, maxAverageNum)
    {
      this.capacity, this.maxAverageNum := capacity, maxAverageNum;
      minFreq, curAverageNum, curTotalNum := INT8_MAX, 0, 0;
      nodeMap, freqToFreqList := map[], map[];
      shape, cells, lists := map[], {}, {};
    }

    /** Unlinks node `i` of the list of frequency `f`. */
    method Unlink(node: Node<K, V>, f: int, ghost i: nat)
      requires ListsWell() && f in freqToFreqList && i < |shape[f]| && shape[f][i] == node
      modifies this`shape, lists`chain, cells`pre, cells`next, cells`list
      ensures ListsWell() && node.list == null
      ensures shape == old(shape)[f := old(shape[f])[..i] + old(shape[f])[i + 1..]]
    {
      hide FreqList.Linked;
      var list := freqToFreqList[f];
      ghost var chain, ns := list.chain, shape[f];
      assert list.Holds(ns);
      InteriorRemoved(chain, i + 1);
      list.RemoveNode(node, i + 1, cells);
      shape := shape[f := ns[..i] + ns[i + 1..]];
      assert list.Holds(shape[f]);
      assert forall n | n in list.chain :: n in cells by {
        assert forall n | n in list.chain :: n in chain;
      }
      OthersHold(f);
    }

    /** Changes to the list of frequency `f` and to nodes of no list leave the other lists. */
    twostate lemma OthersHold(f: int)
      requires old(ListsWell()) && freqToFreqList == old(freqToFreqList) && f in freqToFreqList
      requires forall g | g in freqToFreqList && g != f :: g in shape && shape[g] == old(shape)[g]
      requires forall l | l in old(lists) && l != freqToFreqList[f] ::
        l.chain == old(l.chain) && l.head == old(l.head) && l.tail == old(l.tail)
      requires forall n | n in old(cells) && old(n.list) != null && old(n.list) != freqToFreqList[f] ::
        n.pre == old(n.pre) && n.next == old(n.next) && n.list == old(n.list)
      ensures forall g | g in freqToFreqList && g != f :: freqToFreqList[g].Holds(shape[g])
    {
      forall g | g in freqToFreqList && g != f
        ensures freqToFreqList[g].Holds(shape[g])
      {
        var other := freqToFreqList[g];
        assert old(other.Holds(shape[g]));
        assert forall n | n in other.chain :: n in old(cells) && old(n.list) == other;
        other.StaysLinked();
      }
    }

    /** Links `node` at the end of the list of frequency `f`. */
    method Link(node: Node<K, V>, f: int)
      requires ListsWell() && f in freqToFreqList && node in cells && node.list == null
      modifies this`shape, lists`chain, cells`pre, cells`next, cells`list
      ensures ListsWell()
      ensures shape == old(shape)[f := old(shape[f]) + [node]]
    {
      hide FreqList.Linked;
      var list := freqToFreqList[f];
      ghost var chain, ns := list.chain, shape[f];
      assert list.Holds(ns);
      list.Ends();
      InteriorAdded(chain, node, list.tail);
      list.AddNode(node, cells);
      shape := shape[f := ns + [node]];
      assert list.Holds(shape[f]);
      assert forall n | n in list.chain :: n in cells by {
        assert forall n | n in list.chain :: n in chain || n == node || n == list.tail;
        assert list.tail in chain;
      }
      OthersHold(f);
    }

    twostate lemma SameFields()
      requires nodeMap == old(nodeMap)
      requires forall k | k in nodeMap ::
        nodeMap[k].freq == old(nodeMap[k].freq) && nodeMap[k].value == old(nodeMap[k].value)
      ensures Freqs() == old(Freqs()) && Values() == old(Values())
    {}

    /** Puts an empty list into the table. */
    method Register(f: int, list: FreqList<K, V>)
      requires ListsWell() && f !in freqToFreqList
      requires list.Linked() && list.Nodes() == [] && list !in lists
      modifies this`freqToFreqList, this`shape, this`cells, this`lists
      ensures ListsWell() && f in freqToFreqList
      ensures shape == old(shape)[f := []]
      ensures cells == old(cells) + (set n | n in list.chain) && lists == old(lists) + {list}
    {
      hide FreqList.Linked, FreqList.Nodes;
      assert list.Holds([]);
      freqToFreqList := freqToFreqList[f := list];
      shape := shape[f := []];
      lists := lists + {list};
      cells := cells + (set n | n in list.chain);
      OldListsHold(f);
    }

    /** The lists that were in the table before `f` are as they were. */
    twostate lemma OldListsHold(f: int)
      requires old(ListsWell()) && old(freqToFreqList).Keys <= freqToFreqList.Keys
      requires forall g | g in old(freqToFreqList) ::
        freqToFreqList[g] == old(freqToFreqList)[g] && g in shape && shape[g] == old(shape)[g]
      requires forall l | l in old(lists) :: l.chain == old(l.chain) && l.head == old(l.head) && l.tail == old(l.tail)
      requires forall n | n in old(cells) :: n.pre == old(n.pre) && n.next == old(n.next) && n.list == old(n.list)
      ensures forall g | g in old(freqToFreqList) :: freqToFreqList[g].Holds(shape[g])
    {
      forall g | g in old(freqToFreqList)
        ensures freqToFreqList[g].Holds(shape[g])
      {
        var other := freqToFreqList[g];
        assert old(other.Holds(shape[g]));
        assert forall n | n in other.chain :: n in old(cells);
        other.StaysLinked();
      }
    }

    /** Makes an empty list for frequency `f`. */
    method CreateList(f: int)
      requires ListsWell() && f !in freqToFreqList
      modifies this`freqToFreqList, this`shape, this`cells, this`lists
      ensures ListsWell() && f in freqToFreqList
      ensures shape == old(shape)[f := []]
      ensures old(cells) <= cells && old(lists) <= lists
      ensures forall n | n in cells && n !in old(cells) :: fresh(n)
      ensures forall l | l in lists && l !in old(lists) :: fresh(l)
    {
      hide *;
      var list := new FreqList<K, V>();
      Register(f, list);
    }

    /** Where a resident node lies, and what taking it out leaves. */
    lemma {:induction false} Located(node: Node<K, V>) returns (i: nat)
      requires Valid() && node.key in nodeMap && nodeMap[node.key] == node
      ensures node.freq in freqToFreqList && node.freq in shape
      ensures i < |shape[node.freq]| && shape[node.freq][i] == node
      ensures var left := shape[node.freq := shape[node.freq][..i] + shape[node.freq][i + 1..]];
        && MapWell(nodeMap, Freqs(), left, node)
        && KeyLists(left) == Lists()[node.freq := Without(ListAt(Lists(), node.freq), node.key)]
    {
      var f := node.freq;
      i :| 0 <= i < |shape[f]| && shape[f][i] == node;
      assert freqToFreqList[f].Holds(shape[f]);
      Removal(nodeMap, Freqs(), shape, f, i);
    }

    /** removeFromFreqList. */
    method RemoveFromFreqList(node: Node<K, V>)
      requires Valid() && node.key in nodeMap && nodeMap[node.key] == node
      modifies this`shape, lists`chain, cells`pre, cells`next, cells`list
      ensures ListsWell() && Owned() && MapWell(nodeMap, Freqs(), shape, node) && node.list == null
      ensures Lists() == old(Lists())[node.freq := Without(ListAt(old(Lists()), node.freq), node.key)]
      ensures Freqs() == old(Freqs()) && Values() == old(Values())
    {
      hide ListsWell, MapWell;
      ghost var i := Located(node);
      Unlink(node, node.freq, i);
      SameFields();
    }

    /** The list work of addToFreqList: finds or makes the list, then links the node. */
    method LinkInto(node: Node<K, V>, f: int)
      requires ListsWell() && node in cells && node.list == null
      modifies this`freqToFreqList, this`shape, this`cells, this`lists
      modifies lists`chain, cells`pre, cells`next, cells`list
      ensures ListsWell()
      ensures shape == old(shape)[f := ListAt(old(shape), f) + [node]]
      ensures old(cells) <= cells && old(lists) <= lists
      ensures forall n | n in cells && n !in old(cells) :: fresh(n)
      ensures forall l | l in lists && l !in old(lists) :: fresh(l)
    {
      hide FreqList.Holds;
      if f !in freqToFreqList {
        CreateList(f);
      }
      Link(node, f);
    }

    /** addToFreqList. */
    method AddToFreqList(node: Node<K, V>)
      requires ListsWell() && Owned() && MapWell(nodeMap, Freqs(), shape, node) && node.list == null
      requires node.key in nodeMap && nodeMap[node.key] == node
      modifies this`freqToFreqList, this`shape, this`cells, this`lists
      modifies lists`chain, cells`pre, cells`next, cells`list
      ensures Valid()
      ensures Lists() == old(Lists())[node.freq := ListAt(old(Lists()), node.freq) + [node.key]]
      ensures Freqs() == old(Freqs()) && Values() == old(Values())
      ensures old(cells) <= cells && old(lists) <= lists
      ensures forall n | n in cells && n !in old(cells) :: fresh(n)
      ensures forall l | l in lists && l !in old(lists) :: fresh(l)
    {
      hide ListsWell;
      Addition(nodeMap, Freqs(), shape, node);
      LinkInto(node, node.freq);
      SameFields();
    }

    twostate lemma FreqSet(k: K)
      requires nodeMap == old(nodeMap) && k in nodeMap
      requires forall x | x in nodeMap && x != k :: nodeMap[x].freq == old(nodeMap[x].freq)
      requires forall x | x in nodeMap :: nodeMap[x].value == old(nodeMap[x].value)
      ensures Freqs() == old(Freqs())[k := nodeMap[k].freq] && Values() == old(Values())
    {}

    /** Writes the frequency of a node that lies in no list. */
    method SetFreq(node: Node<K, V>, f: int)
      requires ListsWell() && Owned() && MapWell(nodeMap, Freqs(), shape, node)
      requires node.key in nodeMap && nodeMap[node.key] == node
      modifies node`freq
      ensures node.freq == f && Freqs() == old(Freqs())[node.key := f] && Values() == old(Values())
      ensures ListsWell() && MapWell(nodeMap, Freqs(), shape, node)
    {
      OutFreqFree(nodeMap, Freqs(), shape, node, f);
      node.freq := f;
      FreqSet(node.key);
    }

    /** Takes a resident node from the list of its frequency to that of `f`. */
    method Relist(node: Node<K, V>, f: int)
      requires Valid() && node.key in nodeMap && nodeMap[node.key] == node
      modifies this`freqToFreqList, this`shape, this`cells, this`lists
      modifies lists`chain, cells`pre, cells`next, cells`list, node`freq
      ensures Valid()
      ensures Index(Freqs(), Lists()) == Reindexed(old(Index(Freqs(), Lists())), node.key, f)
      ensures Values() == old(Values())
      ensures old(cells) <= cells && old(lists) <= lists
      ensures forall n | n in cells && n !in old(cells) :: fresh(n)
      ensures forall l | l in lists && l !in old(lists) :: fresh(l)
    {
      hide ListsWell, MapWell;
      RemoveFromFreqList(node);
      SetFreq(node, f);
      AddToFreqList(node);
    }

    /** updateMinFreq. */
    method UpdateMinFreq()
      requires Valid()
      modifies this`minFreq
      ensures minFreq == ScannedMin(Lists())
    {
      minFreq := INT8_MAX;
      var todo := freqToFreqList.Keys;
      while exists f :: f in todo
        decreases todo
        invariant todo <= freqToFreqList.Keys
        invariant minFreq <= INT8_MAX
        invariant minFreq == INT8_MAX || minFreq in Occupied(Lists())
        invariant forall f | f in Occupied(Lists()) && f !in todo :: minFreq <= f
      {
        var f :| f in todo;
        assert freqToFreqList[f].Holds(shape[f]);
        assert f in Occupied(Lists()) <==> shape[f] != [];
        var empty := freqToFreqList[f].IsEmpty();
        if !empty {
          minFreq := Min(minFreq, f);
        }
        todo := todo - {f};
      }
      ScanEnds(Lists(), minFreq);
      if minFreq == INT8_MAX {
        minFreq := 1;
      }
    }

    /** handleOverMaxAverageNum; `order` is the order of its pass over the key map. */
    method HandleOverMaxAverageNum() returns (ghost order: seq<K>)
      requires Valid()
      modifies this`minFreq, this`freqToFreqList, this`shape, this`cells, this`lists, lists, cells
      ensures Valid()
      ensures nodeMap != map[] ==> Enumerates(order, nodeMap.Keys)
      ensures Abs() == Aged(old(Abs()), order)
      ensures old(cells) <= cells && old(lists) <= lists
      ensures forall n | n in cells && n !in old(cells) :: fresh(n)
      ensures forall l | l in lists && l !in old(lists) :: fresh(l)
    {
      hide *;
      order := [];
      AbsIs();
      SizeOfValues();
      AgedIs(Abs(), order);
      if nodeMap == map[] { return; }
      order := AgeAll();
      AgedIs(old(Abs()), order);
      UpdateMinFreq();
      AbsIs();
    }

    /** The ageing loop over the key map. */
    method AgeAll() returns (ghost order: seq<K>)
      requires Valid()
      modifies this`freqToFreqList, this`shape, this`cells, this`lists, lists, cells
      ensures Valid()
      ensures Enumerates(order, nodeMap.Keys)
      ensures Index(Freqs(), Lists()) == AgedIndex(old(Index(Freqs(), Lists())), order, maxAverageNum)
      ensures Values() == old(Values())
      ensures old(cells) <= cells && old(lists) <= lists
      ensures forall n | n in cells && n !in old(cells) :: fresh(n)
      ensures forall l | l in lists && l !in old(lists) :: fresh(l)
    {
      StartOfPass(Index(Freqs(), Lists()), maxAverageNum);
      hide *;
      order := [];
      ghost var start := Index(Freqs(), Lists());
      var todo := nodeMap.Keys;
      ghost var done: set<K> := {};
      while exists k :: k in todo
        invariant todo !! done && todo + done == nodeMap.Keys
        invariant Enumerates(order, done)
        invariant Valid()
        invariant Index(Freqs(), Lists()) == AgedIndex(start, order, maxAverageNum)
        invariant Values() == old(Values())
        invariant old(cells) <= cells && old(lists) <= lists
        invariant forall n | n in cells && n !in old(cells) :: fresh(n)
        invariant forall l | l in lists && l !in old(lists) :: fresh(l)
        decreases todo
      {
        var k :| k in todo;
        AgedIndexNext(start, order, k, maxAverageNum);
        EnumeratesNext(order, done, k);
        AgeNext(k);
        order, todo, done := order + [k], todo - {k}, done + {k};
      }
      assert done == nodeMap.Keys;
    }

    /** One round of the ageing loop. */
    method AgeNext(k: K)
      requires Valid() && k in nodeMap
      modifies this`freqToFreqList, this`shape, this`cells, this`lists
      modifies lists, cells
      ensures Valid()
      ensures k in old(Freqs())
      ensures Index(Freqs(), Lists()) ==
        Reindexed(old(Index(Freqs(), Lists())), k, AgedFreq(maxAverageNum, old(Freqs())[k]))
      ensures Values() == old(Values())
      ensures old(cells) <= cells && old(lists) <= lists
      ensures forall n | n in cells && n !in old(cells) :: fresh(n)
      ensures forall l | l in lists && l !in old(lists) :: fresh(l)
    {
      hide ListsWell;
      var node := nodeMap[k];
      Relist(node, AgedFreq(maxAverageNum, node.freq));
    }

    lemma {:induction false} SizeOfValues()
      ensures |Values()| == |nodeMap|
      ensures Values() == map[] <==> nodeMap == map[]
    {
      assert Values().Keys == nodeMap.Keys;
      assert |Values().Keys| == |nodeMap.Keys|;
    }

    lemma {:induction false} FreqOf(k: K)
      requires k in nodeMap
      ensures k in Freqs() && Freqs()[k] == nodeMap[k].freq
    {}

    /** The counters of addFreqNum. */
    method CountOne()
      requires Valid()
      modifies this`curTotalNum, this`curAverageNum
      ensures Valid()
      ensures Abs() == Plus(old(Abs()))
    {
      hide *;
      SizeOfValues();
      AbsIs();
      PlusIs(Abs());
      curTotalNum := curTotalNum + 1;
      if nodeMap == map[] {
        curAverageNum := 0;
      } else {
        curAverageNum := Average(curTotalNum, |nodeMap|);
      }
      AbsIs();
    }

    /** addFreqNum. */
    method AddFreqNum() returns (ghost order: seq<K>)
      requires Valid()
      modifies this`minFreq, this`curTotalNum, this`curAverageNum
      modifies this`freqToFreqList, this`shape, this`cells, this`lists, lists, cells
      ensures Valid()
      ensures nodeMap != map[] ==> Enumerates(order, nodeMap.Keys)
      ensures Abs() == Counted(old(Abs()), order)
      ensures old(cells) <= cells && old(lists) <= lists
      ensures forall n | n in cells && n !in old(cells) :: fresh(n)
      ensures forall l | l in lists && l !in old(lists) :: fresh(l)
    {
      hide *;
      CountOne();
      order := AnOrder(nodeMap.Keys);
      AbsIs();
      if curAverageNum > maxAverageNum {
        order := HandleOverMaxAverageNum();
      }
      CountedIs(old(Abs()), order);
    }

    lemma {:induction false} AbsIs()
      ensures Abs() == Cache(capacity, maxAverageNum, minFreq, curAverageNum, curTotalNum, Values(), Freqs(), Lists())
    {}

    /** The minimum update of getInternal, after the move of a node away from `f`. */
    method BumpMin(f: int)
      requires Valid() && f in Lists()
      modifies this`minFreq
      ensures Valid()
      ensures Abs() == if f == old(minFreq) && Lists()[f] == [] then old(Abs()).(minFreq := old(minFreq) + 1) else old(Abs())
    {
      hide *;
      Emptied(f);
      AbsIs();
      var empty := freqToFreqList[f].IsEmpty();
      if f == minFreq && empty {
        minFreq := minFreq + 1;
      }
      AbsIs();
    }

    /** The part of getInternal before addFreqNum. */
    method Touch(node: Node<K, V>)
      requires Valid() && node.key in nodeMap && nodeMap[node.key] == node
      modifies this`minFreq, this`freqToFreqList, this`shape, this`cells, this`lists, lists
      modifies cells`pre, cells`next, cells`list, node`freq
      ensures Valid()
      ensures node.key in old(Freqs()) && Abs() == Touched(old(Abs()), node.key)
      ensures old(cells) <= cells && old(lists) <= lists
      ensures forall n | n in cells && n !in old(cells) :: fresh(n)
      ensures forall l | l in lists && l !in old(lists) :: fresh(l)
    {
      hide *;
      AbsIs();
      FreqOf(node.key);
      TouchedIs(Abs(), node.key);
      Relist(node, node.freq + 1);
      AbsIs();
      FreqOf(node.key);
      BumpMin(node.freq - 1);
    }

    /** getInternal. */
    method GetInternal(node: Node<K, V>) returns (value: V, ghost order: seq<K>)
      requires Valid() && node.key in nodeMap && nodeMap[node.key] == node
      modifies this`minFreq, this`curTotalNum, this`curAverageNum
      modifies this`freqToFreqList, this`shape, this`cells, this`lists, lists, cells
      ensures Valid()
      ensures value == old(node.value)
      ensures Enumerates(order, nodeMap.Keys)
      ensures node.key in old(Freqs()) && Abs() == Counted(Touched(old(Abs()), node.key), order)
      ensures old(cells) <= cells && old(lists) <= lists
      ensures forall n | n in cells && n !in old(cells) :: fresh(n)
      ensures forall l | l in lists && l !in old(lists) :: fresh(l)
    {
      hide *;
      InFootprint(node.key);
      value := node.value;
      Touch(node);
      order := AddFreqNum();
    }

    lemma {:induction false} InFootprint(k: K)
      requires Valid() && k in nodeMap
      ensures nodeMap[k] in cells && nodeMap[k].key == k
    {}

    /** Drops a node that lies in no list from the key map. */
    method Erase(node: Node<K, V>)
      requires ListsWell() && Owned() && MapWell(nodeMap, Freqs(), shape, node)
      requires node.key in nodeMap && nodeMap[node.key] == node
      modifies this`nodeMap
      ensures Valid()
      ensures nodeMap == old(nodeMap) - {node.key}
      ensures Freqs() == old(Freqs()) - {node.key} && Values() == old(Values()) - {node.key}
    {
      hide ListsWell, MapWell;
      EraseOut(nodeMap, Freqs(), shape, node);
      nodeMap := nodeMap - {node.key};
      assert Freqs() == old(Freqs()) - {node.key};
      assert Values() == old(Values()) - {node.key};
    }

    /** decreaseFreqNum. */
    method DecreaseFreqNum(num: int)
      requires Valid()
      modifies this`curTotalNum, this`curAverageNum
      ensures Valid()
      ensures Abs() == Minus(old(Abs()), num)
    {
      hide *;
      SizeOfValues();
      AbsIs();
      MinusIs(Abs(), num);
      curTotalNum := curTotalNum - num;
      if nodeMap == map[] {
        curAverageNum := 0;
      } else {
        curAverageNum := Average(curTotalNum, |nodeMap|);
      }
      AbsIs();
    }

    lemma {:induction false} HeadOf(f: int)
      requires Valid() && ListAt(Lists(), f) != []
      ensures f in freqToFreqList && freqToFreqList[f].Linked() && freqToFreqList[f].Nodes() != []
      ensures var n := freqToFreqList[f].Nodes()[0];
        n.key == ListAt(Lists(), f)[0] && n.key in nodeMap && nodeMap[n.key] == n && n.freq == f
    {
      assert freqToFreqList[f].Holds(shape[f]);
      assert shape[f][0] in shape[f];
    }

    /** kickOut; the list of the cached minimum must hold a node. */
    method KickOut()
      requires Valid() && ListAt(Lists(), minFreq) != []
      modifies this`shape, this`nodeMap, this`curTotalNum, this`curAverageNum, lists, cells
      ensures Valid()
      ensures KickedOut(old(Abs())) == Some(Abs())
      ensures nodeMap == old(nodeMap) - {ListAt(old(Lists()), minFreq)[0]}
    {
      hide *;
      AbsIs();
      HeadOf(minFreq);
      var node := freqToFreqList[minFreq].GetFirstNode();
      FreqOf(node.key);
      KickedOutIs(Abs());
      InFootprint(node.key);
      RemoveFromFreqList(node);
      Erase(node);
      AbsIs();
      DecreaseFreqNum(node.freq);
    }

    /** Enters a new node in the key map, as yet in no list. */
    method Enter(node: Node<K, V>)
      requires Valid() && node.key !in nodeMap && node.list == null && node !in cells
      modifies this`nodeMap, this`cells
      ensures ListsWell() && Owned() && MapWell(nodeMap, Freqs(), shape, node)
      ensures nodeMap == old(nodeMap)[node.key := node] && cells == old(cells) + {node}
      ensures Freqs() == old(Freqs())[node.key := node.freq] && Values() == old(Values())[node.key := node.value]
    {
      hide MapWell, FreqList.Holds;
      NewOut(nodeMap, Freqs(), shape, node, node.freq);
      nodeMap := nodeMap[node.key := node];
      cells := cells + {node};
      assert Freqs() == old(Freqs())[node.key := node.freq];
      assert Values() == old(Values())[node.key := node.value];
    }

    /** The capacity test of putInternal. */
    method MakeRoom()
      requires Valid()
      requires |nodeMap| == capacity ==> ListAt(Lists(), minFreq) != []
      modifies this`shape, this`nodeMap, this`curTotalNum, this`curAverageNum, lists, cells
      ensures Valid() && nodeMap.Keys <= old(nodeMap.Keys)
      ensures (if |old(Abs()).values| == capacity then KickedOut(old(Abs())) else Some(old(Abs()))) == Some(Abs())
    {
      hide *;
      SizeOfValues();
      AbsIs();
      if |nodeMap| == capacity {
        KickOut();
      }
    }

    /** The new node of putInternal: into the key map, then into its list. */
    method AddNew(key: K, value: V)
      requires Valid() && key !in nodeMap
      modifies this`nodeMap
      modifies this`freqToFreqList, this`shape, this`cells, this`lists
      modifies lists`chain, cells`pre, cells`next, cells`list
      ensures Valid() && nodeMap != map[]
      ensures Abs() == WithNew(old(Abs()), key, value)
      ensures old(cells) <= cells && old(lists) <= lists
      ensures forall n | n in cells && n !in old(cells) :: fresh(n)
      ensures forall l | l in lists && l !in old(lists) :: fresh(l)
    {
      hide *;
      AbsIs();
      WithNewIs(Abs(), key, value);
      var node := EnterNew(key, value);
      FreqOf(key);
      AddToFreqList(node);
      AbsIs();
    }

    /** A new node in the key map, as yet in no list. */
    method EnterNew(key: K, value: V) returns (node: Node<K, V>)
      requires Valid() && key !in nodeMap
      modifies this`nodeMap, this`cells
      ensures fresh(node) && node.key == key && node.value == value && node.freq == 1 && node.list == null
      ensures ListsWell() && Owned() && MapWell(nodeMap, Freqs(), shape, node)
      ensures nodeMap == old(nodeMap)[key := node] && cells == old(cells) + {node}
      ensures Freqs() == old(Freqs())[key := 1] && Values() == old(Values())[key := value]
    {
      hide *;
      node := new Node(key, value);
      Enter(node);
    }

    /** putInternal up to addFreqNum. */
    method Insert(key: K, value: V)
      requires Valid() && key !in nodeMap
      requires |nodeMap| == capacity ==> ListAt(Lists(), minFreq) != []
      modifies this`curTotalNum, this`curAverageNum, this`nodeMap
      modifies this`freqToFreqList, this`shape, this`cells, this`lists, lists, cells
      ensures Valid() && nodeMap != map[]
      ensures Inserted(old(Abs()), key, value) == Some(Abs())
      ensures old(cells) <= cells && old(lists) <= lists
      ensures forall n | n in cells && n !in old(cells) :: fresh(n)
      ensures forall l | l in lists && l !in old(lists) :: fresh(l)
    {
      hide *;
      AbsIs();
      InsertedIs(Abs(), key, value);
      MakeRoom();
      AddNew(key, value);
    }

    /** putInternal. */
    method PutInternal(key: K, value: V) returns (ghost order: seq<K>)
      requires Valid() && key !in nodeMap
      requires |nodeMap| == capacity ==> ListAt(Lists(), minFreq) != []
      modifies this`minFreq, this`curTotalNum, this`curAverageNum, this`nodeMap
      modifies this`freqToFreqList, this`shape, this`cells, this`lists, lists, cells
      ensures Valid()
      ensures Inserted(old(Abs()), key, value).Some?
      ensures Enumerates(order, Inserted(old(Abs()), key, value).value.freqs.Keys)
      ensures var counted := Counted(Inserted(old(Abs()), key, value).value, order);
        Abs() == counted.(minFreq := Min(counted.minFreq, 1))
      ensures old(cells) <= cells && old(lists) <= lists
      ensures forall n | n in cells && n !in old(cells) :: fresh(n)
      ensures forall l | l in lists && l !in old(lists) :: fresh(l)
    {
      hide *;
      Insert(key, value);
      KeysOfFreqs();
      AbsIs();
      order := AddFreqNum();
      AbsIs();
      minFreq := Min(minFreq, 1);
      AbsIs();
    }

    lemma {:induction false} KeysOfFreqs()
      ensures Freqs().Keys == nodeMap.Keys && Values().Keys == nodeMap.Keys
    {}

    /** put; where a node must go, the list of the cached minimum must hold one. */
    method Put(key: K, value: V) returns (ghost order: seq<K>)
      requires Valid()
      requires capacity != 0 && key !in nodeMap && |nodeMap| == capacity ==> ListAt(Lists(), minFreq) != []
      modifies this`minFreq, this`curTotalNum, this`curAverageNum, this`nodeMap
      modifies this`freqToFreqList, this`shape, this`cells, this`lists, lists, cells
      ensures Valid()
      ensures LegalStep(old(Abs()), LfuModel.Put(key, value, order))
      ensures Step(old(Abs()), LfuModel.Put(key, value, order)) == Some(Abs())
      ensures old(cells) <= cells && old(lists) <= lists
      ensures forall n | n in cells && n !in old(cells) :: fresh(n)
      ensures forall l | l in lists && l !in old(lists) :: fresh(l)
    {
      hide *;
      order := [];
      AbsIs();
      KeysOfFreqs();
      PutIs(Abs(), key, value, order);
      if capacity == 0 { return; }
      if key in nodeMap {
        InFootprint(key);
        SetValue(nodeMap[key], value);
        FreqOf(key);
        var v;
        v, order := GetInternal(nodeMap[key]);
      } else {
        order := PutInternal(key, value);
      }
      PutIs(old(Abs()), key, value, order);
    }

    method SetValue(node: Node<K, V>, value: V)
      requires Valid() && node.key in nodeMap && nodeMap[node.key] == node
      modifies node`value
      ensures Valid() && Abs() == old(Abs()).(values := old(Values())[node.key := value])
    {
      node.value := value;
      assert Values() == old(Values())[node.key := value];
    }

    /** get. */
    method Get(key: K) returns (found: bool, value: V, ghost order: seq<K>)
      requires Valid()
      modifies this`minFreq, this`curTotalNum, this`curAverageNum
      modifies this`freqToFreqList, this`shape, this`cells, this`lists, lists, cells
      ensures Valid()
      ensures found <==> key in old(Values())
      ensures found ==> value == old(Values())[key]
      ensures LegalStep(old(Abs()), LfuModel.Get(key, order))
      ensures Step(old(Abs()), LfuModel.Get(key, order)) == Some(Abs())
      ensures old(cells) <= cells && old(lists) <= lists
      ensures forall n | n in cells && n !in old(cells) :: fresh(n)
      ensures forall l | l in lists && l !in old(lists) :: fresh(l)
    {
      hide *;
      order := [];
      AbsIs();
      KeysOfFreqs();
      ValueOf(key);
      if key in nodeMap {
        InFootprint(key);
        FreqOf(key);
        value, order := GetInternal(nodeMap[key]);
        found := true;
      } else {
        found, value := false, *;
      }
      GetIs(old(Abs()), key, order);
    }

    lemma {:induction false} ValueOf(k: K)
      ensures k in nodeMap <==> k in Values()
      ensures k in nodeMap ==> Values()[k] == nodeMap[k].value
    {}

    /** purge: the counters and the cached minimum keep their values. */
    method Purge()
      requires Valid()
      modifies this`nodeMap, this`freqToFreqList, this`shape, this`cells, this`lists
      ensures Valid() && cells == {} && lists == {}
      ensures Step(old(Abs()), LfuModel.Purge) == Some(Abs())
    {
      nodeMap, freqToFreqList := map[], map[];
      shape, cells, lists := map[], {}, {};
    }

    lemma {:induction false} Emptied(f: int)
      requires Valid() && f in Lists()
      ensures f in freqToFreqList && freqToFreqList[f].Linked()
      ensures freqToFreqList[f].Nodes() == [] <==> Lists()[f] == []
    {
      assert freqToFreqList[f].Holds(shape[f]);
    }
  }

  /** Some order in which a key set can be listed. */
  ghost function AnOrder<K>(keys: set<K>): (order: seq<K>)
    ensures Enumerates(order, keys)
    decreases keys
  {
    if exists k :: k in keys then
      var k :| k in keys;
      var rest := AnOrder(keys - {k});
      assert ([k] + rest)[1..] == rest;
      [k] + rest
    else []
  }

  lemma {:induction false} EraseOut<K(0), V(0)>(nodes: map<K, Node<K, V>>, freqs: map<K, int>,
                                                shape: map<int, seq<Node<K, V>>>, node: Node<K, V>)
    requires MapWell(nodes, freqs, shape, node)
    requires node.key in nodes && nodes[node.key] == node
    ensures MapWell(nodes - {node.key}, freqs - {node.key}, shape, null)
  {
    forall g, n: Node<K, V> | g in shape && n in shape[g] ensures n.key != node.key {
      assert nodes[n.key] == n;
    }
  }

  lemma {:induction false} NewOut<K(0), V(0)>(nodes: map<K, Node<K, V>>, freqs: map<K, int>,
                                              shape: map<int, seq<Node<K, V>>>, node: Node<K, V>, f: int)
    requires MapWell(nodes, freqs, shape, null) && node.key !in nodes
    ensures MapWell(nodes[node.key := node], freqs[node.key := f], shape, node)
  {
    forall k | k in nodes ensures nodes[k] != node {
      assert nodes[k].key == k;
    }
  }

  ghost function WithNew<K, V>(c: Cache<K, V>, k: K, v: V): Cache<K, V> {
    c.(values := c.values[k := v], freqs := c.freqs[k := 1], lists := c.lists[1 := ListAt(c.lists, 1) + [k]])
  }

  lemma {:induction false} WithNewIs<K, V>(c: Cache<K, V>, k: K, v: V)
    ensures WithNew(c, k, v)
         == c.(values := c.values[k := v], freqs := c.freqs[k := 1], lists := c.lists[1 := ListAt(c.lists, 1) + [k]])
  {}

  lemma {:induction false} InsertedIs<K, V>(c: Cache<K, V>, k: K, v: V)
    ensures Inserted(c, k, v) ==
      match (if |c.values| == c.capacity then KickedOut(c) else Some(c))
      case None => None
      case Some(r) => Some(WithNew(r, k, v))
  {}

  lemma {:induction false} PutIs<K, V>(c: Cache<K, V>, k: K, v: V, order: seq<K>)
    requires c.values.Keys == c.freqs.Keys
    ensures var op := LfuModel.Put(k, v, order);
      && (c.capacity == 0 ==> LegalStep(c, op) && Step(c, op) == Some(c))
      && (c.capacity != 0 && k in c.freqs ==>
            var t := Touched(c.(values := c.values[k := v]), k);
            && Step(c, op) == Some(Counted(t, order))
            && (Enumerates(order, c.freqs.Keys) ==> LegalStep(c, op)))
      && (c.capacity != 0 && k !in c.freqs && Inserted(c, k, v).Some? ==>
            var counted := Counted(Inserted(c, k, v).value, order);
            && Step(c, op) == Some(counted.(minFreq := Min(counted.minFreq, 1)))
            && (Enumerates(order, Inserted(c, k, v).value.freqs.Keys) ==> LegalStep(c, op)))
  {
    if k in c.freqs {
      assert Touched(c.(values := c.values[k := v]), k).freqs.Keys == c.freqs.Keys;
    }
  }

  lemma {:induction false} GetIs<K, V>(c: Cache<K, V>, k: K, order: seq<K>)
    ensures var op: Op<K, V> := LfuModel.Get(k, order);
      && (k !in c.freqs ==> LegalStep(c, op) && Step(c, op) == Some(c))
      && (k in c.freqs ==>
            && Step(c, op) == Some(Counted(Touched(c, k), order))
            && (Enumerates(order, c.freqs.Keys) ==> LegalStep(c, op)))
  {
    if k in c.freqs {
      assert Touched(c, k).freqs.Keys == c.freqs.Keys;
    }
  }

  /** decreaseFreqNum. */
  ghost function Minus<K, V>(c: Cache<K, V>, num: int): Cache<K, V> {
    c.(total := c.total - num, average := Average(c.total - num, |c.values|))
  }

  lemma {:induction false} MinusIs<K, V>(c: Cache<K, V>, num: int)
    ensures Minus(c, num) == c.(total := c.total - num, average := Average(c.total - num, |c.values|))
    ensures |c.values| == 0 ==> Minus(c, num).average == 0
  {}

  lemma {:induction false} KickedOutIs<K, V>(c: Cache<K, V>)
    requires ListAt(c.lists, c.minFreq) != [] && ListAt(c.lists, c.minFreq)[0] in c.freqs
    ensures var k := ListAt(c.lists, c.minFreq)[0];
      var f := c.freqs[k];
      KickedOut(c) == Some(Minus(c.(values := c.values - {k}, freqs := c.freqs - {k},
                                    lists := c.lists[f := Without(ListAt(c.lists, f), k)]), f))
  {}

  /** The first lines of addFreqNum. */
  ghost function Plus<K, V>(c: Cache<K, V>): Cache<K, V> {
    c.(total := c.total + 1, average := Average(c.total + 1, |c.values|))
  }

  lemma {:induction false} CountedIs<K, V>(c: Cache<K, V>, order: seq<K>)
    ensures Counted(c, order) == if Plus(c).average > Plus(c).maxAverage then Aged(Plus(c), order) else Plus(c)
  {}

  lemma {:induction false} AgedIs<K, V>(c: Cache<K, V>, order: seq<K>)
    ensures var aged := AgedIndex(Index(c.freqs, c.lists), order, c.maxAverage);
      Aged(c, order) ==
        if c.values == map[] then c
        else c.(freqs := aged.freqs, lists := aged.lists, minFreq := ScannedMin(aged.lists))
  {}

  lemma {:induction false} PlusIs<K, V>(c: Cache<K, V>)
    ensures Plus(c) == c.(total := c.total + 1, average := Average(c.total + 1, |c.values|))
    ensures |c.values| == 0 ==> Plus(c).average == 0
  {}

  lemma {:induction false} TouchedIs<K, V>(c: Cache<K, V>, k: K)
    requires k in c.freqs
    ensures var f := c.freqs[k];
      var x := Reindexed(Index(c.freqs, c.lists), k, f + 1);
      var moved := c.(freqs := x.freqs, lists := x.lists);
      && f in moved.lists && k in moved.freqs && moved.freqs[k] == f + 1
      && Touched(c, k) == if f == c.minFreq && moved.lists[f] == [] then moved.(minFreq := c.minFreq + 1) else moved
  {}

  lemma {:induction false} ScanEnds<K>(lists: map<int, seq<K>>, m: int)
    requires m <= INT8_MAX && (m == INT8_MAX || m in Occupied(lists))
    requires forall f | f in Occupied(lists) :: m <= f
    ensures ScannedMin(lists) == if m == INT8_MAX then 1 else m
  {
    var below := set f | f in Occupied(lists) && f < INT8_MAX;
    if m != INT8_MAX { assert m in below; }
  }

  lemma {:induction false} StartOfPass<K>(x: Index<K>, m: int)
    ensures Enumerates<K>([], {}) && AgedIndex(x, [], m) == x
  {}

  lemma {:induction false} AgedIndexNext<K>(x: Index<K>, order: seq<K>, k: K, m: int)
    ensures var before := AgedIndex(x, order, m);
      AgedIndex(x, order + [k], m) ==
        if k in before.freqs then Reindexed(before, k, AgedFreq(m, before.freqs[k])) else before
    decreases |order|
  {
    if order == [] {
      assert [k][1..] == [];
    } else {
      assert (order + [k])[1..] == order[1..] + [k];
      var first := order[0];
      AgedIndexNext(if first in x.freqs then Reindexed(x, first, AgedFreq(m, x.freqs[first])) else x,
                    order[1..], k, m);
    }
  }

  lemma {:induction false} EnumeratesNext<K>(order: seq<K>, keys: set<K>, k: K)
    requires Enumerates(order, keys) && k !in keys
    ensures Enumerates(order + [k], keys + {k})
  {
    NoDupConcat(order, [k]);
  }

  lemma {:induction false} RemovedMembers<T>(s: seq<T>, i: nat)
    requires i < |s| && forall j | 0 <= j < |s| && j != i :: s[j] != s[i]
    ensures forall x | x in s[..i] + s[i + 1..] :: x in s && x != s[i]
    ensures forall x | x in s && x != s[i] :: x in s[..i] + s[i + 1..]
  {
    assert s == s[..i] + [s[i]] + s[i + 1..];
  }

  lemma {:induction false} KeysRemoved<K(0), V(0)>(ns: seq<Node<K, V>>, i: nat)
    requires i < |ns| && forall j | 0 <= j < |ns| && j != i :: ns[j].key != ns[i].key
    ensures Keys(ns[..i] + ns[i + 1..]) == Without(Keys(ns), ns[i].key)
  {
    WithoutAt(Keys(ns), i);
    assert Keys(ns[..i] + ns[i + 1..]) == Keys(ns)[..i] + Keys(ns)[i + 1..];
  }
}
