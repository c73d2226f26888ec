/**
 The cache as it is implemented: heap nodes in doubly linked lists with two sentinels
 each, a hash map from keys to nodes and one from frequencies to lists. Every method is
 proved to do on the heap what the corresponding function of LfuModel says.
 */
module LfuCache {
  import opened Options
  import opened Seqs
  import opened LfuModel
  import opened LfuInvariant
  import opened LfuRuns

  class Node {
    var freq: int
    var key: Key
    var value: Value
    var pre: Node?
    var next: Node?
    /** The list this node is linked into. */
    ghost var owner: FreqList?

    constructor (key: Key, value: Value)
      ensures this.freq == 1 && this.key == key && this.value == value
      ensures pre == null && next == null && owner == null
    {
      this.freq, this.key, this.value := 1, key, value;
      pre, next, owner := null, null, null;
    }

    ghost predicate Linked()
      reads this
    {
      pre != null && next != null
    }

    /** A sentinel: key and value keep their default. */
    constructor Sentinel()
      ensures freq == 1 && pre == null && next == null && owner == null
    {
      freq, pre, next, owner := 1, null, null, null;
      key, value := *, *;
    }
  }

  class FreqList {
    const freq: int
    const head: Node
    const tail: Node
    /** All nodes of the list in order, the two sentinels included. */
    ghost var chain: seq<Node>
    /** The same nodes as a set. */
    ghost var nodes: set<Node>

    ghost predicate Valid()
      reads this, nodes
    {
      && |chain| >= 2 && chain[0] == head && chain[|chain| - 1] == tail
      && (forall i | 0 <= i < |chain| :: chain[i] in nodes)
      && (forall i | 0 <= i < |chain| - 1 :: chain[i].next == chain[i + 1])
      && (forall i | 0 < i < |chain| :: chain[i].pre == chain[i - 1])
      && (forall x | x in nodes :: x.owner == this)
      && head.pre == null && tail.next == null
    }

    /** Following `next` never comes back: the last node has no successor. */
    lemma ChainDistinct()
      requires Valid()
      ensures Distinct(chain)
    {
      forall i, j | 0 <= i < j < |chain| ensures chain[i] != chain[j] {
        NoRepeat(i, j);
      }
    }

    lemma {:induction false} NoRepeat(i: nat, j: nat)
      requires Valid() && i < j < |chain|
      ensures chain[i] != chain[j]
      decreases |chain| - j
    {
      assert chain[i].next == chain[i + 1];
      if j < |chain| - 1 {
        NoRepeat(i + 1, j + 1);
        assert chain[j].next == chain[j + 1];
      }
    }

    constructor (n: int)
      ensures Valid() && freq == n && chain == [head, tail] && nodes == {head, tail} && fresh(nodes)
    {
      freq := n;
      var h := new Node.Sentinel();
      var t := new Node.Sentinel();
      h.next := t;
      t.pre := h;
      head, tail := h, t;
      chain, nodes := [h, t], {h, t};
      new;
      head.owner, tail.owner := this, this;
    }

    function IsEmpty(): (empty: bool)
      requires Valid()
      reads this, nodes
      ensures empty <==> |chain| == 2
    {
      ChainDistinct();
      assert chain[0].next == chain[1];
      head.next == tail
    }

    function GetFirstNode(): (node: Node)
      requires Valid()
      reads this, nodes
      ensures node == chain[1]
    {
      assert chain[0].next == chain[1];
      head.next
    }

    /** Link `node` in before the tail sentinel. */
    method AddNode(node: Node)
      requires Valid() && node.owner == null
      modifies `chain, `nodes, nodes`pre, nodes`next, node`pre, node`next, node`owner
      ensures Valid() && nodes == old(nodes) + {node}
      ensures chain == old(chain)[..|old(chain)| - 1] + [node, tail]
    {
      ChainDistinct();
      var n := |chain| - 1;
      assert chain[n].pre == chain[n - 1];
      node.pre := tail.pre;
      node.next := tail;
      tail.pre.next := node;
      tail.pre := node;
      node.owner := this;
      chain, nodes := chain[..n] + [node, tail], nodes + {node};
    }

    /** Unlink `node`, which is at place `i` of the chain; a node that is not linked on both
        sides (a sentinel, or a node in no list) is left alone. */
    method RemoveNode(node: Node, ghost i: nat)
      requires Valid() && (node.Linked() ==> 0 < i < |chain| - 1 && chain[i] == node)
      modifies `chain, `nodes, nodes`pre, nodes`next, node`owner
      ensures Valid()
      ensures old(node.Linked()) ==>
        && node.owner == null && node.pre == null && node.next == null
        && chain == old(chain)[..i] + old(chain)[i + 1..] && nodes == old(nodes) - {node}
      ensures old(!node.Linked()) ==> chain == old(chain) && nodes == old(nodes) && node.owner == old(node.owner)
    {
      if node.pre == null || node.next == null {
        return;
      }
      ChainDistinct();
      assert chain[i].next == chain[i + 1] && chain[i].pre == chain[i - 1];
      node.pre.next := node.next;
      node.next.pre := node.pre;
      node.pre := null;
      node.next := null;
      node.owner := null;
      chain, nodes := chain[..i] + chain[i + 1..], nodes - {node};
    }
  }

  /** `x` carries the key, value and frequency the model says. */
  ghost predicate NodeOk(x: Node, k: Key, e: Entry)
    reads x`key, x`value, x`freq
  {
    x.key == k && e == Entry(x.value, x.freq)
  }

  /** Between its sentinels the chain holds the nodes of `keys`, in order. */
  ghost predicate ListOk(l: FreqList, f: int, keys: seq<Key>, nodes: map<Key, Node>)
    reads l, l.nodes
  {
    && l.Valid() && l.freq == f && |l.chain| == |keys| + 2
    && forall i | 0 <= i < |keys| :: keys[i] in nodes && l.chain[i + 1] == nodes[keys[i]]
  }

  /** Some order of the elements, as a walk over an unordered container gives. */
  method AnyOrder<T(==)>(s: set<T>) returns (order: seq<T>)
    ensures IsOrder(order, s)
  {
    order := [];
    var rest := s;
    while rest != {}
      invariant rest <= s && IsOrder(order, s - rest)
    {
      var x :| x in rest;
      order, rest := order + [x], rest - {x};
    }
    assert s - rest == s;
  }

  /** One more step of the aging pass. */
  lemma AgeNext(c: Cache, order: seq<Key>, i: nat)
    requires WellLinked(c) && IsOrder(order, c.nodes.Keys) && i < |order|
    ensures
      var p, k := AgeAll(c, order[..i]), order[i];
      && HasList(p, k) && Linked(p.nodes, p.lists)
      && AgeAll(c, order[..i + 1]) == Move(p, k, Aged(c.maxAverage, p.nodes[k].freq))
  {
    assert order[..i + 1][..i] == order[..i];
    AgeAllKeeps(c, order[..i]);
  }

  lemma PromoteIsMove(c: Cache, k: Key, f: int)
    requires HasList(c, k) && f == c.nodes[k].freq
    ensures Promote(c, k) == Bumped(Move(c, k, f + 1), f) && f in Move(c, k, f + 1).lists
  {
  }

  lemma PromoteLinked(c: Cache, k: Key)
    requires WellLinked(c) && HasList(c, k)
    ensures WellLinked(Promote(c, k))
  {
    MoveKeeps(c, k, c.nodes[k].freq + 1);
  }

  /** putInternal works on a well-linked cache, evicting or not. */
  lemma MissLinked(c: Cache, b: Cache, k: Key, v: Value)
    requires WellLinked(c) && c.capacity != 0 && k !in c.nodes && Ready(c, Put(k, v))
    requires b == if |c.nodes| == c.capacity then Evict(c) else c
    ensures k !in b.nodes && Touched(c, Put(k, v)) == Insert(b, k, v) && WellLinked(Insert(b, k, v))
  {
    if |c.nodes| == c.capacity {
      EvictKeeps(c);
    }
    InsertKeeps(b, k, v);
  }

  /** Operations that leave the cache as it is. */
  lemma NothingHappens(c: Cache, op: Op) returns (order: seq<Key>)
    requires WellLinked(c) && ((op.Get? && op.key !in c.nodes) || (op.Put? && c.capacity == 0))
    requires Ready(c, op)
    ensures Next(c, Call(op, order), c)
  {
    order := OrderExists(c.nodes.Keys);
  }

  /** A get or put that finds its key. */
  lemma HitIsNext(c: Cache, op: Op, s: Cache, order: seq<Key>)
    requires WellLinked(c) && Counts(c, op) && HasList(c, op.key)
    requires s == if op.Put? then WithValue(c, op.key, op.value) else c
    requires WellLinked(Promote(s, op.key)) && IsOrder(order, Promote(s, op.key).nodes.Keys)
    ensures Next(c, Call(op, order), AddFreqNum(Promote(s, op.key), order))
  {
    assert Touched(c, op) == Promote(s, op.key);
  }

  /** A put that does not find its key. */
  lemma MissIsNext(c: Cache, b: Cache, k: Key, v: Value, order: seq<Key>)
    requires WellLinked(c) && c.capacity != 0 && k !in c.nodes && Ready(c, Put(k, v))
    requires b == if |c.nodes| == c.capacity then Evict(c) else c
    requires WellLinked(Insert(b, k, v)) && IsOrder(order, Insert(b, k, v).nodes.Keys)
    ensures
      var e := AddFreqNum(Insert(b, k, v), order);
      Next(c, Call(Put(k, v), order), FloorMin(e))
  {
    assert Touched(c, Put(k, v)) == Insert(b, k, v);
  }

  /** `k` is at place `i` of the list of its frequency, and nowhere else in it. */
  ghost predicate InPlace(nodes: map<Key, Entry>, lists: Lists, k: Key, i: nat) {
    k in nodes &&
    var f := nodes[k].freq;
    && f in lists && i < |lists[f]| && lists[f][i] == k
    && TakeOut(lists, f, k) == lists[f := lists[f][..i] + lists[f][i + 1..]]
  }

  /** Where `k` is in its list. */
  lemma Place(nodes: map<Key, Entry>, lists: Lists, k: Key) returns (i: nat)
    requires Linked(nodes, lists) && k in nodes
    ensures InPlace(nodes, lists, k, i)
  {
    var f := nodes[k].freq;
    LinkedMember(nodes, lists, k);
    LinkedDistinct(nodes, lists, f);
    i :| 0 <= i < |lists[f]| && lists[f][i] == k;
    WithoutAt(lists[f], i);
  }

  class KLfuCache {
    const capacity: int
    const maxAverageNum: int
    var minFreq: int
    var curAverageNum: int
    var curTotalNum: int
    var nodeMap: map<Key, Node>
    var freqLists: map<int, FreqList>

    /** All nodes and all lists the cache has made. */
    ghost var cells: set<Node>
    ghost var chains: set<FreqList>

    /** The heap holds exactly these nodes, in exactly these lists. */
    ghost predicate Holds(nodes: map<Key, Entry>, lists: Lists)
      reads `nodeMap, `freqLists, `cells, `chains, cells, chains
    {
      && nodes.Keys == nodeMap.Keys && lists.Keys == freqLists.Keys
      && (forall k | k in nodeMap :: nodeMap[k] in cells && NodeOk(nodeMap[k], k, nodes[k]))
      && (forall f | f in freqLists ::
           freqLists[f] in chains && freqLists[f].nodes <= cells && ListOk(freqLists[f], f, lists[f], nodeMap))
    }

    /** The fields and the heap show the state `c`. */
    ghost predicate Shows(c: Cache)
      reads `nodeMap, `freqLists, `cells, `chains, cells, chains, `minFreq, `curAverageNum, `curTotalNum
    {
      && c == Cache(capacity, maxAverageNum, minFreq, curAverageNum, curTotalNum, c.nodes, c.lists)
      && Holds(c.nodes, c.lists)
    }

    /** What the cache owns beyond what it owned before is newly allocated. */
    twostate predicate OnlyNew()
      reads this
    {
      (forall o | o in cells :: o in old(cells) || fresh(o)) && forall o | o in chains :: o in old(chains) || fresh(o)
    }

    constructor (capacity: int, maxAverageNum: int)
      ensures Shows(Fresh(capacity, maxAverageNum)) && cells == {} && chains == {}
    {
      this.capacity, this.maxAverageNum := capacity, maxAverageNum;
      minFreq, curAverageNum, curTotalNum := INT8_MAX, 0, 0;
      nodeMap, freqLists := map[], map[];
      cells, chains := {}, {};
    }

    /** `node` is the cache's node for its key. */
    ghost predicate Owns(node: Node)
      reads this, node
    {
      node.key in nodeMap && nodeMap[node.key] == node
    }

    method RemoveFromFreqList(node: Node, ghost i: nat, ghost nodes: map<Key, Entry>, ghost lists: Lists)
      requires Holds(nodes, lists) && Owns(node) && InPlace(nodes, lists, node.key, i)
      modifies cells, chains
      ensures Holds(nodes, TakeOut(lists, old(node.freq), old(node.key)))
      ensures node.owner == null && node.key == old(node.key) && OnlyNew()
    {
      assert NodeOk(node, node.key, nodes[node.key]);
      Unlink(node, node.freq, i, nodes, lists);
    }

    method Unlink(node: Node, ghost f: int, ghost i: nat, ghost nodes: map<Key, Entry>, ghost lists: Lists)
      requires Holds(nodes, lists) && Owns(node) && node.freq == f && f in lists
      requires i < |lists[f]| && lists[f][i] == node.key
      modifies cells, chains
      ensures Holds(nodes, lists[f := lists[f][..i] + lists[f][i + 1..]])
      ensures node.owner == null && node.key == old(node.key)
    {
      ghost var l, ks := freqLists[f], lists[f];
      assert ListOk(l, f, ks, nodeMap);
      assert l.chain[i + 1] == node && l.chain[i + 1].next == l.chain[i + 2] && l.chain[i + 1].pre == l.chain[i];
      freqLists[node.freq].RemoveNode(node, i + 1);
      assert ListOk(l, f, ks[..i] + ks[i + 1..], nodeMap);
    }

    method SetFreq(node: Node, freq: int, ghost nodes: map<Key, Entry>, ghost lists: Lists)
      requires Holds(nodes, lists) && Owns(node)
      modifies node`freq
      ensures node.freq == freq && OnlyNew()
      ensures Holds(nodes[node.key := nodes[node.key].(freq := freq)], lists)
    {
      node.freq := freq;
      forall f | f in freqLists ensures ListOk(freqLists[f], f, lists[f], nodeMap) {
        assert old(ListOk(freqLists[f], f, lists[f], nodeMap));
      }
      forall k | k in nodeMap ensures NodeOk(nodeMap[k], k, nodes[node.key := nodes[node.key].(freq := freq)][k]) {
        assert old(NodeOk(nodeMap[k], k, nodes[k]));
      }
    }

    method AddToFreqList(node: Node, ghost nodes: map<Key, Entry>, ghost lists: Lists)
      requires Holds(nodes, lists) && Owns(node) && node.owner == null
      modifies `freqLists, `cells, `chains, cells, chains
      ensures OnlyNew() && node.key == old(node.key)
      ensures Holds(nodes, PutIn(lists, old(node.freq), old(node.key)))
    {
      ghost var ls := if node.freq in lists then lists else lists[node.freq := []];
      assert PutIn(lists, node.freq, node.key) == ls[node.freq := ls[node.freq] + [node.key]];
      if node.freq !in freqLists {
        NewList(node.freq, nodes, lists);
      }
      Append(node, node.freq, nodes, ls);
    }

    method NewList(f: int, ghost nodes: map<Key, Entry>, ghost lists: Lists)
      requires Holds(nodes, lists) && f !in freqLists
      modifies `freqLists, `cells, `chains
      ensures Holds(nodes, lists[f := []]) && OnlyNew()
    {
      var l := new FreqList(f);
      freqLists := freqLists[f := l];
      cells, chains := cells + l.nodes, chains + {l};
    }

    method Append(node: Node, ghost f: int, ghost nodes: map<Key, Entry>, ghost lists: Lists)
      requires Holds(nodes, lists) && Owns(node) && node.owner == null && node.freq == f && f in lists
      modifies cells, chains
      ensures Holds(nodes, lists[f := lists[f] + [node.key]]) && node.key == old(node.key)
    {
      ghost var l, ks := freqLists[f], lists[f];
      assert ListOk(l, f, ks, nodeMap);
      freqLists[node.freq].AddNode(node);
      assert ListOk(l, f, ks + [node.key], nodeMap);
    }

    /** Take `node` out of its list, set its frequency, append it to the list for that. */
    method Requeue(node: Node, freq: int, ghost k: Key, ghost i: nat, ghost c: Cache) returns (ghost d: Cache)
      requires Shows(c) && Owns(node) && node.key == k && InPlace(c.nodes, c.lists, k, i)
      modifies `freqLists, `cells, `chains, cells, chains
      ensures Shows(d) && OnlyNew() && d == Move(c, k, freq)
    {
      assert NodeOk(node, k, c.nodes[k]);
      ghost var left := TakeOut(c.lists, c.nodes[k].freq, k);
      ghost var nodes := c.nodes[k := c.nodes[k].(freq := freq)];
      RemoveFromFreqList(node, i, c.nodes, c.lists);
      SetFreq(node, freq, c.nodes, left);
      AddToFreqList(node, nodes, left);
      d := Move(c, k, freq);
    }

    /** The list object of a frequency is empty exactly if the model's list is. */
    lemma EmptyList(f: int, nodes: map<Key, Entry>, lists: Lists)
      requires Holds(nodes, lists) && f in freqLists
      ensures f in lists && freqLists[f].Valid() && (freqLists[f].IsEmpty() <==> lists[f] == [])
    {
      assert ListOk(freqLists[f], f, lists[f], nodeMap);
    }

    /** Find the least frequency whose list is not empty, starting from INT8_MAX. */
    method ScanMin(ghost nodes: map<Key, Entry>, ghost lists: Lists) returns (least: int)
      requires Holds(nodes, lists)
      ensures IsMinCapped(Used(lists), least)
    {
      least := INT8_MAX;
      var order := AnyOrder(freqLists.Keys);
      for i := 0 to |order|
        invariant least <= INT8_MAX && (least == INT8_MAX || least in Used(lists))
        invariant forall j | 0 <= j < i :: order[j] in Used(lists) ==> least <= order[j]
      {
        assert order[i] in order;
        EmptyList(order[i], nodes, lists);
        if !freqLists[order[i]].IsEmpty() {
          least := Min(least, order[i]);
        }
      }
      forall f | f in Used(lists) ensures least <= f {
        assert f in order;
      }
    }

    method UpdateMinFreq(ghost c: Cache)
      requires Shows(c)
      modifies `minFreq
      ensures Shows(UpdateMin(c))
    {
      minFreq := ScanMin(c.nodes, c.lists);
      if minFreq == INT8_MAX {
        minFreq := 1;
      }
    }

    /** The aging pass reaches the `i`-th key. */
    method AgeOne(keys: seq<Key>, i: nat, ghost c: Cache)
      requires WellLinked(c) && IsOrder(keys, c.nodes.Keys) && i < |keys|
      requires Shows(AgeAll(c, keys[..i]))
      modifies `freqLists, `cells, `chains, cells, chains
      ensures Shows(AgeAll(c, keys[..i + 1])) && OnlyNew()
    {
      AgeNext(c, keys, i);
      ghost var p := AgeAll(c, keys[..i]);
      var node := nodeMap[keys[i]];
      assert NodeOk(node, keys[i], p.nodes[keys[i]]);
      var lowered := node.freq - Half(maxAverageNum);
      ghost var place := Place(p.nodes, p.lists, keys[i]);
      ghost var d := Requeue(node, if lowered < 1 then 1 else lowered, keys[i], place, p);
    }

    /** The walk of the aging pass over the nodes. */
    method AgeWalk(keys: seq<Key>, ghost c: Cache)
      requires Shows(c) && WellLinked(c) && IsOrder(keys, c.nodes.Keys)
      modifies `freqLists, `cells, `chains, cells, chains
      ensures Shows(AgeAll(c, keys)) && OnlyNew()
    {
      for i := 0 to |keys|
        invariant Shows(AgeAll(c, keys[..i])) && OnlyNew()
      {
        AgeOne(keys, i, c);
      }
      assert keys[..|keys|] == keys;
    }

    method AgeAndScan(keys: seq<Key>, ghost c: Cache)
      requires Shows(c) && WellLinked(c) && IsOrder(keys, c.nodes.Keys)
      modifies `freqLists, `minFreq, `cells, `chains, cells, chains
      ensures Shows(UpdateMin(AgeAll(c, keys))) && OnlyNew()
    {
      AgeWalk(keys, c);
      UpdateMinFreq(AgeAll(c, keys));
    }

    /** The aging pass; `order` is the order in which the hash map is walked. */
    method HandleOverMaxAverageNum(ghost c: Cache) returns (ghost d: Cache, ghost order: seq<Key>)
      requires Shows(c) && WellLinked(c)
      modifies `freqLists, `minFreq, `cells, `chains, cells, chains
      ensures IsOrder(order, c.nodes.Keys) && OnlyNew() && Shows(d)
      ensures d == if c.nodes == map[] then c else UpdateMin(AgeAll(c, order))
      ensures forall k | k in c.nodes :: k in d.nodes && Lowered(maxAverageNum, c.nodes[k].freq, d.nodes[k].freq)
    {
      var keys := AnyOrder(nodeMap.Keys);
      order, d := keys, c;
      if |keys| == 0 {
        assert c.nodes.Keys == {};
      } else {
        assert keys[0] in c.nodes.Keys;
        d := UpdateMin(AgeAll(c, keys));
        AgeAllLowers(c, keys);
        AgeAndScan(keys, c);
      }
    }

    method Tick(ghost c: Cache)
      requires Shows(c)
      modifies `curTotalNum, `curAverageNum
      ensures Shows(Ticked(c))
    {
      assert |nodeMap| == |nodeMap.Keys| == |c.nodes.Keys| == |c.nodes|;
      curTotalNum := curTotalNum + 1;
      if |nodeMap| == 0 {
        curAverageNum := 0;
      } else {
        curAverageNum := curTotalNum / |nodeMap|;
      }
    }

    method AddFreqNum(ghost c: Cache) returns (ghost d: Cache, ghost order: seq<Key>)
      requires Shows(c) && WellLinked(c)
      modifies `freqLists, `minFreq, `curTotalNum, `curAverageNum, `cells, `chains, cells, chains
      ensures IsOrder(order, c.nodes.Keys) && OnlyNew() && Shows(d)
      ensures d == LfuModel.AddFreqNum(c, order)
    {
      Tick(c);
      d := Ticked(c);
      assert curAverageNum == d.average && d.maxAverage == maxAverageNum;
      if curAverageNum > maxAverageNum {
        d, order := HandleOverMaxAverageNum(d);
      } else {
        order := OrderExists(c.nodes.Keys);
      }
    }

    /** If the list of `f` was the least used one and is now empty, the minimum moves up. */
    method BumpMin(f: int, ghost c: Cache) returns (ghost d: Cache)
      requires Shows(c) && f in c.lists
      modifies `minFreq
      ensures Shows(d) && OnlyNew() && d == Bumped(c, f)
    {
      EmptyList(f, c.nodes, c.lists);
      if f == minFreq && freqLists[f].IsEmpty() {
        minFreq := minFreq + 1;
      }
      d := Bumped(c, f);
    }

    /** getInternal up to the point where it counts the access. */
    method MoveUp(node: Node, ghost k: Key, ghost i: nat, ghost c: Cache) returns (ghost d: Cache)
      requires Shows(c) && Owns(node) && node.key == k && InPlace(c.nodes, c.lists, k, i)
      modifies `freqLists, `minFreq, `cells, `chains, cells, chains
      ensures Shows(d) && OnlyNew() && d == Promote(c, k)
    {
      assert NodeOk(node, k, c.nodes[k]);
      var f := node.freq;
      PromoteIsMove(c, k, f);
      d := Requeue(node, f + 1, k, i, c);
      d := BumpMin(f, d);
    }

    method GetInternal(node: Node, ghost k: Key, ghost c: Cache)
      returns (value: Value, ghost d: Cache, ghost order: seq<Key>)
      requires Shows(c) && WellLinked(c) && Owns(node) && node.key == k && HasList(c, k)
      modifies `freqLists, `minFreq, `curTotalNum, `curAverageNum, `cells, `chains, cells, chains
      ensures value == c.nodes[k].value && OnlyNew() && Shows(d)
      ensures WellLinked(Promote(c, k)) && IsOrder(order, Promote(c, k).nodes.Keys)
      ensures d == LfuModel.AddFreqNum(Promote(c, k), order)
    {
      assert NodeOk(node, k, c.nodes[k]);
      value := node.value;
      PromoteLinked(c, k);
      ghost var i := Place(c.nodes, c.lists, k);
      d := MoveUp(node, k, i, c);
      d, order := AddFreqNum(d);
    }

    /** nodeMap_.erase, once the node is in no list. */
    method Forget(k: Key, ghost nodes: map<Key, Entry>, ghost lists: Lists)
      requires Holds(nodes, lists) && k in nodeMap && Linked(nodes - {k}, lists)
      modifies `nodeMap
      ensures Holds(nodes - {k}, lists)
    {
      forall f, i | f in lists && 0 <= i < |lists[f]| ensures lists[f][i] != k {
        LinkedBack(nodes - {k}, lists, f, lists[f][i]);
      }
      nodeMap := nodeMap - {k};
      forall f | f in freqLists ensures ListOk(freqLists[f], f, lists[f], nodeMap) {
        assert old(ListOk(freqLists[f], f, lists[f], nodeMap));
      }
    }

    /** The first node of the list for the cached minimum is the victim's. */
    lemma FirstIsVictim(c: Cache)
      requires Shows(c) && CanEvict(c)
      ensures minFreq in freqLists && freqLists[minFreq].Valid()
      ensures
        var node := freqLists[minFreq].GetFirstNode();
        Owns(node) && node.key == Victim(c) && node.freq == c.nodes[Victim(c)].freq
    {
      assert ListOk(freqLists[minFreq], minFreq, c.lists[minFreq], nodeMap);
      var node := freqLists[minFreq].GetFirstNode();
      assert NodeOk(node, Victim(c), c.nodes[Victim(c)]);
    }

    method DecreaseFreqNum(num: int, ghost c: Cache)
      requires Shows(c)
      modifies `curTotalNum, `curAverageNum
      ensures Shows(Discount(c, num))
    {
      assert |nodeMap| == |nodeMap.Keys| == |c.nodes.Keys| == |c.nodes|;
      curTotalNum := curTotalNum - num;
      if |nodeMap| == 0 {
        curAverageNum := 0;
      } else {
        curAverageNum := curTotalNum / |nodeMap|;
      }
    }

    /** Unlink a node and erase its key. */
    method DropNode(node: Node, ghost k: Key, ghost i: nat, ghost c: Cache)
      requires Shows(c) && Owns(node) && node.key == k && InPlace(c.nodes, c.lists, k, i)
      requires Linked(c.nodes - {k}, TakeOut(c.lists, c.nodes[k].freq, k))
      modifies `nodeMap, cells, chains
      ensures Shows(Cut(c, k))
    {
      assert NodeOk(node, k, c.nodes[k]);
      RemoveFromFreqList(node, i, c.nodes, c.lists);
      Forget(node.key, c.nodes, TakeOut(c.lists, c.nodes[k].freq, k));
    }

    method KickOut(ghost c: Cache)
      requires Shows(c) && WellLinked(c) && CanEvict(c)
      modifies `nodeMap, `curTotalNum, `curAverageNum, cells, chains
      ensures Shows(Evict(c))
    {
      EvictKeeps(c);
      FirstIsVictim(c);
      var node := freqLists[minFreq].GetFirstNode();
      var freq := node.freq;
      ghost var i := Place(c.nodes, c.lists, Victim(c));
      DropNode(node, Victim(c), i, c);
      DecreaseFreqNum(freq, Cut(c, Victim(c)));
    }

    /** Make a node of frequency 1 for a key that has none. */
    method NewNode(k: Key, v: Value, ghost nodes: map<Key, Entry>, ghost lists: Lists) returns (node: Node)
      requires Holds(nodes, lists) && k !in nodes
      modifies `nodeMap, `cells
      ensures OnlyNew() && node.owner == null
      ensures Owns(node) && node.key == k && node.freq == 1
      ensures Holds(nodes[k := Entry(v, 1)], lists)
    {
      node := new Node(k, v);
      nodeMap := nodeMap[k := node];
      cells := cells + {node};
      forall f | f in freqLists ensures ListOk(freqLists[f], f, lists[f], nodeMap) {
        assert old(ListOk(freqLists[f], f, lists[f], nodeMap));
      }
    }

    method SetValue(k: Key, v: Value, ghost c: Cache) returns (node: Node)
      requires Shows(c) && k in c.nodes
      modifies cells, chains
      ensures Shows(WithValue(c, k, v)) && Owns(node) && node.key == k
    {
      node := nodeMap[k];
      assert NodeOk(node, k, c.nodes[k]);
      node.value := v;
      forall f | f in freqLists ensures ListOk(freqLists[f], f, c.lists[f], nodeMap) {
        assert old(ListOk(freqLists[f], f, c.lists[f], nodeMap));
      }
      forall j | j in nodeMap ensures NodeOk(nodeMap[j], j, WithValue(c, k, v).nodes[j]) {
        assert old(NodeOk(nodeMap[j], j, c.nodes[j]));
      }
    }

    /** put of a key that is cached. */
    method PutHit(k: Key, v: Value, ghost c: Cache) returns (ghost d: Cache, ghost order: seq<Key>)
      requires Shows(c) && WellLinked(c) && HasList(c, k) && capacity != 0
      modifies `freqLists, `minFreq, `curTotalNum, `curAverageNum, `cells, `chains, cells, chains
      ensures Shows(d) && OnlyNew()
      ensures Next(c, Call(Op.Put(k, v), order), d)
    {
      ghost var s := WithValue(c, k, v);
      assert WellLinked(s);
      var node := SetValue(k, v, c);
      var value;
      value, d, order := GetInternal(node, k, s);
      HitIsNext(c, Op.Put(k, v), s, order);
    }

    /** The end of putInternal: the new node has frequency 1. */
    method LowerMin(ghost c: Cache)
      requires Shows(c)
      modifies `minFreq
      ensures Shows(FloorMin(c))
    {
      minFreq := Min(minFreq, 1);
    }

    method EvictIfFull(ghost c: Cache) returns (ghost d: Cache)
      requires Shows(c) && WellLinked(c) && (|c.nodes| == c.capacity ==> CanEvict(c))
      modifies `nodeMap, `curTotalNum, `curAverageNum, cells, chains
      ensures Shows(d) && d == if |c.nodes| == c.capacity then Evict(c) else c
    {
      assert |nodeMap| == |nodeMap.Keys| == |c.nodes.Keys| == |c.nodes|;
      d := c;
      if |nodeMap| == capacity {
        KickOut(c);
        d := Evict(c);
      }
    }

    /** Link a new node, count the access, and note that there is a node of frequency 1. */
    method LinkCounted(node: Node, ghost k: Key, ghost b: Cache) returns (ghost order: seq<Key>)
      requires Shows(b) && Owns(node) && node.owner == null && node.freq == 1 && node.key == k
      requires WellLinked(b.(lists := PutIn(b.lists, 1, k)))
      modifies `freqLists, `minFreq, `curTotalNum, `curAverageNum, `cells, `chains, cells, chains
      ensures IsOrder(order, b.nodes.Keys) && OnlyNew()
      ensures Shows(FloorMin(LfuModel.AddFreqNum(b.(lists := PutIn(b.lists, 1, k)), order)))
    {
      AddToFreqList(node, b.nodes, b.lists);
      ghost var e;
      e, order := AddFreqNum(b.(lists := PutIn(b.lists, 1, k)));
      LowerMin(e);
    }

    method InsertCounted(k: Key, v: Value, ghost b: Cache) returns (ghost order: seq<Key>)
      requires Shows(b) && k !in b.nodes && WellLinked(Insert(b, k, v))
      modifies `nodeMap, `freqLists, `minFreq, `curTotalNum, `curAverageNum, `cells, `chains, cells, chains
      ensures IsOrder(order, Insert(b, k, v).nodes.Keys) && OnlyNew()
      ensures Shows(FloorMin(LfuModel.AddFreqNum(Insert(b, k, v), order)))
    {
      ghost var n := b.(nodes := b.nodes[k := Entry(v, 1)]);
      assert Insert(b, k, v) == n.(lists := PutIn(n.lists, 1, k));
      var node := NewNode(k, v, b.nodes, b.lists);
      order := LinkCounted(node, k, n);
    }

    method PutInternal(k: Key, v: Value, ghost c: Cache) returns (ghost d: Cache, ghost order: seq<Key>)
      requires Shows(c) && WellLinked(c) && k !in c.nodes && capacity != 0 && Ready(c, Op.Put(k, v))
      modifies `nodeMap, `freqLists, `minFreq, `curTotalNum, `curAverageNum, `cells, `chains, cells, chains
      ensures Shows(d) && OnlyNew()
      ensures Next(c, Call(Op.Put(k, v), order), d)
    {
      ghost var b := EvictIfFull(c);
      MissLinked(c, b, k, v);
      assert cells == old(cells) && chains == old(chains);
      order := InsertCounted(k, v, b);
      assert OnlyNew();
      d := FloorMin(LfuModel.AddFreqNum(Insert(b, k, v), order));
      MissIsNext(c, b, k, v, order);
    }

    /** The public operations. `c` is the state before and `d` the state after; `order` is
        the order in which the aging pass, if it ran, walked the nodes. */
    method Put(k: Key, v: Value, ghost c: Cache) returns (ghost d: Cache, ghost order: seq<Key>)
      requires Shows(c) && WellLinked(c) && Ready(c, Op.Put(k, v))
      modifies `nodeMap, `freqLists, `minFreq, `curTotalNum, `curAverageNum, `cells, `chains, cells, chains
      ensures Shows(d) && OnlyNew()
      ensures Next(c, Call(Op.Put(k, v), order), d)
    {
      if capacity == 0 {
        order := NothingHappens(c, Op.Put(k, v));
        d := c;
      } else if k in nodeMap {
        d, order := PutHit(k, v, c);
      } else {
        d, order := PutInternal(k, v, c);
      }
    }

    method GetHit(k: Key, ghost c: Cache) returns (value: Value, ghost d: Cache, ghost order: seq<Key>)
      requires Shows(c) && WellLinked(c) && k in c.nodes
      modifies `freqLists, `minFreq, `curTotalNum, `curAverageNum, `cells, `chains, cells, chains
      ensures Shows(d) && OnlyNew() && value == c.nodes[k].value
      ensures Next(c, Call(Op.Get(k), order), d)
    {
      assert NodeOk(nodeMap[k], k, c.nodes[k]);
      value, d, order := GetInternal(nodeMap[k], k, c);
      HitIsNext(c, Op.Get(k), c, order);
    }

    method Get(k: Key, ghost c: Cache) returns (value: Option<Value>, ghost d: Cache, ghost order: seq<Key>)
      requires Shows(c) && WellLinked(c)
      modifies `freqLists, `minFreq, `curTotalNum, `curAverageNum, `cells, `chains, cells, chains
      ensures Shows(d) && OnlyNew() && value == Lookup(c, k)
      ensures Next(c, Call(Op.Get(k), order), d)
    {
      if k in nodeMap {
        var v;
        v, d, order := GetHit(k, c);
        value := Some(v);
      } else {
        order := NothingHappens(c, Op.Get(k));
        value, d := None, c;
      }
    }

    /** Drops all entries but keeps the minimum and the total. */
    method Purge(ghost c: Cache) returns (ghost d: Cache)
      requires Shows(c)
      modifies `nodeMap, `freqLists
      ensures Shows(d) && Next(c, Call(Op.Purge, []), d)
    {
      nodeMap, freqLists := map[], map[];
      d := c.(nodes := map[], lists := map[]);
    }
  }
}
