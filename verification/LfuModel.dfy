/**
 The least-frequently-used cache as a value: every node's frequency, the list of keys
 kept for each frequency, the cached minimum and the running total. Each function is one
 member of KLfuCache read as a state transformer; `order` is the order in which the
 aging pass happens to visit the hash map.
 */
module LfuModel {
  import opened Options
  import opened Seqs

  type Key(==, 0, !new)
  type Value(==, 0, !new)

  /** "Nothing found yet" in the search for the minimum frequency. */
  const INT8_MAX := 127

  datatype Entry = Entry(value: Value, freq: int)

  datatype Cache = Cache(
    capacity: int,
    maxAverage: int,
    minFreq: int,
    average: int,
    total: int,
    nodes: map<Key, Entry>,
    lists: Lists)

  function Fresh(capacity: int, maxAverage: int): Cache {
    Cache(capacity, maxAverage, INT8_MAX, 0, 0, map[], map[])
  }

  function Min(a: int, b: int): int { if a < b then a else b }

  function Max(a: int, b: int): int { if a < b then b else a }

  /** C division by two: truncates toward zero. */
  function Half(m: int): int { if m >= 0 then m / 2 else -((-m) / 2) }

  // ---------------------------------------------------------------- list moves

  type Lists = map<int, seq<Key>>

  function TakeOut(lists: Lists, f: int, k: Key): Lists
    requires f in lists
  {
    lists[f := Without(lists[f], k)]
  }

  /** Append `k` to the list of frequency `f`, creating the list if need be. */
  function PutIn(lists: Lists, f: int, k: Key): Lists {
    lists[f := (if f in lists then lists[f] else []) + [k]]
  }

  /** The cache can take `k` out of the list of its own frequency. */
  predicate HasList(c: Cache, k: Key) {
    k in c.nodes && c.nodes[k].freq in c.lists
  }

  /** Take `k` out of its list, give it frequency `f`, append it to that list. */
  function Move(c: Cache, k: Key, f: int): Cache
    requires HasList(c, k)
  {
    var e := c.nodes[k];
    c.(nodes := c.nodes[k := e.(freq := f)], lists := PutIn(TakeOut(c.lists, e.freq, k), f, k))
  }

  // ---------------------------------------------------------------- aging

  function Aged(maxAverage: int, f: int): int {
    if f - Half(maxAverage) < 1 then 1 else f - Half(maxAverage)
  }

  /** The aging pass over the keys in `order`, last key last. */
  function AgeAll(c: Cache, order: seq<Key>): (r: Cache)
    requires AllListed(c)
    requires forall k | k in order :: k in c.nodes
    ensures AllListed(r) && r.nodes.Keys == c.nodes.Keys && r.maxAverage == c.maxAverage
  {
    if order == [] then c else
      var n := |order| - 1;
      assert forall k | k in order[..n] :: k in order;
      var p := AgeAll(c, order[..n]);
      var k := order[n];
      Move(p, k, Aged(c.maxAverage, p.nodes[k].freq))
  }

  predicate AllListed(c: Cache) {
    forall k | k in c.nodes :: c.nodes[k].freq in c.lists
  }

  /** The frequencies whose list holds some key. */
  ghost function Used(lists: Lists): set<int> {
    set f | f in lists && lists[f] != []
  }

  /** `m` is the least element of `fs`, or INT8_MAX if that is smaller still. */
  ghost predicate IsMinCapped(fs: set<int>, m: int) {
    m <= INT8_MAX && (m == INT8_MAX || m in fs) && forall f | f in fs :: m <= f
  }

  lemma {:induction false} MinCappedExists(fs: set<int>)
    ensures exists m :: IsMinCapped(fs, m)
  {
    if g: int :| g in fs {
      MinCappedExists(fs - {g});
      var m :| IsMinCapped(fs - {g}, m);
      assert forall f | f in fs :: f == g || f in fs - {g};
      assert IsMinCapped(fs, Min(g, m));
    } else {
      assert IsMinCapped(fs, INT8_MAX);
    }
  }

  ghost function MinCapped(fs: set<int>): (m: int)
    ensures IsMinCapped(fs, m)
  {
    MinCappedExists(fs);
    var m :| IsMinCapped(fs, m);
    m
  }

  ghost function UpdateMin(c: Cache): Cache {
    var m := MinCapped(Used(c.lists));
    c.(minFreq := if m == INT8_MAX then 1 else m)
  }

  function Average(total: int, count: nat): int {
    if count == 0 then 0 else total / count
  }

  /** Counting an access pushes the average over the limit. */
  predicate Overflows(c: Cache) {
    Average(c.total + 1, |c.nodes|) > c.maxAverage
  }

  function Ticked(c: Cache): Cache {
    c.(total := c.total + 1, average := Average(c.total + 1, |c.nodes|))
  }

  ghost function AddFreqNum(c: Cache, order: seq<Key>): Cache
    requires AllListed(c) && IsOrder(order, c.nodes.Keys)
  {
    if Overflows(c) && c.nodes != map[] then UpdateMin(AgeAll(Ticked(c), order)) else Ticked(c)
  }

  // ---------------------------------------------------------------- operations

  /** If the list of `f` was the least used one and is now empty, the minimum moves up. */
  function Bumped(c: Cache, f: int): Cache {
    if f == c.minFreq && f in c.lists && c.lists[f] == [] then c.(minFreq := c.minFreq + 1) else c
  }

  /** The move of getInternal and its adjustment of the minimum. */
  function Promote(c: Cache, k: Key): Cache
    requires HasList(c, k)
  {
    Bumped(Move(c, k, c.nodes[k].freq + 1), c.nodes[k].freq)
  }

  function WithValue(c: Cache, k: Key, v: Value): Cache
    requires k in c.nodes
  {
    c.(nodes := c.nodes[k := c.nodes[k].(value := v)])
  }

  /** kickOut reads the first node of the list for minFreq; there has to be one. */
  predicate CanEvict(c: Cache) {
    c.minFreq in c.lists && c.lists[c.minFreq] != [] && HasList(c, c.lists[c.minFreq][0])
  }

  function Victim(c: Cache): Key
    requires CanEvict(c)
  {
    c.lists[c.minFreq][0]
  }

  /** Take `k` out of its list and forget its node. */
  function Cut(c: Cache, k: Key): Cache
    requires HasList(c, k)
  {
    c.(nodes := c.nodes - {k}, lists := TakeOut(c.lists, c.nodes[k].freq, k))
  }

  function Discount(c: Cache, num: int): Cache {
    c.(total := c.total - num, average := Average(c.total - num, |c.nodes|))
  }

  function Evict(c: Cache): Cache
    requires CanEvict(c)
  {
    Discount(Cut(c, Victim(c)), c.nodes[Victim(c)].freq)
  }

  function Insert(c: Cache, k: Key, v: Value): Cache {
    c.(nodes := c.nodes[k := Entry(v, 1)], lists := PutIn(c.lists, 1, k))
  }

  function FloorMin(c: Cache): Cache { c.(minFreq := Min(c.minFreq, 1)) }

  /** The state just before addFreqNum runs. */
  function Touched(c: Cache, op: Op): Cache
    requires Ready(c, op)
  {
    match op
    case Put(k, v) =>
      if c.capacity == 0 then c
      else if k in c.nodes then Promote(WithValue(c, k, v), k)
      else Insert(if |c.nodes| == c.capacity then Evict(c) else c, k, v)
    case Get(k) => if k in c.nodes then Promote(c, k) else c
    case Purge => c.(nodes := map[], lists := map[])
  }

  datatype Op = Put(key: Key, value: Value) | Get(key: Key) | Purge

  /** What the code takes for granted when it runs `op`. */
  predicate Ready(c: Cache, op: Op) {
    && (op.Get? && op.key in c.nodes ==> HasList(c, op.key))
    && (op.Put? && op.key in c.nodes ==> HasList(c, op.key))
    && (op.Put? && c.capacity != 0 && op.key !in c.nodes && |c.nodes| == c.capacity ==> CanEvict(c))
  }

  /** The operation counts an access (and so may trigger aging). */
  predicate Counts(c: Cache, op: Op) {
    match op
    case Put(_, _) => c.capacity != 0
    case Get(k) => k in c.nodes
    case Purge => false
  }

  ghost function Apply(c: Cache, op: Op, order: seq<Key>): Cache
    requires Ready(c, op) && AllListed(Touched(c, op))
    requires IsOrder(order, Touched(c, op).nodes.Keys)
  {
    var d := Touched(c, op);
    if !Counts(c, op) then d else
      var e := AddFreqNum(d, order);
      if op.Put? && op.key !in c.nodes then FloorMin(e) else e
  }

  /** What get returns. */
  function Lookup(c: Cache, k: Key): Option<Value> {
    if k in c.nodes then Some(c.nodes[k].value) else None
  }
}
