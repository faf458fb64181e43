/**
 The artwork cache: a map and a recency list, and the shrink loop that fills it.

 The list elements are shared between the map and the list, so a hit moves and updates the one
 element both refer to.
 */
module ArtworkCache {
  import opened Sequences
  import opened Wire

  const CAPACITY := 5
  const MAX_ARTWORK := 48 * 1024
  const MAX_DIMENSION := 512
  const MIN_DIMENSION := 64
  const MAX_PIXELS := 16_000_000

  type Key = string
  type Pair = (Key, Bytes)

  // ---- Association lists, most recent first ----

  function Without(pairs: seq<Pair>, key: Key): (r: seq<Pair>)
    ensures |r| <= |pairs|
  {
    if pairs == [] then []
    else if pairs[0].0 == key then Without(pairs[1..], key)
    else [pairs[0]] + Without(pairs[1..], key)
  }

  function Lookup(pairs: seq<Pair>, key: Key): Option<Bytes> {
    if pairs == [] then None
    else if pairs[0].0 == key then Some(pairs[0].1)
    else Lookup(pairs[1..], key)
  }

  function Front(pairs: seq<Pair>, key: Key, data: Bytes): (r: seq<Pair>)
    ensures r != []
  {
    [(key, data)] + Without(pairs, key)
  }

  function First(pairs: seq<Pair>, n: nat): seq<Pair> {
    if |pairs| <= n then pairs else pairs[..n]
  }

  ghost predicate Distinct(pairs: seq<Pair>) {
    forall i, j :: 0 <= i < j < |pairs| ==> pairs[i].0 != pairs[j].0
  }

  lemma {:induction false} WithoutIndex(pairs: seq<Pair>, i: nat)
    requires i < |pairs| && Distinct(pairs)
    ensures Without(pairs, pairs[i].0) == pairs[..i] + pairs[i + 1..]
    ensures Lookup(pairs, pairs[i].0) == Some(pairs[i].1)
    decreases |pairs|
  {
    var rest := pairs[1..];
    if i == 0 {
      WithoutAbsent(rest, pairs[0].0);
    } else {
      assert pairs[0].0 != pairs[i].0 && rest[i - 1] == pairs[i];
      WithoutIndex(rest, i - 1);
      assert pairs[..i] == [pairs[0]] + rest[..i - 1] && pairs[i + 1..] == rest[i..];
    }
  }

  lemma {:induction false} WithoutAbsent(pairs: seq<Pair>, key: Key)
    requires forall i :: 0 <= i < |pairs| ==> pairs[i].0 != key
    ensures Without(pairs, key) == pairs && Lookup(pairs, key) == None
    decreases |pairs|
  {
    if pairs != [] {
      WithoutAbsent(pairs[1..], key);
    }
  }

  // ---- The cache ----

  class Element {
    const key: Key
    var data: Bytes

    constructor (key: Key, data: Bytes)
      ensures this.key == key && this.data == data
    {
      this.key, this.data := key, data;
    }
  }

  /** The elements in `order` hold `contents`. */
  ghost predicate Holds(order: seq<Element>, contents: seq<Pair>)
    reads order
  {
    |order| == |contents| &&
    forall i :: 0 <= i < |order| ==> contents[i] == (order[i].key, order[i].data)
  }

  function Moved<T>(s: seq<T>, i: nat): (r: seq<T>)
    requires i < |s|
    ensures |r| == |s| && r[0] == s[i]
  {
    [s[i]] + s[..i] + s[i + 1..]
  }

  lemma MovedMembers<T>(s: seq<T>, i: nat)
    requires i < |s|
    ensures forall x :: x in Moved(s, i) <==> x in s
  {
    var r := Moved(s, i);
    forall x | x in s ensures x in r {
      var j :| 0 <= j < |s| && s[j] == x;
      assert r[if j < i then j + 1 else if j == i then 0 else j] == x;
    }
  }

  lemma MovedItems<T>(s: seq<T>, i: nat)
    requires i < |s|
    ensures forall j :: 0 <= j < |s| ==> Moved(s, i)[j] == s[if j == 0 then i else if j <= i then j - 1 else j]
  {
  }

  lemma MovedParts<T>(s: seq<T>, i: nat)
    requires i < |s|
    ensures Moved(s, i) == [s[i]] + s[..i] + s[i + 1..]
    ensures Moved(s, i) == [s[i]] + (s[..i] + s[i + 1..])
  {
  }

  lemma HoldsMoved(order: seq<Element>, contents: seq<Pair>, i: nat)
    requires Holds(order, contents) && i < |order|
    ensures Holds(Moved(order, i), Moved(contents, i))
  {
    MovedItems(order, i);
    MovedItems(contents, i);
  }

  lemma DistinctMoved(pairs: seq<Pair>, i: nat)
    requires Distinct(pairs) && i < |pairs|
    ensures Distinct(Moved(pairs, i))
  {
    MovedItems(pairs, i);
  }

  lemma HoldsPushed(order: seq<Element>, contents: seq<Pair>, element: Element)
    requires Holds(order, contents)
    ensures Holds([element] + order, [(element.key, element.data)] + contents)
  {
  }

  lemma DistinctPushed(pairs: seq<Pair>, pair: Pair)
    requires Distinct(pairs) && forall i :: 0 <= i < |pairs| ==> pairs[i].0 != pair.0
    ensures Distinct([pair] + pairs)
  {
  }

  class ArtworkLRU {
    var items: map<Key, Element>
    var order: seq<Element>
    ghost var contents: seq<Pair>
    ghost var Repr: set<object>

    /** The map and the list refer to the same elements, which hold `contents`. */
    ghost predicate Consistent(limit: nat)
      reads this, Repr
    {
      && this in Repr && |contents| == |order| <= limit
      && (forall e :: e in order ==> e in Repr && e.key in items && items[e.key] == e)
      && (forall k :: k in items ==> items[k] in order && items[k].key == k)
      && Holds(order, contents)
      && Distinct(contents)
    }

    ghost predicate Valid()
      reads this, Repr
    {
      Consistent(CAPACITY)
    }

    constructor ()
      ensures Valid() && fresh(Repr) && contents == []
    {
      items, order, contents, Repr := map[], [], [], {this};
    }

    /** Moves an element to the front of the list. */
    method MoveToFront(element: Element)
      requires Valid() && element in order
      modifies this`order, this`contents
      ensures Valid() && order != [] && order[0] == element
      ensures contents == Front(old(contents), element.key, element.data)
      ensures Lookup(old(contents), element.key) == Some(element.data)
    {
      hide Holds, Distinct, Lookup, Without, Moved;
      var i :| 0 <= i < |order| && order[i] == element;
      HoldsAt(order, contents, i);
      WithoutIndex(contents, i);
      HoldsMoved(order, contents, i);
      DistinctMoved(contents, i);
      MovedMembers(order, i);
      MovedParts(order, i);
      MovedParts(contents, i);
      order := [element] + order[..i] + order[i + 1..];
      contents := Moved(contents, i);
    }

    /** A hit makes its key the most recent and returns its data; a miss changes nothing. */
    method Get(key: Key) returns (r: Option<Bytes>)
      requires Valid()
      modifies this`order, this`contents
      ensures Valid() && r == Lookup(old(contents), key)
      ensures contents == if r.Some? then Front(old(contents), key, r.value) else old(contents)
    {
      if key !in items {
        Absent(key);
        return None;
      }
      var element := items[key];
      MoveToFront(element);
      return Some(element.data);
    }

    lemma Absent(key: Key)
      requires Valid() && key !in items
      ensures Without(contents, key) == contents && Lookup(contents, key) == None
    {
      KeyAbsent(key);
      WithoutAbsent(contents, key);
    }

    /** The key becomes the most recent with the new data; the oldest key makes room if needed. */
    method Add(key: Key, data: Bytes)
      requires Valid()
      modifies Repr
      ensures Valid() && fresh(Repr - old(Repr))
      ensures contents == First(Front(old(contents), key, data), CAPACITY)
    {
      hide Holds, Distinct, Lookup, Without;
      if key in items {
        var element := items[key];
        MoveToFront(element);
        Replace(element, data);
      } else {
        Absent(key);
        Insert(key, data);
        if |order| > CAPACITY {
          Evict();
        }
      }
    }

    /** Gives the front element new data. */
    method Replace(element: Element, data: Bytes)
      requires Valid() && order != [] && order[0] == element && contents != []
      modifies this`contents, element
      ensures Valid() && contents == [(element.key, data)] + old(contents)[1..]
    {
      assert forall i :: 0 < i < |order| ==> order[i] != element by {
        forall i | 0 < i < |order| ensures order[i] != element {
          assert contents[0].0 != contents[i].0;
        }
      }
      element.data := data;
      contents := [(element.key, data)] + contents[1..];
    }

    method Insert(key: Key, data: Bytes)
      requires Valid() && key !in items
      modifies this
      ensures Consistent(CAPACITY + 1) && fresh(Repr - old(Repr))
      ensures contents == [(key, data)] + old(contents) && |order| == |old(order)| + 1
    {
      hide Holds, Distinct;
      KeyAbsent(key);
      DistinctPushed(contents, (key, data));
      var element := new Element(key, data);
      HoldsPushed(order, contents, element);
      PushKeepsItems(element);
      order := [element] + order;
      items := items[key := element];
      contents := [(key, data)] + contents;
      Repr := Repr + {element};
    }

    lemma KeyAbsent(key: Key)
      requires Valid() && key !in items
      ensures forall i :: 0 <= i < |contents| ==> contents[i].0 != key
    {
      forall i | 0 <= i < |contents| ensures contents[i].0 != key {
        assert order[i] in order;
      }
    }

    /** The map and the list refer to the same elements after a new one was put in front. */
    lemma PushKeepsItems(element: Element)
      requires Valid() && element.key !in items
      ensures var more, map' := [element] + order, items[element.key := element];
              && (forall e :: e in more ==> e.key in map' && map'[e.key] == e)
              && (forall k :: k in map' ==> map'[k] in more && map'[k].key == k)
    {
      hide Holds, Distinct;
      var more := [element] + order;
      assert forall e :: e in more <==> e == element || e in order;
    }

    method Evict()
      requires Consistent(CAPACITY + 1) && |order| == CAPACITY + 1
      modifies this`order, this`items, this`contents
      ensures Valid() && contents == old(contents)[..CAPACITY]
    {
      var oldest := order[|order| - 1];
      ghost var before := order;
      forall i | 0 <= i < |order| - 1 ensures order[i].key != oldest.key {
        assert contents[i].0 != contents[|order| - 1].0;
      }
      order := order[..|order| - 1];
      items := items - {oldest.key};
      contents := contents[..|contents| - 1];
      assert forall e :: e in before ==> e in order || e == oldest;
    }
  }

  lemma HoldsAt(order: seq<Element>, contents: seq<Pair>, i: nat)
    requires Holds(order, contents) && i < |order|
    ensures |contents| == |order| && contents[i] == (order[i].key, order[i].data)
  {
  }

  // ---- Runs ----

  datatype Op = GetOp(key: Key) | AddOp(key: Key, data: Bytes)

  function Apply(contents: seq<Pair>, op: Op): seq<Pair> {
    match op
    case GetOp(key) =>
      var hit := Lookup(contents, key);
      if hit.Some? then Front(contents, key, hit.value) else contents
    case AddOp(key, data) => First(Front(contents, key, data), CAPACITY)
  }

  /** What the cache holds after a run of calls. */
  function Cached(ops: seq<Op>): seq<Pair> {
    if ops == [] then [] else Apply(Cached(ops[..|ops| - 1]), ops[|ops| - 1])
  }

  /** Every key ever added with its last data, the most recently added or hit first; nothing is evicted. */
  function History(ops: seq<Op>): seq<Pair> {
    if ops == [] then []
    else
      var before, op := ops[..|ops| - 1], ops[|ops| - 1];
      match op
      case GetOp(key) =>
        var hit := Lookup(Cached(before), key);
        if hit.Some? then Front(History(before), key, hit.value) else History(before)
      case AddOp(key, data) => Front(History(before), key, data)
  }

  function LastAdded(ops: seq<Op>, key: Key): Option<Bytes> {
    if ops == [] then None
    else
      var op := ops[|ops| - 1];
      if op.AddOp? && op.key == key then Some(op.data) else LastAdded(ops[..|ops| - 1], key)
  }

  lemma {:induction false} WithoutLookup(pairs: seq<Pair>, key: Key, other: Key)
    ensures Lookup(Without(pairs, key), other) == if other == key then None else Lookup(pairs, other)
    decreases |pairs|
  {
    if pairs != [] {
      WithoutLookup(pairs[1..], key, other);
    }
  }

  lemma {:induction false} WithoutDistinct(pairs: seq<Pair>, key: Key)
    requires Distinct(pairs)
    ensures Distinct(Without(pairs, key))
    ensures forall i :: 0 <= i < |Without(pairs, key)| ==>
              Without(pairs, key)[i].0 != key && Without(pairs, key)[i] in pairs
    decreases |pairs|
  {
    if pairs != [] {
      var rest := pairs[1..];
      assert Distinct(rest);
      WithoutDistinct(rest, key);
      forall x | x in rest ensures x.0 != pairs[0].0 {
        var j :| 0 <= j < |rest| && rest[j] == x;
        assert pairs[j + 1] == x;
      }
    }
  }

  lemma FrontDistinct(pairs: seq<Pair>, key: Key, data: Bytes)
    requires Distinct(pairs)
    ensures Distinct(Front(pairs, key, data))
  {
    WithoutDistinct(pairs, key);
  }

  lemma {:induction false} HistoryDistinct(ops: seq<Op>)
    ensures Distinct(History(ops))
    decreases |ops|
  {
    if ops != [] {
      var before, op := ops[..|ops| - 1], ops[|ops| - 1];
      HistoryDistinct(before);
      match op
      case GetOp(key) =>
        if Lookup(Cached(before), key).Some? {
          FrontDistinct(History(before), key, Lookup(Cached(before), key).value);
        }
      case AddOp(key, data) => FrontDistinct(History(before), key, data);
    }
  }

  /** Cutting after `n` items and moving a key to the front commute, when the key is among them or room is made. */
  lemma {:induction false} FirstWithout(pairs: seq<Pair>, key: Key, n: nat)
    requires Distinct(pairs)
    ensures Lookup(First(pairs, n), key).Some? ==>
              Without(First(pairs, n), key) == First(Without(pairs, key), if n == 0 then 0 else n - 1) &&
              Lookup(First(pairs, n), key) == Lookup(pairs, key)
    ensures Lookup(First(pairs, n), key).None? ==>
              Without(First(pairs, n), key) == First(pairs, n) == First(Without(pairs, key), n)
    decreases |pairs|
  {
    if pairs != [] && n > 0 {
      var rest := pairs[1..];
      assert Distinct(rest);
      assert First(pairs, n) == [pairs[0]] + First(rest, n - 1);
      if pairs[0].0 == key {
        KeyOnce(pairs);
        WithoutAbsent(rest, key);
        FirstAbsent(rest, key, n - 1);
      } else {
        FirstWithout(rest, key, n - 1);
        assert Without(pairs, key) == [pairs[0]] + Without(rest, key);
        if Lookup(First(rest, n - 1), key).Some? {
          assert n - 1 > 0;
        }
      }
    }
  }

  lemma KeyOnce(pairs: seq<Pair>)
    requires Distinct(pairs) && pairs != []
    ensures forall i :: 0 <= i < |pairs[1..]| ==> pairs[1..][i].0 != pairs[0].0
  {
  }

  lemma FirstAbsent(pairs: seq<Pair>, key: Key, n: nat)
    requires forall i :: 0 <= i < |pairs| ==> pairs[i].0 != key
    ensures Without(First(pairs, n), key) == First(pairs, n)
  {
    WithoutAbsent(First(pairs, n), key);
  }

  /** The cache is the first five entries of the full history. */
  lemma {:induction false} CachedIsRecentHistory(ops: seq<Op>)
    ensures Cached(ops) == First(History(ops), CAPACITY)
    decreases |ops|
  {
    if ops != [] {
      var before, op := ops[..|ops| - 1], ops[|ops| - 1];
      CachedIsRecentHistory(before);
      HistoryDistinct(before);
      FirstWithout(History(before), op.key, CAPACITY);
      var hit := Lookup(Cached(before), op.key);
      if op.AddOp? {
        assert Front(Cached(before), op.key, op.data) == [(op.key, op.data)] + Without(Cached(before), op.key);
      }
    }
  }

  lemma {:induction false} HistoryIsLastAdded(ops: seq<Op>, key: Key)
    ensures Lookup(History(ops), key) == LastAdded(ops, key)
    decreases |ops|
  {
    if ops != [] {
      var before, op := ops[..|ops| - 1], ops[|ops| - 1];
      HistoryIsLastAdded(before, key);
      WithoutLookup(History(before), op.key, key);
      CachedIsRecentHistory(before);
      HistoryDistinct(before);
      FirstWithout(History(before), op.key, CAPACITY);
    }
  }

  /** A hit returns the data last added under the key, and the cache never holds two entries of one key. */
  lemma HitIsLastAdded(ops: seq<Op>, key: Key)
    ensures |Cached(ops)| <= 5 && Distinct(Cached(ops))
    ensures Lookup(Cached(ops), key).Some? ==> Lookup(Cached(ops), key) == LastAdded(ops, key)
  {
    CachedIsRecentHistory(ops);
    HistoryDistinct(ops);
    HistoryIsLastAdded(ops, key);
    FirstWithout(History(ops), key, CAPACITY);
  }
}
