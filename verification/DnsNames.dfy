/**
 Domain names on the wire: labels and compression pointers (section 4.1.4 of RFC 1035).

 The decoder keeps no record of the pointers it has followed, so on some buffers it never ends.
 `Halts` says on which it does.
 */
module DnsNames {
  import opened Sequences
  import opened Wire

  const DOT: Byte := 0x2E

  // ---- Reading, one label or pointer at a time ----

  datatype Link =
    | Root
    | Pointer(target: nat)
    | Label(text: Bytes, next: nat)
    | Bad

  function ReadAt(data: Bytes, offset: nat): (r: Link)
    ensures r.Label? ==> offset < r.next <= |data| && |r.text| == r.next - offset - 1
    ensures !r.Bad? ==> offset < |data|
    ensures r.Pointer? ==> offset + 2 <= |data|
  {
    if offset >= |data| then Bad
    else
      var length: int := data[offset];
      if length == 0 then Root
      else if length >= 0xC0 then
        if offset + 1 >= |data| then Bad
        else var low: int := data[offset + 1]; Pointer((length - 0xC0) * 0x100 + low)
      else if offset + 1 + length > |data| then Bad
      else Label(data[offset + 1..offset + 1 + length], offset + 1 + length)
  }

  datatype Reading = Labels(labels: seq<Bytes>) | Malformed | Unfinished

  /** The labels of the name at `offset`, pointers followed, in at most `steps` readings. */
  function Walk(data: Bytes, offset: nat, steps: nat): Reading
    decreases steps
  {
    if steps == 0 then Unfinished
    else
      match ReadAt(data, offset)
      case Root => Labels([])
      case Bad => Malformed
      case Pointer(target) => Walk(data, target, steps - 1)
      case Label(text, next) => Prepended([text], Walk(data, next, steps - 1))
  }

  function Prepended(before: seq<Bytes>, r: Reading): Reading {
    if r.Labels? then Labels(before + r.labels) else r
  }

  /** Where a name ends in the message: after its root, or after its first pointer. */
  function NameEnd(data: Bytes, offset: nat): (r: Option<nat>)
    ensures r.Some? ==> offset < r.value <= |data|
    decreases |data| - offset
  {
    match ReadAt(data, offset)
    case Root => Some(offset + 1)
    case Bad => None
    case Pointer(_) => Some(offset + 2)
    case Label(_, next) => NameEnd(data, next)
  }

  ghost predicate Halts(data: Bytes, offset: nat) {
    exists steps: nat :: Walk(data, offset, steps) != Unfinished
  }

  lemma {:induction false} WalkLonger(data: Bytes, offset: nat, steps: nat, more: nat)
    requires Walk(data, offset, steps) != Unfinished && more >= steps
    ensures Walk(data, offset, more) == Walk(data, offset, steps)
    decreases steps
  {
    match ReadAt(data, offset)
    case Pointer(target) => WalkLonger(data, target, steps - 1, more - 1);
    case Label(_, next) => WalkLonger(data, next, steps - 1, more - 1);
    case _ =>
  }

  // ---- When the walk ends ----

  /**
   A walk that ends, in `steps` readings and not fewer, has read at that many different places of
   the buffer (its last reading may lie beyond the end).
   */
  lemma {:induction false} PlacesRead(data: Bytes, offset: nat, steps: nat) returns (places: set<nat>)
    requires steps >= 1 && Walk(data, offset, steps) != Unfinished && Walk(data, offset, steps - 1) == Unfinished
    ensures |places| == steps - 1
    ensures forall p :: p in places ==> p < |data| && Walk(data, p, steps) != Unfinished
    decreases steps
  {
    var link := ReadAt(data, offset);
    if steps == 1 {
      places := {};
    } else {
      var next := if link.Pointer? then link.target else link.next;
      var later := PlacesRead(data, next, steps - 1);
      assert offset !in later;
      places := later + {offset};
      forall p | p in later ensures Walk(data, p, steps) != Unfinished {
        WalkLonger(data, p, steps - 1, steps);
      }
    }
  }

  lemma {:induction false} BoundedSet(s: set<nat>, n: nat)
    requires forall x :: x in s ==> x < n
    ensures |s| <= n
    decreases n
  {
    if n == 0 {
      assert s == {};
    } else if n - 1 in s {
      BoundedSet(s - {n - 1}, n - 1);
    } else {
      BoundedSet(s, n - 1);
    }
  }

  lemma {:induction false} LeastSteps(data: Bytes, offset: nat, steps: nat) returns (least: nat)
    requires Walk(data, offset, steps) != Unfinished
    ensures 1 <= least <= steps
    ensures Walk(data, offset, least) != Unfinished && Walk(data, offset, least - 1) == Unfinished
    decreases steps
  {
    if Walk(data, offset, steps - 1) == Unfinished {
      least := steps;
    } else {
      least := LeastSteps(data, offset, steps - 1);
    }
  }

  /** The decoder ends exactly when it ends within one reading more than the buffer has bytes. */
  lemma HaltsIff(data: Bytes, offset: nat)
    ensures Halts(data, offset) <==> Walk(data, offset, |data| + 1) != Unfinished
  {
    if Halts(data, offset) {
      var steps: nat :| Walk(data, offset, steps) != Unfinished;
      var least := LeastSteps(data, offset, steps);
      var places := PlacesRead(data, offset, least);
      BoundedSet(places, |data|);
      WalkLonger(data, offset, least, |data| + 1);
    }
  }

  /** Where the `k`-th reading of the walk takes place, counting from 0, if it gets that far. */
  function Place(data: Bytes, offset: nat, k: nat): Option<nat>
    decreases k
  {
    if k == 0 then Some(offset)
    else
      match ReadAt(data, offset)
      case Pointer(target) => Place(data, target, k - 1)
      case Label(_, next) => Place(data, next, k - 1)
      case Root => None
      case Bad => None
  }

  lemma {:induction false} UnfinishedIffPlace(data: Bytes, offset: nat, steps: nat)
    ensures Walk(data, offset, steps) == Unfinished <==> Place(data, offset, steps).Some?
    decreases steps
  {
    if steps > 0 {
      var link := ReadAt(data, offset);
      if link.Pointer? {
        UnfinishedIffPlace(data, link.target, steps - 1);
      } else if link.Label? {
        UnfinishedIffPlace(data, link.next, steps - 1);
      }
    }
  }

  /** The walk from its `i`-th place is the rest of the walk. */
  lemma {:induction false} PlaceLater(data: Bytes, offset: nat, i: nat, m: nat)
    requires Place(data, offset, i).Some?
    ensures Place(data, offset, i + m) == Place(data, Place(data, offset, i).value, m)
    decreases i
  {
    if i > 0 {
      var link := ReadAt(data, offset);
      PlaceLater(data, if link.Pointer? then link.target else link.next, i - 1, m);
    }
  }

  /** A walk that comes back to its start comes back again and again. */
  lemma {:induction false} Recurs(data: Bytes, offset: nat, period: nat, rounds: nat) returns (k: nat)
    requires period > 0 && Place(data, offset, period) == Some(offset)
    ensures k >= rounds && Place(data, offset, k) == Some(offset)
    decreases rounds
  {
    if rounds == 0 {
      k := 0;
    } else {
      var before := Recurs(data, offset, period, rounds - 1);
      PlaceLater(data, offset, before, period);
      k := before + period;
    }
  }

  ghost predicate ReadsTwice(data: Bytes, offset: nat) {
    exists i: nat, j: nat :: i < j && Place(data, offset, i).Some? && Place(data, offset, i) == Place(data, offset, j)
  }

  lemma ReadsTwiceLoops(data: Bytes, offset: nat, i: nat, j: nat)
    requires i < j && Place(data, offset, i).Some? && Place(data, offset, i) == Place(data, offset, j)
    ensures !Halts(data, offset)
  {
    var p := Place(data, offset, i).value;
    PlaceLater(data, offset, i, j - i);
    forall steps: nat ensures Walk(data, offset, steps) == Unfinished {
      var k := Recurs(data, p, j - i, steps);
      PlaceLater(data, offset, i, k);
      UnfinishedIffPlace(data, offset, i + k);
      if Walk(data, offset, steps) != Unfinished {
        WalkLonger(data, offset, steps, i + k);
      }
    }
  }

  lemma EarlierPlace(data: Bytes, offset: nat, steps: nat, k: nat)
    requires Place(data, offset, steps).Some? && k < steps
    ensures Place(data, offset, k).Some? && Place(data, offset, k).value < |data|
  {
    UnfinishedIffPlace(data, offset, steps);
    UnfinishedIffPlace(data, offset, k);
    if Walk(data, offset, k) != Unfinished {
      WalkLonger(data, offset, k, steps);
    }
    PlaceLater(data, offset, k, steps - k);
  }

  lemma {:induction false} Repeats(places: seq<nat>, n: nat) returns (i: nat, j: nat)
    requires |places| > n && forall k :: 0 <= k < |places| ==> places[k] < n
    ensures i < j < |places| && places[i] == places[j]
  {
    if i', j' :| 0 <= i' < j' < |places| && places[i'] == places[j'] {
      i, j := i', j';
    } else {
      var all := set k | 0 <= k < |places| :: places[k];
      DistinctSize(places);
      BoundedSet(all, n);
      assert false;
    }
  }

  lemma {:induction false} DistinctSize(places: seq<nat>)
    requires forall i, j :: 0 <= i < j < |places| ==> places[i] != places[j]
    ensures |set k | 0 <= k < |places| :: places[k]| == |places|
    decreases |places|
  {
    var all := set k | 0 <= k < |places| :: places[k];
    if places != [] {
      var front, last := places[..|places| - 1], places[|places| - 1];
      DistinctSize(front);
      var fewer := set k | 0 <= k < |front| :: front[k];
      assert all == fewer + {last} && last !in fewer;
    }
  }

  lemma LongWalkReadsTwice(data: Bytes, offset: nat)
    requires Place(data, offset, |data| + 1).Some?
    ensures ReadsTwice(data, offset)
  {
    var n := |data| + 1;
    forall k: nat | k < n ensures Place(data, offset, k).Some? && Place(data, offset, k).value < |data| {
      EarlierPlace(data, offset, n, k);
    }
    var places := seq(n, k requires 0 <= k < n => Place(data, offset, k).value);
    var i, j := Repeats(places, |data|);
    assert Place(data, offset, i) == Place(data, offset, j);
  }

  /** The decoder loops exactly when its walk reads some place twice. */
  lemma LoopsIffReadsTwice(data: Bytes, offset: nat)
    ensures !Halts(data, offset) <==> ReadsTwice(data, offset)
  {
    if ReadsTwice(data, offset) {
      var i: nat, j: nat :| i < j && Place(data, offset, i).Some? && Place(data, offset, i) == Place(data, offset, j);
      ReadsTwiceLoops(data, offset, i, j);
    }
    if !Halts(data, offset) {
      UnfinishedIffPlace(data, offset, |data| + 1);
      LongWalkReadsTwice(data, offset);
    }
  }

  /** From `offset`, in the label run that began at `start`, every pointer leads below its run. */
  predicate PointsBack(data: Bytes, start: nat, offset: nat)
    decreases start, |data| - offset
  {
    match ReadAt(data, offset)
    case Root => true
    case Bad => true
    case Pointer(target) => target < start && PointsBack(data, target, target)
    case Label(_, next) => PointsBack(data, start, next)
  }

  lemma {:induction false} PointsBackHalts(data: Bytes, start: nat, offset: nat) returns (steps: nat)
    requires PointsBack(data, start, offset)
    ensures Walk(data, offset, steps) != Unfinished
    decreases start, |data| - offset
  {
    match ReadAt(data, offset)
    case Pointer(target) =>
      steps := PointsBackHalts(data, target, target);
      steps := steps + 1;
    case Label(_, next) =>
      steps := PointsBackHalts(data, start, next);
      steps := steps + 1;
    case _ =>
      steps := 1;
  }

  /** A name whose pointers all lead backwards, as compression writes them, is decoded in finite time. */
  lemma BackwardPointersHalt(data: Bytes, offset: nat)
    requires PointsBack(data, offset, offset)
    ensures Halts(data, offset)
  {
    var steps := PointsBackHalts(data, offset, offset);
  }

  /** A pointer to itself never ends. */
  lemma {:induction false} SelfPointerLoops(steps: nat)
    ensures Walk([0xC0, 0x00], 0, steps) == Unfinished
  {
    if steps > 0 {
      SelfPointerLoops(steps - 1);
    }
  }

  // ---- The decoder ----

  function DottedName(labels: seq<Bytes>): Bytes {
    if labels == [] then [DOT] else Join(labels, DOT) + [DOT]
  }

  /** The name at `offset` and the offset after it; None when it is malformed or never ends. */
  function Decoded(data: Bytes, offset: nat): (r: Option<(Bytes, nat)>)
    ensures r.Some? ==> offset < r.value.1 <= |data|
  {
    var reading, end := Walk(data, offset, |data| + 1), NameEnd(data, offset);
    if reading.Labels? && end.Some? then Some((DottedName(reading.labels), end.value)) else None
  }

  /** If the walk succeeds, the name has an end. */
  lemma {:induction false} ReadNameEnds(data: Bytes, offset: nat, steps: nat)
    requires Walk(data, offset, steps).Labels?
    ensures NameEnd(data, offset).Some?
    decreases steps
  {
    var link := ReadAt(data, offset);
    if link.Label? {
      ReadNameEnds(data, link.next, steps - 1);
    }
  }

  /** Only the labels before the first pointer decide where the name ends. */
  lemma DecodedIff(data: Bytes, offset: nat)
    ensures Decoded(data, offset).Some? <==> exists steps: nat :: Walk(data, offset, steps).Labels?
    ensures Decoded(data, offset).Some? ==> Some(Decoded(data, offset).value.1) == NameEnd(data, offset)
  {
    if Decoded(data, offset).Some? {
      assert Walk(data, offset, |data| + 1).Labels?;
    }
    if exists steps: nat :: Walk(data, offset, steps).Labels? {
      var steps: nat :| Walk(data, offset, steps).Labels?;
      HaltsIff(data, offset);
      assert Halts(data, offset);
      SameReading(data, offset, steps, |data| + 1);
      ReadNameEnds(data, offset, steps);
    }
  }

  lemma SameReading(data: Bytes, offset: nat, m: nat, n: nat)
    requires Walk(data, offset, m) != Unfinished && Walk(data, offset, n) != Unfinished
    ensures Walk(data, offset, m) == Walk(data, offset, n)
  {
    if m <= n {
      WalkLonger(data, offset, m, n);
    } else {
      WalkLonger(data, offset, n, m);
    }
  }

  /** One reading of the decoder. */
  lemma OneReading(data: Bytes, offset: nat, steps: nat)
    requires steps >= 1 && Walk(data, offset, steps) != Unfinished
    ensures match ReadAt(data, offset)
            case Root => Walk(data, offset, steps) == Labels([]) && NameEnd(data, offset) == Some(offset + 1)
            case Bad => Walk(data, offset, steps) == Malformed && NameEnd(data, offset) == None
            case Pointer(target) =>
              && Walk(data, offset, steps) == Walk(data, target, steps - 1)
              && NameEnd(data, offset) == Some(offset + 2)
            case Label(text, next) =>
              && Walk(data, offset, steps) == Prepended([text], Walk(data, next, steps - 1))
              && NameEnd(data, offset) == NameEnd(data, next)
    ensures var link := ReadAt(data, offset); link.Pointer? || link.Label? ==> steps >= 2
  {
  }

  lemma PrependedTwice(a: seq<Bytes>, b: seq<Bytes>, r: Reading)
    ensures Prepended(a, Prepended(b, r)) == Prepended(a + b, r)
  {
    if r.Labels? {
      assert a + (b + r.labels) == (a + b) + r.labels;
    }
  }

  lemma PrependedEnds(a: seq<Bytes>, r: Reading)
    ensures Prepended([], r) == r
    ensures Prepended(a, Labels([])) == Labels(a)
    ensures Prepended(a, Malformed) == Malformed
  {
  }

  /** One turn of the decoder's loop at a label or a pointer: where it goes on, and the labels so far. */
  method Follow(data: Bytes, offset: int, labels: seq<Bytes>, ghost steps: nat)
    returns (next: Option<int>, more: seq<Bytes>)
    requires 0 <= offset < |data| && data[offset] != 0 && steps >= 1 && Walk(data, offset, steps) != Unfinished
    ensures next == None ==> ReadAt(data, offset) == Bad
    ensures next != None ==>
              && next.value >= 0 && steps >= 2 && Walk(data, next.value, steps - 1) != Unfinished
              && Prepended(labels, Walk(data, offset, steps)) == Prepended(more, Walk(data, next.value, steps - 1))
              && (data[offset] >= 0xC0 ==> NameEnd(data, offset) == Some(offset + 2))
              && (data[offset] < 0xC0 ==> NameEnd(data, offset) == NameEnd(data, next.value))
  {
    OneReading(data, offset, steps);
    hide Walk, NameEnd, Prepended;
    PrependedEnds(labels, Malformed);
    var length: int := data[offset];
    if length >= 0xC0 {
      if offset + 1 >= |data| { return None, labels; }
      var low: int := data[offset + 1];
      return Some((length - 0xC0) * 0x100 + low), labels;
    }
    var from := offset + 1;
    if from + length > |data| { return None, labels; }
    PrependedTwice(labels, [data[from..from + length]], Walk(data, from + length, steps - 1));
    return Some(from + length), labels + [data[from..from + length]];
  }

  method DecodeDNSName(data: Bytes, start: int) returns (r: Option<(Bytes, nat)>)
    requires start >= 0 ==> Halts(data, start)
    ensures start < 0 ==> r == None
    ensures start >= 0 ==> r == Decoded(data, start)
  {
    hide Walk, NameEnd, Prepended, DottedName, Halts, PointsBack, Number, BigEndian, Place, ReadsTwice;
    if start < 0 || start >= |data| {
      return None;
    }
    HaltsIff(data, start);
    var labels: seq<Bytes>, seenPointer := [], false;
    var offset: int, originalOffset: int := start, start;
    ghost var steps: nat := |data| + 1;
    PrependedEnds([], Walk(data, start, steps));
    while true
      invariant 0 <= offset && steps >= 1 && Walk(data, offset, steps) != Unfinished
      invariant Walk(data, start, |data| + 1) == Prepended(labels, Walk(data, offset, steps))
      invariant if seenPointer then originalOffset >= 0 && NameEnd(data, start) == Some(originalOffset)
                else NameEnd(data, start) == NameEnd(data, offset)
      decreases steps
    {
      OneReading(data, offset, steps);
      PrependedEnds(labels, Malformed);
      if offset >= |data| {
        return None;
      }
      if data[offset] == 0 {
        offset := offset + 1;
        break;
      }
      var next, more := Follow(data, offset, labels, steps);
      if next == None {
        return None;
      }
      if data[offset] >= 0xC0 && !seenPointer {
        originalOffset := offset + 2;
        seenPointer := true;
      }
      offset, labels, steps := next.value, more, steps - 1;
    }
    return Some((DottedName(labels), if seenPointer then originalOffset else offset));
  }
}
