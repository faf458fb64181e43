/** Small facts about sequences and options that several components share. */
module Sequences {
  datatype Option<+T> = None | Some(value: T)

  /** The pieces before, between and after the separators; always at least one. */
  function Split<T(==)>(s: seq<T>, separator: T): (pieces: seq<seq<T>>)
    ensures |pieces| >= 1
  {
    if s == [] then [[]]
    else
      var pieces, x := Split(s[..|s| - 1], separator), s[|s| - 1];
      if x == separator then pieces + [[]] else WithLast(pieces, pieces[|pieces| - 1] + [x])
  }

  lemma {:induction false} FirstPiece<T>(s: seq<T>, separator: T)
    ensures Split(s, separator)[0] <= s
    ensures |Split(s, separator)| == 1 ==> Split(s, separator)[0] == s
    decreases |s|
  {
    if s != [] {
      var front := s[..|s| - 1];
      FirstPiece(front, separator);
      assert s == front + [s[|s| - 1]];
    }
  }

  function WithLast<T>(pieces: seq<T>, last: T): (r: seq<T>)
    requires |pieces| >= 1
    ensures |r| == |pieces|
  {
    pieces[..|pieces| - 1] + [last]
  }

  function Join<T>(pieces: seq<seq<T>>, separator: T): seq<T>
    requires |pieces| >= 1
  {
    var front, last := pieces[..|pieces| - 1], pieces[|pieces| - 1];
    if front == [] then last else Join(front, separator) + [separator] + last
  }

  lemma SplitSnoc<T>(s: seq<T>, x: T, separator: T)
    ensures var pieces := Split(s, separator);
            Split(s + [x], separator) ==
            if x == separator then pieces + [[]] else WithLast(pieces, pieces[|pieces| - 1] + [x])
  {
    assert (s + [x])[..|s|] == s;
  }

  lemma JoinSnoc<T>(pieces: seq<seq<T>>, last: seq<T>, separator: T)
    requires |pieces| >= 1
    ensures Join(pieces + [last], separator) == Join(pieces, separator) + [separator] + last
  {
    assert (pieces + [last])[..|pieces|] == pieces;
  }

  ghost predicate NoneHolds<T>(pieces: seq<seq<T>>, x: T) {
    forall i :: 0 <= i < |pieces| ==> x !in pieces[i]
  }

  lemma ShorterHolds<T>(front: seq<seq<T>>, last: seq<T>, x: T)
    requires last != [] && NoneHolds(front + [last], x)
    ensures last[|last| - 1] != x && NoneHolds(front + [last[..|last| - 1]], x)
  {
    var pieces := front + [last];
    assert pieces[|front|] == last && last[|last| - 1] in last;
    forall i | 0 <= i < |front| ensures x !in front[i] {
      assert pieces[i] == front[i];
    }
  }

  lemma {:induction false} SplitJoinEnd<T>(front: seq<seq<T>>, last: seq<T>, separator: T)
    requires NoneHolds(front + [last], separator)
    ensures Split(Join(front + [last], separator), separator) == front + [last]
    decreases |front|, |last|
  {
    if last != [] {
      var shorter := last[..|last| - 1];
      ShorterHolds(front, last, separator);
      SplitJoinEnd(front, shorter, separator);
      SplitJoinLonger(front, last, separator);
    } else if front != [] {
      var before, end := front[..|front| - 1], front[|front| - 1];
      assert front == before + [end];
      assert NoneHolds(front, separator) by {
        assert forall i :: 0 <= i < |front| ==> front[i] == (front + [last])[i];
      }
      SplitJoinEnd(before, end, separator);
      SplitJoinEmptyEnd(front, separator);
    }
  }

  lemma SplitJoinLonger<T>(front: seq<seq<T>>, last: seq<T>, separator: T)
    requires last != [] && last[|last| - 1] != separator
    requires var shorter := front + [last[..|last| - 1]];
             Split(Join(shorter, separator), separator) == shorter
    ensures Split(Join(front + [last], separator), separator) == front + [last]
  {
    hide Split, Join;
    var shorter, x := last[..|last| - 1], last[|last| - 1];
    JoinShorter(front, last, separator);
    SplitSnoc(Join(front + [shorter], separator), x, separator);
    assert last == shorter + [x];
    WithLastFront(front, shorter, last);
  }

  lemma SplitJoinEmptyEnd<T>(front: seq<seq<T>>, separator: T)
    requires front != []
    ensures Split(Join(front + [[]], separator), separator) == Split(Join(front, separator), separator) + [[]]
  {
    hide Split, Join;
    JoinSnoc(front, [], separator);
    assert Join(front, separator) + [separator] + [] == Join(front, separator) + [separator];
    SplitSnoc(Join(front, separator), separator, separator);
  }

  /** Splitting undoes joining when no piece contains the separator. */
  lemma SplitJoin<T>(pieces: seq<seq<T>>, separator: T)
    requires |pieces| >= 1 && NoneHolds(pieces, separator)
    ensures Split(Join(pieces, separator), separator) == pieces
  {
    hide Split, Join;
    assert pieces == pieces[..|pieces| - 1] + [pieces[|pieces| - 1]];
    SplitJoinEnd(pieces[..|pieces| - 1], pieces[|pieces| - 1], separator);
  }

  lemma WithLastFront<T>(front: seq<T>, a: T, b: T)
    ensures WithLast(front + [a], b) == front + [b]
  {
  }

  lemma JoinShorter<T>(front: seq<seq<T>>, last: seq<T>, separator: T)
    requires last != []
    ensures Join(front + [last], separator) ==
            Join(front + [last[..|last| - 1]], separator) + [last[|last| - 1]]
  {
    assert last == last[..|last| - 1] + [last[|last| - 1]];
    if front != [] {
      JoinSnoc(front, last, separator);
      JoinSnoc(front, last[..|last| - 1], separator);
    }
  }
}
