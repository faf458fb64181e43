/** Which media player is the active one. */
module MediaSelection {

  type Name = string

  datatype Player = Player(canControl: bool, playing: bool, isActive: bool)

  // ---- The order of names ----

  /** Byte order of bus names, which are ASCII. */
  predicate Before(a: Name, b: Name) {
    b != [] && (a == [] || a[0] < b[0] || (a[0] == b[0] && Before(a[1..], b[1..])))
  }

  lemma {:induction false} BeforeTotal(a: Name, b: Name)
    ensures a == b || Before(a, b) || Before(b, a)
    decreases |a|
  {
    if a != [] && b != [] && a[0] == b[0] {
      BeforeTotal(a[1..], b[1..]);
      assert a == [a[0]] + a[1..] && b == [b[0]] + b[1..];
    }
  }

  lemma {:induction false} BeforeStrict(a: Name, b: Name, c: Name)
    ensures !Before(a, a)
    ensures Before(a, b) && Before(b, c) ==> Before(a, c)
    decreases |a|
  {
    if a != [] {
      BeforeStrict(a[1..], if b == [] then [] else b[1..], if c == [] then [] else c[1..]);
    }
  }

  /** The usual order: a name comes after its beginnings, and otherwise the first difference decides. */
  lemma {:induction false} BeforeIff(a: Name, b: Name)
    ensures Before(a, b) <==>
            || a < b
            || exists i :: 0 <= i < |a| && i < |b| && a[..i] == b[..i] && a[i] < b[i]
    decreases |a|
  {
    if a != [] && b != [] {
      BeforeIff(a[1..], b[1..]);
      assert a == [a[0]] + a[1..] && b == [b[0]] + b[1..];
      forall i | 0 < i < |a| && i < |b| && a[..i] == b[..i] ensures a[0] == b[0] {
        assert a[..i][0] == b[..i][0];
      }
      if a[0] == b[0] {
        if i :| 0 <= i < |a[1..]| && i < |b[1..]| && a[1..][..i] == b[1..][..i] && a[1..][i] < b[1..][i] {
          assert a[..i + 1] == [a[0]] + a[1..][..i] && b[..i + 1] == [b[0]] + b[1..][..i];
          assert a[i + 1] < b[i + 1];
        }
        if i :| 0 <= i < |a| && i < |b| && a[..i] == b[..i] && a[i] < b[i] {
          assert i > 0 && a[1..][..i - 1] == a[..i][1..] && b[1..][..i - 1] == b[..i][1..];
          assert a[1..][i - 1] < b[1..][i - 1];
        }
      } else {
        assert a[..0] == b[..0] && !(a <= b);
      }
    }
  }

  ghost predicate Sorted(names: seq<Name>) {
    forall i, j :: 0 <= i < j < |names| ==> Before(names[i], names[j])
  }

  /** The first of a nonempty set of names. */
  method FirstName(names: set<Name>) returns (first: Name)
    requires names != {}
    ensures first in names && forall n :: n in names && n != first ==> Before(first, n)
  {
    first :| first in names;
    var todo := names - {first};
    while todo != {}
      invariant first in names && todo <= names - {first}
      invariant forall n :: n in names - todo && n != first ==> Before(first, n)
      decreases todo
    {
      var n :| n in todo;
      BeforeTotal(first, n);
      if Before(n, first) {
        forall m | m in names - todo ensures Before(n, m) {
          BeforeStrict(n, first, m);
        }
        todo := todo - {n};
        BeforeStrict(n, n, n);
        first := n;
      } else {
        todo := todo - {n};
      }
    }
  }

  method SortNames(names: set<Name>) returns (sorted: seq<Name>)
    ensures Sorted(sorted)
    ensures forall n :: n in sorted <==> n in names
  {
    sorted := [];
    var todo := names;
    while todo != {}
      invariant todo <= names && Sorted(sorted)
      invariant forall n :: n in sorted <==> n in names - todo
      invariant forall m, n :: m in sorted && n in todo ==> Before(m, n)
      decreases todo
    {
      var first := FirstName(todo);
      assert forall i :: 0 <= i < |sorted| ==> sorted[i] in sorted;
      sorted := sorted + [first];
      todo := todo - {first};
    }
  }

  // ---- The choice ----

  datatype Wish = Ready | Controllable | Any

  /** Ready: controllable and playing. */
  predicate Meets(players: map<Name, Player>, wish: Wish, n: Name) {
    n in players && (wish.Any? || players[n].canControl) && (wish.Ready? ==> players[n].playing)
  }

  ghost predicate IsFirst(players: map<Name, Player>, wish: Wish, n: Name) {
    Meets(players, wish, n) && forall m :: Meets(players, wish, m) && m != n ==> Before(n, m)
  }

  ghost predicate NoneMeets(players: map<Name, Player>, wish: Wish) {
    forall m :: !Meets(players, wish, m)
  }

  /** The automatic choice, best reason first. */
  ghost predicate Automatic(players: map<Name, Player>, previous: Name, choice: Name) {
    if previous in players && players[previous].playing then choice == previous
    else if !NoneMeets(players, Ready) then IsFirst(players, Ready, choice)
    else if previous in players then choice == previous
    else if !NoneMeets(players, Controllable) then IsFirst(players, Controllable, choice)
    else if players != map[] then IsFirst(players, Any, choice)
    else choice == ""
  }

  /** The choice and the pin afterwards: a pinned player wins while it exists. */
  ghost predicate Selected(players: map<Name, Player>, previous: Name, pinned: Name, choice: Name, pin: Name) {
    if pinned != "" && pinned in players then choice == pinned && pin == pinned
    else Automatic(players, previous, choice) && pin == ""
  }

  ghost predicate Marked(before: map<Name, Player>, after: map<Name, Player>, active: Name) {
    after.Keys == before.Keys &&
    forall n :: n in before ==> after[n] == before[n].(isActive := n == active)
  }

  class MPRISService {
    var players: map<Name, Player>
    var activePlayer: Name
    var pinnedPlayer: Name

    constructor ()
      ensures players == map[] && activePlayer == "" && pinnedPlayer == ""
    {
      players, activePlayer, pinnedPlayer := map[], "", "";
    }

    /** The first name in order that meets the wish, or "". */
    method FirstWanted(names: seq<Name>, wish: Wish) returns (n: Name)
      requires Sorted(names) && (forall m :: m in names <==> m in players) && "" !in players
      ensures if NoneMeets(players, wish) then n == "" else IsFirst(players, wish, n)
    {
      for i := 0 to |names|
        invariant forall j :: 0 <= j < i ==> !Meets(players, wish, names[j])
      {
        if Meets(players, wish, names[i]) {
          return names[i];
        }
      }
      return "";
    }

    method UpdateActivePlayer() returns (changed: bool)
      requires "" !in players
      modifies this
      ensures Selected(old(players), old(activePlayer), old(pinnedPlayer), activePlayer, pinnedPlayer)
      ensures Marked(old(players), players, activePlayer)
      ensures changed == (activePlayer != old(activePlayer))
    {
      var previous := activePlayer;
      var pinned := false;
      if pinnedPlayer != "" {
        if pinnedPlayer in players {
          activePlayer := pinnedPlayer;
          pinned := true;
        } else {
          pinnedPlayer := "";
        }
      }
      if !pinned && (activePlayer !in players || !players[activePlayer].playing) {
        activePlayer := ChooseAutomatically(previous);
      }
      MarkActive();
      changed := previous != activePlayer;
    }

    /** The choice among the players, when the previous one is gone or not playing. */
    method ChooseAutomatically(previous: Name) returns (choice: Name)
      requires "" !in players && (previous in players ==> !players[previous].playing)
      ensures Automatic(players, previous, choice)
    {
      hide Before;
      var names := SortNames(players.Keys);
      choice := FirstWanted(names, Ready);
      if choice == "" {
        if previous in players {
          return previous;
        }
        choice := FirstWanted(names, Controllable);
        if choice == "" && |names| > 0 {
          assert names[0] in names;
          choice := names[0];
          assert forall m :: Meets(players, Any, m) ==> m in names;
        }
      }
    }

    method MarkActive()
      modifies this`players
      ensures Marked(old(players), players, activePlayer)
    {
      var todo := players.Keys;
      while todo != {}
        invariant todo <= players.Keys == old(players).Keys
        invariant forall n :: n in players ==>
                    players[n] == if n in todo then old(players)[n]
                                  else old(players)[n].(isActive := n == activePlayer)
        decreases todo
      {
        var n :| n in todo;
        players := players[n := players[n].(isActive := n == activePlayer)];
        todo := todo - {n};
      }
    }

    /** Pins a player; false, and nothing changes, when it does not exist. */
    method SetActivePlayer(name: Name) returns (ok: bool)
      requires "" !in players
      modifies this
      ensures ok == (name in old(players))
      ensures ok ==> Selected(old(players), old(activePlayer), name, activePlayer, pinnedPlayer) &&
                     Marked(old(players), players, activePlayer)
      ensures !ok ==> unchanged(this)
    {
      if name !in players { return false; }
      activePlayer, pinnedPlayer := name, name;
      MarkActive();
      return true;
    }

    /** Drops the pin and chooses automatically. */
    method UseAutomaticPlayer() returns (changed: bool)
      requires "" !in players
      modifies this
      ensures Automatic(old(players), old(activePlayer), activePlayer) && pinnedPlayer == ""
      ensures Marked(old(players), players, activePlayer)
      ensures changed == (activePlayer != old(activePlayer))
    {
      pinnedPlayer := "";
      changed := UpdateActivePlayer();
    }
  }

  // ---- What the choice guarantees ----

  /** How much speaks for a player: the pin, then going on playing, being ready, having been active, control. */
  function Rank(players: map<Name, Player>, previous: Name, pinned: Name, n: Name): nat
    requires n in players
  {
    if n == pinned then 5
    else if n == previous && players[n].playing then 4
    else if players[n].canControl && players[n].playing then 3
    else if n == previous then 2
    else if players[n].canControl then 1
    else 0
  }

  ghost predicate Beats(players: map<Name, Player>, previous: Name, pinned: Name, n: Name, m: Name)
    requires n in players && m in players
  {
    var a, b := Rank(players, previous, pinned, n), Rank(players, previous, pinned, m);
    a > b || (a == b && Before(n, m))
  }

  /** The active player is the one of the highest rank, and of those the first by name; the pin stays while it can. */
  lemma ChoiceIsTop(players: map<Name, Player>, previous: Name, pinned: Name, choice: Name, pin: Name)
    requires "" !in players && Selected(players, previous, pinned, choice, pin) && players != map[]
    ensures choice in players
    ensures forall m :: m in players && m != choice ==> Beats(players, previous, pinned, choice, m)
    ensures pin == if pinned in players then pinned else ""
  {
    hide Before;
    ChoiceExists(players, previous, pinned, choice, pin);
    forall m | m in players && m != choice ensures Beats(players, previous, pinned, choice, m) {
      assert Meets(players, Any, m);
      assert Meets(players, Controllable, m) <==> players[m].canControl;
      assert Meets(players, Ready, m) <==> players[m].canControl && players[m].playing;
    }
  }

  /** There is an active player exactly when there is a player, and it is one of them. */
  lemma ChoiceExists(players: map<Name, Player>, previous: Name, pinned: Name, choice: Name, pin: Name)
    requires "" !in players && Selected(players, previous, pinned, choice, pin)
    ensures choice in players <==> players != map[]
    ensures choice == "" <==> players == map[]
  {
    if players == map[] {
      assert NoneMeets(players, Ready) && NoneMeets(players, Controllable);
    }
  }

  /** An unpinned choice that is not playing means that no controllable player is. */
  lemma IdleMeansAllIdle(players: map<Name, Player>, previous: Name, pinned: Name, choice: Name, pin: Name, n: Name)
    requires Selected(players, previous, pinned, choice, pin) && pin == "" && choice in players
    requires !players[choice].playing && n in players && players[n].canControl
    ensures !players[n].playing
  {
    if players[n].playing {
      assert Meets(players, Ready, n);
    }
  }

  /** The rules leave no freedom: there is one choice. */
  lemma ChoiceUnique(players: map<Name, Player>, previous: Name, pinned: Name,
                     a: Name, p: Name, b: Name, q: Name)
    requires Selected(players, previous, pinned, a, p) && Selected(players, previous, pinned, b, q)
    ensures a == b && p == q
  {
    if a != b {
      BeforeStrict(a, b, a);
    }
  }

  /** Choosing again, after the flags were set, changes nothing. */
  lemma ChoiceStable(players: map<Name, Player>, marked: map<Name, Player>, previous: Name, pinned: Name,
                     choice: Name, pin: Name)
    requires "" !in players && Selected(players, previous, pinned, choice, pin) && Marked(players, marked, choice)
    ensures Selected(marked, choice, pin, choice, pin) && Marked(marked, marked, choice)
  {
    forall wish, n ensures Meets(marked, wish, n) == Meets(players, wish, n) {
    }
    ChoiceExists(players, previous, pinned, choice, pin);
    assert choice in players && pin == "" && !players[choice].playing ==> NoneMeets(players, Ready);
  }
}
