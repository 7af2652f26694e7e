/**
 * The list of connected players: a vector in which names are kept unique by
 * `insert`, searched front to back by `insert` and `remove`.
 */
module PlayerLists {
  import opened Base

  /** A player's controls; the list carries them along without looking at them. */
  type Controls

  datatype Player = Player(name: string, controls: Controls)

  /** Some player in the list has this name. */
  predicate HasName(players: seq<Player>, name: string) {
    exists i :: 0 <= i < |players| && players[i].name == name
  }

  /** No two players in the list share a name. */
  predicate UniqueNames(players: seq<Player>) {
    forall i, j :: 0 <= i < j < |players| ==> players[i].name != players[j].name
  }

  /** `Iterator::position`: the index of the first player with this name. */
  function Position(players: seq<Player>, name: string): (r: Option<nat>)
    ensures r.None? <==> !HasName(players, name)
    ensures r.Some? ==> r.value < |players| && players[r.value].name == name
    ensures r.Some? ==> forall j :: 0 <= j < r.value ==> players[j].name != name
  {
    if |players| == 0 then None
    else if players[0].name == name then Some(0)
    else
      match Position(players[1..], name)
      case Some(k) => Some(k + 1)
      case None =>
        assert forall j :: 1 <= j < |players| ==> players[j] == players[1..][j - 1];
        None
  }

  /** The list after `insert`: unchanged when the name is taken, else the player appended. */
  function Inserted(players: seq<Player>, player: Player): seq<Player> {
    if HasName(players, player.name) then players else players + [player]
  }

  /** The list after `remove`, and the player removed: the first one with the name. */
  function Removed(players: seq<Player>, name: string): (seq<Player>, Option<Player>) {
    match Position(players, name)
    case Some(i) => (players[..i] + players[i + 1..], Some(players[i]))
    case None => (players, None)
  }

  class PlayerList {
    var players: seq<Player>

    /** `Default`: no players. */
    constructor()
      ensures players == []
    {
      players := [];
    }

    /** `clear`: remove every player. */
    method Clear()
      modifies this
      ensures players == []
    {
      players := [];
    }

    /**
     * `insert`: when a player of that name is present, answer true and change
     * nothing; else append the player and answer false.
     */
    method Insert(player: Player) returns (present: bool)
      modifies this
      ensures present == HasName(old(players), player.name)
      ensures players == Inserted(old(players), player)
    {
      var i := 0;
      while i < |players|
        invariant 0 <= i <= |players|
        invariant forall j :: 0 <= j < i ==> players[j].name != player.name
      {
        if players[i].name == player.name {
          return true;
        }
        i := i + 1;
      }
      players := players + [player];
      return false;
    }

    /** `remove`: take out the first player with the name and hand it back; None when there is none. */
    method Remove(name: string) returns (removed: Option<Player>)
      modifies this
      ensures removed == Removed(old(players), name).1
      ensures players == Removed(old(players), name).0
    {
      var i := 0;
      while i < |players|
        invariant 0 <= i <= |players|
        invariant forall j :: 0 <= j < i ==> players[j].name != name
      {
        if players[i].name == name {
          removed := Some(players[i]);
          players := players[..i] + players[i + 1..];
          return;
        }
        i := i + 1;
      }
      return None;
    }

    /** `len`: the number of players. */
    function Len(): (n: nat)
      reads this
      ensures n == |players|
    {
      |players|
    }

    /** `is_empty`: there are no players. */
    predicate IsEmpty()
      reads this
      ensures IsEmpty() <==> Len() == 0
    {
      |players| == 0
    }
  }

  /** An insert keeps names unique, and afterwards the name is present. */
  lemma InsertedKeepsUnique(players: seq<Player>, player: Player)
    requires UniqueNames(players)
    ensures UniqueNames(Inserted(players, player))
    ensures HasName(Inserted(players, player), player.name)
  {
    if !HasName(players, player.name) {
      var t := players + [player];
      assert t[|players|].name == player.name;
    }
  }

  /** Inserting the same player twice is the same as inserting it once. */
  lemma InsertedIdempotent(players: seq<Player>, player: Player)
    ensures Inserted(Inserted(players, player), player) == Inserted(players, player)
  {
    if !HasName(players, player.name) {
      var t := players + [player];
      assert t[|players|].name == player.name;
    }
  }

  /** A remove keeps names unique and leaves the others in their order; with unique names the name is gone. */
  lemma RemovedKeepsUnique(players: seq<Player>, name: string)
    requires UniqueNames(players)
    ensures UniqueNames(Removed(players, name).0)
    ensures !HasName(Removed(players, name).0, name)
  {
    match Position(players, name)
    case None =>
    case Some(i) =>
      var t := players[..i] + players[i + 1..];
      assert forall j :: 0 <= j < |t| ==> t[j] == players[if j < i then j else j + 1];
  }

  /** A remove takes out one player exactly when the name is present. */
  lemma RemovedLength(players: seq<Player>, name: string)
    ensures HasName(players, name) ==> |Removed(players, name).0| == |players| - 1
    ensures !HasName(players, name) ==> Removed(players, name).0 == players
  {
  }

  /** Removing a player just inserted under a new name gives back the list and the player. */
  lemma RemoveUndoesInsert(players: seq<Player>, player: Player)
    requires !HasName(players, player.name)
    ensures Removed(Inserted(players, player), player.name) == (players, Some(player))
  {
    var t := players + [player];
    assert t[|players|].name == player.name;
    assert Position(t, player.name) == Some(|players|);
    assert t[..|players|] + t[|players| + 1..] == players;
  }
}
