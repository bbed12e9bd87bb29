/** A team: base_classes/collections/team.ts. A team is a collection of players compared
    by name, so the model keeps the members' names; the players themselves (their cards and
    points) live with the game. */
module Teams {
  import opened Wrappers
  import opened ItemCollections

  datatype Team = Team(id: int, members: seq<string>)

  /** countPlayers */
  function CountPlayers(t: Team): nat
  {
    |t.members|
  }

  /** playerAt: itemAt on the members. */
  function PlayerAt(t: Team, index: int): (r: Result<Option<string>, CollectionError>)
    ensures r.Failure? <==> index < 0 || index > CountPlayers(t)
    ensures 0 <= index < CountPlayers(t) ==> r == Success(Some(t.members[index]))
    ensures index == CountPlayers(t) ==> r == Success(None)
  {
    if index < 0 || index > |t.members| then Failure(IndexOutOfBounds)
    else if index == |t.members| then Success(None)
    else Success(Some(t.members[index]))
  }

  /** hasPlayer: indexOfItem finds a member with the player's name. */
  function HasPlayer(t: Team, name: string): (b: bool)
    ensures b <==> exists i :: 0 <= i < |t.members| && t.members[i] == name
  {
    FirstIndex(t.members, name) != -1
  }

  /** equalsOther: teams are equal when their ids are, whoever their members are. */
  function EqualsOther(t: Team, other: Team): (b: bool)
    ensures b <==> t.id == other.id
  {
    t.id == other.id
  }
}
