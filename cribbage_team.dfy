/** A cribbage team: implementations/cribbage_team.ts over base_classes/collections/team.ts.
    The team holds its players themselves, so that points added through the team are the
    players' points; members are looked up by name, as the collection's indexOfItem does
    with equalsOther. */
module CribbageTeams {
  import opened Wrappers
  import opened ItemCollections
  import opened Teams
  import opened CribbagePlayers

  datatype TeamError = PlayerNotOnTeam

  /** The sum of a list of scores. */
  function Sum(s: seq<int>): int
  {
    if s == [] then 0 else Sum(s[..|s| - 1]) + s[|s| - 1]
  }

  /** Raising one score raises the sum by the same amount. */
  lemma {:induction false} SumUpdate(s: seq<int>, k: nat, amount: int)
    requires k < |s|
    ensures Sum(s[k := s[k] + amount]) == Sum(s) + amount
  {
    var t := s[k := s[k] + amount];
    var last := |s| - 1;
    if k < last {
      assert t[..last] == s[..last][k := s[k] + amount];
      SumUpdate(s[..last], k, amount);
    } else {
      assert t[..last] == s[..last];
    }
  }

  /** The sum of the first i + 1 scores is that of the first i plus the next one. */
  lemma SumPrefix(s: seq<int>, i: nat)
    requires i < |s|
    ensures Sum(s[..i + 1]) == Sum(s[..i]) + s[i]
  {
    assert s[..i + 1][..i] == s[..i];
  }

  /** The members' points, in member order. */
  function PointsOf(players: seq<CribbagePlayer>): (ps: seq<int>)
    reads (set p | p in players)`points
    ensures |ps| == |players|
    ensures forall i :: 0 <= i < |players| ==> ps[i] == players[i].points
  {
    if players == [] then []
    else PointsOf(players[..|players| - 1]) + [players[|players| - 1].points]
  }

  class CribbageTeam {
    const id: int
    const members: seq<CribbagePlayer>

    constructor(id: int, members: seq<CribbagePlayer>)
      ensures this.id == id && this.members == members
    {
      this.id := id;
      this.members := members;
    }

    /** The team as a base team: its id and its members' names. */
    function AsTeam(): Team
    {
      Team(id, Names(members))
    }

    /** The team's total: what countPoints adds up. */
    function Total(): int
      reads (set p | p in members)`points
    {
      Sum(PointsOf(members))
    }

    /** hasPlayer: some member has the player's name. */
    function HasPlayer(name: string): (b: bool)
      ensures b <==> exists i :: 0 <= i < |members| && members[i].name == name
    {
      assert forall i :: 0 <= i < |members| ==> AsTeam().members[i] == members[i].name;
      Teams.HasPlayer(AsTeam(), name)
    }

    /** numPlayers */
    function NumPlayers(): nat
    {
      |members|
    }

    /** countPoints: the members' points, summed one by one. */
    method CountPoints() returns (points: int)
      ensures points == Total()
    {
      points := 0;
      var ps := PointsOf(members);
      for index := 0 to |members|
        invariant points == Sum(ps[..index])
      {
        SumPrefix(ps, index);
        points := points + members[index].points;
      }
      assert ps[..|members|] == ps;
    }

    /** addPoints: the first member with the player's name gains the points and the answer
        is whether the team has passed 120; a player who is not on the team is refused and
        nobody's points change. */
    method AddPoints(name: string, amount: int) returns (r: Result<bool, TeamError>)
      modifies (set p | p in members)`points
      ensures !HasPlayer(name) ==> r == Failure(PlayerNotOnTeam)
      ensures !HasPlayer(name) ==> forall p :: p in members ==> p.points == old(p.points)
      ensures HasPlayer(name) ==>
        var k := FirstIndex(Names(members), name);
        && members[k].points == old(members[k].points) + amount
        && (forall p :: p in members && p != members[k] ==> p.points == old(p.points))
        && r == Success(Total() > 120)
    {
      var index := LinearSearch(Names(members), name);
      if index == -1 {
        return Failure(PlayerNotOnTeam);
      }
      members[index].AddPoints(amount);
      var total := CountPoints();
      r := Success(total > 120);
    }
  }

  /** The first test of spec/CribbageTeamSpec.ts: two players on one team, 2 points to
      the first and 7 to the second make a team total of 9. */
  method TeamTotalExample() returns (total: int)
    ensures total == 9
  {
    var one := new CribbagePlayer("Bob", []);
    var two := new CribbagePlayer("Steve", []);
    var team := new CribbageTeam(1, [one, two]);
    BobAndSteve(team);
    var r1 := team.AddPoints("Bob", 2);
    var r2 := team.AddPoints("Steve", 7);
    assert one.points == 2 && two.points == 7;
    total := team.CountPoints();
    TotalOfTwo(team);
  }

  lemma BobAndSteve(team: CribbageTeam)
    requires Names(team.members) == ["Bob", "Steve"]
    ensures team.HasPlayer("Bob") && team.HasPlayer("Steve")
    ensures FirstIndex(Names(team.members), "Bob") == 0
    ensures FirstIndex(Names(team.members), "Steve") == 1
  {
    assert team.members[0].name == "Bob" && team.members[1].name == "Steve";
  }

  /** A two-player team's total is the sum of its two players' points. */
  lemma TotalOfTwo(team: CribbageTeam)
    requires |team.members| == 2
    ensures team.Total() == team.members[0].points + team.members[1].points
  {
    var ps := PointsOf(team.members);
    assert ps[..|ps| - 1] == [ps[0]] && [ps[0]][..0] == [];
    assert Sum(ps) == Sum([ps[0]]) + ps[1];
    assert Sum([ps[0]]) == Sum([]) + ps[0];
  }

  /** The second test: the team has its two players and not a third. */
  method TeamMembersExample() returns (bob: bool, steve: bool, alice: bool)
    ensures bob && steve && !alice
  {
    var one := new CribbagePlayer("Bob", []);
    var two := new CribbagePlayer("Steve", []);
    var team := new CribbageTeam(1, [one, two]);
    bob := team.HasPlayer("Bob");
    steve := team.HasPlayer("Steve");
    alice := team.HasPlayer("Alice");
    assert team.members[0].name == "Bob" && team.members[1].name == "Steve";
  }
}
