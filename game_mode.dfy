/** ARiseGameMode's bookkeeping: handing out player indices, the searches
    over the map's ARisePlayerStart actors, team creation, transfers of
    ownership and the kill/defeat path with its defeat conditions. The world's
    contents (player states, player starts, controllers, ownable components)
    are passed in as sequences and maps. */
module GameMode {
  import opened Common
  import opened Ownership

  /* ---------------- Player indices ---------------- */

  predicate SortedBytes(s: seq<Byte>)
  {
    forall i, j :: 0 <= i < j < |s| ==> s[i] <= s[j]
  }

  lemma SortedCons(a: Byte, s: seq<Byte>)
    requires SortedBytes(s) && (s == [] || a <= s[0])
    ensures SortedBytes([a] + s)
  {
    forall i, j | 0 <= i < j < |[a] + s| ensures ([a] + s)[i] <= ([a] + s)[j] {
      if i == 0 && j > 1 {
        assert s[0] <= s[j - 1];
      }
    }
  }

  lemma SortedTail(s: seq<Byte>)
    requires SortedBytes(s) && s != []
    ensures SortedBytes(s[1..])
  {
    forall i, j | 0 <= i < j < |s[1..]| ensures s[1..][i] <= s[1..][j] {
      assert s[1..][i] == s[i + 1] && s[1..][j] == s[j + 1];
    }
  }

  /** Inserts `x` into a sorted sequence. */
  function Insert(x: Byte, s: seq<Byte>): (r: seq<Byte>)
    requires SortedBytes(s)
    ensures SortedBytes(r)
    ensures multiset(r) == multiset(s) + multiset{x}
    ensures r[0] == x || (s != [] && r[0] == s[0])
  {
    if s == [] then [x]
    else if x <= s[0] then
      SortedCons(x, s);
      [x] + s
    else
      SortedTail(s);
      var rest := Insert(x, s[1..]);
      assert s == [s[0]] + s[1..];
      SortedCons(s[0], rest);
      [s[0]] + rest
  }

  /** Inserting adds exactly the one value. */
  lemma InsertMembers(x: Byte, s: seq<Byte>, y: Byte)
    requires SortedBytes(s)
    ensures y in Insert(x, s) <==> y == x || y in s
  {
    var r := Insert(x, s);
    assert y in r <==> y in multiset(r);
    assert y in s <==> y in multiset(s);
  }

  /** Algo::SortBy on the player indices; only the keys are read afterwards,
      so the order among equal keys does not matter. */
  function SortIndices(s: seq<Byte>): (r: seq<Byte>)
    ensures SortedBytes(r)
    ensures multiset(r) == multiset(s)
  {
    if s == [] then []
    else
      assert s == [s[0]] + s[1..];
      Insert(s[0], SortIndices(s[1..]))
  }

  /** The scan of GetAvailablePlayerIndex from position `i`: the first
      position below PLAYER_INDEX_NONE where the sorted list has ended or
      holds a different index, or PLAYER_INDEX_NONE when there is none. */
  function FirstGap(sorted: seq<Byte>, i: nat): (r: Byte)
    requires i <= 255
    ensures i <= r
    ensures r == i || r <= |sorted|
    ensures forall k :: i <= k < r ==> k < |sorted| && sorted[k] == k
    ensures r < 255 ==> r >= |sorted| || sorted[r] != r
    decreases 255 - i
  {
    if i == 255 then PLAYER_INDEX_NONE
    else if i >= |sorted| then i
    else if sorted[i] != i then i
    else FirstGap(sorted, i + 1)
  }

  /** GetAvailablePlayerIndex over the indices of the world's player states;
      an invalid world yields PLAYER_INDEX_NONE. */
  function GetAvailablePlayerIndex(worldValid: bool, indices: seq<Byte>): (r: Byte)
    ensures !worldValid ==> r == PLAYER_INDEX_NONE
  {
    if !worldValid then PLAYER_INDEX_NONE else FirstGap(SortIndices(indices), 0)
  }

  lemma {:induction false} MultisetMembers(s: seq<Byte>, t: seq<Byte>, x: Byte)
    requires multiset(s) == multiset(t)
    ensures x in s <==> x in t
  {
    assert x in s <==> x in multiset(s);
    assert x in t <==> x in multiset(t);
  }

  /** No index below PLAYER_INDEX_NONE is held twice; any number of player
      states may still be waiting at PLAYER_INDEX_NONE, as every new one
      does. */
  predicate AssignedDistinct(indices: seq<Byte>)
  {
    forall k: Byte :: k < PLAYER_INDEX_NONE ==> multiset(indices)[k] <= 1
  }

  /** Distinct indices hold every index at most once, so in particular
      AssignedDistinct holds for them. */
  lemma {:induction false} NoDuplicatesAssignedDistinct(indices: seq<Byte>)
    requires NoDuplicates(indices)
    ensures forall k: Byte :: multiset(indices)[k] <= 1
    ensures AssignedDistinct(indices)
  {
    if indices != [] {
      var tail := indices[1..];
      assert indices == [indices[0]] + tail;
      ConsNoDuplicates(indices[0], tail);
      NoDuplicatesAssignedDistinct(tail);
      assert multiset(indices) == multiset{indices[0]} + multiset(tail);
      assert multiset(tail)[indices[0]] == 0;
    }
  }

  /** Two positions holding the same value make two copies of it. */
  lemma TwoCopies(s: seq<Byte>, i: int, j: int)
    requires 0 <= i < j < |s|
    ensures s[i] == s[j] ==> multiset(s)[s[i]] >= 2
  {
    if s[i] == s[j] {
      assert s == s[..j] + [s[j]] + s[j + 1..];
      assert s[..j][i] == s[i];
      assert s[i] in multiset(s[..j]);
    }
  }

  /** When no assigned index is held twice, the index handed out is the
      smallest one not in use, or PLAYER_INDEX_NONE when 0 to 254 are all
      taken. */
  lemma AvailableIndexIsSmallestUnused(indices: seq<Byte>)
    requires AssignedDistinct(indices)
    ensures GetAvailablePlayerIndex(true, indices) < PLAYER_INDEX_NONE ==>
      GetAvailablePlayerIndex(true, indices) !in indices
    ensures forall k: Byte :: k < GetAvailablePlayerIndex(true, indices) ==> k in indices
  {
    var sorted := SortIndices(indices);
    var r := FirstGap(sorted, 0);
    forall k: Byte | k < r ensures k in indices {
      assert sorted[k] == k;
      MultisetMembers(sorted, indices, k);
    }
    if r < 255 {
      forall j | 0 <= j < |sorted| ensures sorted[j] != r {
        if j < r {
          assert sorted[j] == j;
        } else if j > r {
          if r > 0 {
            assert sorted[r - 1] == r - 1;
            TwoCopies(sorted, r - 1, r);
          }
          assert sorted[r] <= sorted[j];
        }
      }
      MultisetMembers(sorted, indices, r);
    }
  }

  /** Whenever 0 is held, 1 is free and no assigned index is held twice,
      index 1 is handed out, however many states wait at PLAYER_INDEX_NONE. */
  lemma NextAfterZero(indices: seq<Byte>)
    requires AssignedDistinct(indices) && 0 in indices && 1 !in indices
    ensures GetAvailablePlayerIndex(true, indices) == 1
  {
    AvailableIndexIsSmallestUnused(indices);
  }

  /** Two player states still waiting at PLAYER_INDEX_NONE and one holding
      0: index 1 is handed out. */
  lemma WaitingStatesGetNextIndex()
    ensures GetAvailablePlayerIndex(true, [255, 0, 255]) == 1
  {
    var indices: seq<Byte> := [255, 0, 255];
    assert multiset(indices) == multiset{0, 255, 255};
    assert indices[1] == 0;
    NextAfterZero(indices);
  }

  /** Duplicated indices break the scan: with two players at index 0 and one
      at 1, index 1 is handed out again although it is in use. */
  lemma DuplicateIndexHandedOutAgain()
    ensures GetAvailablePlayerIndex(true, [0, 0, 1]) == 1
  {
    var both: seq<Byte> := [0, 0, 1];
    SortZeroZeroOne();
    assert FirstGap(both, 0) == FirstGap(both, 1);
  }

  lemma SortOne()
    ensures SortIndices([1]) == [1]
  {
    var one: seq<Byte> := [1];
    assert one[1..] == [];
  }

  lemma SortZeroOne()
    ensures SortIndices([0, 1]) == [0, 1]
  {
    var zeroOne: seq<Byte> := [0, 1];
    assert zeroOne[1..] == [1];
    SortOne();
  }

  lemma SortZeroZeroOne()
    ensures SortIndices([0, 0, 1]) == [0, 0, 1]
  {
    var both: seq<Byte> := [0, 0, 1];
    assert both[1..] == [0, 1];
    SortZeroOne();
  }

  /* ---------------- Player starts ---------------- */

  /** ARisePlayerStart: the player that spawned (or will spawn) at it. */
  class PlayerStart {
    var player: Controller?

    constructor ()
      ensures player == null
    {
      player := null;
    }

    function GetPlayer(): Controller? reads this { player }

    method SetPlayer(newPlayer: Controller?)
      modifies this`player
      ensures GetPlayer() == newPlayer
    {
      player := newPlayer;
    }
  }

  /** The position of the first start held by `player` in iteration order,
      or -1. */
  function FirstHeld(starts: seq<PlayerStart>, player: Controller?): (k: int)
    reads starts
    ensures -1 <= k < |starts|
    ensures k >= 0 ==> starts[k].player == player
    ensures forall j :: 0 <= j < |starts| && (k < 0 || j < k) ==> starts[j].player != player
  {
    if starts == [] then -1
    else if starts[0].player == player then 0
    else
      var k := FirstHeld(starts[1..], player);
      if k < 0 then -1 else k + 1
  }

  /** The position of the last start without a player, or -1. */
  function LastEmpty(starts: seq<PlayerStart>): (k: int)
    reads starts
    ensures -1 <= k < |starts|
    ensures k >= 0 ==> starts[k].player == null
    ensures forall j :: k < j < |starts| ==> starts[j].player != null
  {
    if starts == [] then -1
    else if starts[|starts| - 1].player == null then |starts| - 1
    else LastEmpty(starts[..|starts| - 1])
  }

  /** The first start held by the player, or null. */
  function GetRisePlayerStartForPlayer(starts: seq<PlayerStart>, player: Controller?): (r: PlayerStart?)
    reads starts
    ensures r == null <==> forall s :: s in starts ==> s.player != player
    ensures r != null ==> r in starts && r.player == player
    ensures r != null ==> exists k :: 0 <= k < |starts| && starts[k] == r &&
                                      forall j :: 0 <= j < k ==> starts[j].player != player
  {
    var k := FirstHeld(starts, player);
    if k < 0 then null else starts[k]
  }

  /** The first start without a player, or null. */
  function GetUnassignedPlayerStart(starts: seq<PlayerStart>): (r: PlayerStart?)
    reads starts
    ensures r == null <==> forall s :: s in starts ==> s.player != null
    ensures r != null ==> r in starts && r.player == null
    ensures r != null ==> exists k :: 0 <= k < |starts| && starts[k] == r &&
                                      forall j :: 0 <= j < k ==> starts[j].player != null
  {
    var k := FirstHeld(starts, null);
    if k < 0 then null else starts[k]
  }

  /** Returns the first start already held by the player. Failing that, the
      player is assigned to the LAST start without a player (the remembered
      empty spot is overwritten on every empty start), which is returned; with
      no empty start the result is null and nothing changes. */
  method GetOrAssignPlayerStartForPlayer(starts: seq<PlayerStart>, player: Controller?) returns (r: PlayerStart?)
    modifies starts`player
    ensures old(FirstHeld(starts, player)) >= 0 ==>
      r == starts[old(FirstHeld(starts, player))] &&
      forall s :: s in starts ==> s.player == old(s.player)
    ensures old(FirstHeld(starts, player)) < 0 && old(LastEmpty(starts)) < 0 ==>
      r == null && forall s :: s in starts ==> s.player == old(s.player)
    ensures old(FirstHeld(starts, player)) < 0 && old(LastEmpty(starts)) >= 0 ==>
      r == starts[old(LastEmpty(starts))] && r.player == player &&
      forall s :: s in starts && s != r ==> s.player == old(s.player)
    ensures r != null ==> GetRisePlayerStartForPlayer(starts, player) == r
  {
    var firstEmptySpot: PlayerStart? := null;
    var i := 0;
    while i < |starts|
      invariant 0 <= i <= |starts|
      invariant FirstHeld(starts[..i], player) < 0
      invariant firstEmptySpot == (if LastEmpty(starts[..i]) < 0 then null else starts[LastEmpty(starts[..i])])
    {
      var start := starts[i];
      assert starts[..i + 1] == starts[..i] + [start];
      assert starts[..i + 1][..i] == starts[..i];
      if start.GetPlayer() == player {
        FirstHeldPrefix(starts, player, i);
        return start;
      } else if start.GetPlayer() == null {
        firstEmptySpot := start;
      }
      i := i + 1;
    }
    assert starts[..i] == starts;
    if firstEmptySpot != null {
      firstEmptySpot.SetPlayer(player);
      assert FirstHeld(starts, player) >= 0 by {
        assert firstEmptySpot in starts;
      }
    }
    return firstEmptySpot;
  }

  /** When the prefix before `i` holds no start of the player and position
      `i` does, `i` is the first held position. */
  lemma FirstHeldPrefix(starts: seq<PlayerStart>, player: Controller?, i: int)
    requires 0 <= i < |starts|
    requires FirstHeld(starts[..i], player) < 0 && starts[i].player == player
    ensures FirstHeld(starts, player) == i
  {
    var k := FirstHeld(starts, player);
  }

  /* ---------------- Defeat conditions ---------------- */

  /** A class of actors; TSubclassOf<AActor>. */
  type ClassId = nat

  /** The engine's class information about actors. */
  datatype ClassTable = ClassTable(classOf: ActorId -> ClassId, isChildOf: (ClassId, ClassId) -> bool)

  /** FRiseDefeatConditionBase, stored by value in the game mode. */
  datatype DefeatConditionBase = DefeatConditionBase
  {
    /** The base condition never reports a defeat. */
    function IsDefeated(actor: Option<ActorId>, actorOwner: Controller?): (r: bool)
      ensures !r
    {
      false
    }

    function GetDefeatReason(): (r: string)
      ensures r == ""
    {
      ""
    }
  }

  /** How many of the owned actors are of the class or one of its
      subclasses. */
  function CountMatching(owned: seq<ActorId>, table: ClassTable, actorClass: ClassId): (n: nat)
    ensures n <= |owned|
  {
    if owned == [] then 0
    else CountMatching(owned[..|owned| - 1], table, actorClass)
         + (if table.isChildOf(table.classOf(owned[|owned| - 1]), actorClass) then 1 else 0)
  }

  /** Gaining an actor adds one to the count when the actor matches and
      nothing otherwise. */
  lemma CountMatchingAppend(owned: seq<ActorId>, a: ActorId, table: ClassTable, actorClass: ClassId)
    ensures CountMatching(owned + [a], table, actorClass)
         == CountMatching(owned, table, actorClass) + (if table.isChildOf(table.classOf(a), actorClass) then 1 else 0)
  {
    assert (owned + [a])[..|owned|] == owned;
  }

  /** The count ignores non-matching actors and counts every matching one:
      with every actor matching it is the length, with none it is zero. */
  lemma {:induction false} CountMatchingExtremes(owned: seq<ActorId>, table: ClassTable, actorClass: ClassId)
    ensures (forall k :: 0 <= k < |owned| ==> table.isChildOf(table.classOf(owned[k]), actorClass)) ==>
      CountMatching(owned, table, actorClass) == |owned|
    ensures (forall k :: 0 <= k < |owned| ==> !table.isChildOf(table.classOf(owned[k]), actorClass)) ==>
      CountMatching(owned, table, actorClass) == 0
  {
    if owned != [] {
      var init := owned[..|owned| - 1];
      assert forall k :: 0 <= k < |init| ==> init[k] == owned[k];
      CountMatchingExtremes(init, table, actorClass);
    }
  }

  /** The player state a defeat check is about: the given owner's Rise player
      state when an owner is given, else the owner recorded by the actor's
      ownable component, else none. */
  function DefeatOwner(actor: ActorId, actorOwner: Controller?, ownables: map<ActorId, OwnableComponent>): (r: PlayerState?)
    reads if actor in ownables then {ownables[actor]} else {}
    ensures actorOwner != null ==> r == actorOwner.playerState
    ensures actorOwner == null && actor in ownables ==> r == ownables[actor].owner
    ensures actorOwner == null && actor !in ownables ==> r == null
  {
    if actorOwner != null then actorOwner.playerState
    else if actor in ownables then ownables[actor].owner
    else null
  }

  /** FRiseRequiredUnitsDefeatCondition: the class and the number of actors
      of it the condition is about (int32 in the editor). */
  datatype RequiredUnitsDefeatCondition = RequiredUnitsDefeatCondition(actorClass: ClassId, actorCount: int)
  {
    /** Whether an owned-actor list meets the count: the code reports a
        defeat when the player controls AT LEAST actorCount matching actors. */
    predicate CountReached(owned: seq<ActorId>, table: ClassTable)
    {
      CountMatching(owned, table, actorClass) >= actorCount
    }

    /** False for a missing actor or when no owner can be determined;
        otherwise whether the owner's list reaches the count. */
    function IsDefeated(actor: Option<ActorId>, actorOwner: Controller?, ownables: map<ActorId, OwnableComponent>, table: ClassTable): (r: bool)
      reads if actor.Some? && actor.value in ownables then {ownables[actor.value]} else {}
      reads if actorOwner != null && actorOwner.playerState != null then {actorOwner.playerState} else {}
      reads if actor.Some? && actor.value in ownables && ownables[actor.value].owner != null
            then {ownables[actor.value].owner} else {}
      ensures r <==> actor.Some? && DefeatOwner(actor.value, actorOwner, ownables) != null &&
                     CountReached(DefeatOwner(actor.value, actorOwner, ownables).ownedActors, table)
    {
      if actor.None? then false
      else
        var ps := DefeatOwner(actor.value, actorOwner, ownables);
        ps != null && CountMatching(ps.ownedActors, table, actorClass) >= actorCount
    }

    function GetDefeatReason(): (r: string)
      ensures |r| > 0
    {
      "The player does not control the necessary actors."
    }
  }

  /** Monotonicity: gaining an actor never turns a reached count into an
      unreached one. */
  lemma CountReachedMonotone(c: RequiredUnitsDefeatCondition, owned: seq<ActorId>, a: ActorId, table: ClassTable)
    requires c.CountReached(owned, table)
    ensures c.CountReached(owned + [a], table)
  {
    CountMatchingAppend(owned, a, table, c.actorClass);
  }

  /** The inversion of the documented meaning: a player holding exactly the
      required number of matching actors is reported as defeated, and a
      player holding fewer is not. */
  lemma HoldingRequiredUnitsIsDefeat(c: RequiredUnitsDefeatCondition, owned: seq<ActorId>, table: ClassTable)
    requires forall k :: 0 <= k < |owned| ==> table.isChildOf(table.classOf(owned[k]), c.actorClass)
    ensures |owned| >= c.actorCount ==> c.CountReached(owned, table)
    ensures |owned| < c.actorCount ==> !c.CountReached(owned, table)
  {
    CountMatchingExtremes(owned, table, c.actorClass);
  }

  /* ---------------- The game mode ---------------- */

  /** The player NotifyActorKilled passes on: the given owner when it is
      non-null and its Rise player state is the owner recorded by the actor's
      ownable component, otherwise null. */
  function VerifiedOwner(actor: ActorId, actorOwner: Controller?, ownables: map<ActorId, OwnableComponent>): (r: Controller?)
    reads if actor in ownables then {ownables[actor]} else {}
    ensures r == null || r == actorOwner
    ensures r != null <==>
      actorOwner != null && actor in ownables && ownables[actor].owner != null &&
      ownables[actor].owner == actorOwner.playerState
  {
    if actorOwner != null && actor in ownables && ownables[actor].owner != null &&
       ownables[actor].owner == actorOwner.playerState
    then actorOwner
    else null
  }

  /** The player state TransferActorOwnership compares against: the new
      owner's Rise player state, without a validity check. */
  function RawState(c: Controller?): PlayerState?
  {
    if c == null then null else c.playerState
  }

  /** The owner currently recorded for an actor, if it has an ownable
      component. */
  function OwnerOf(actor: ActorId, ownables: map<ActorId, OwnableComponent>): PlayerState?
    reads if actor in ownables then {ownables[actor]} else {}
  {
    if actor in ownables then ownables[actor].owner else null
  }

  function ComponentOf(actor: Option<ActorId>, ownables: map<ActorId, OwnableComponent>): set<OwnableComponent>
  {
    if actor.Some? && actor.value in ownables then {ownables[actor.value]} else {}
  }

  /** The player states a transfer of `actor` to `newOwner` may touch: the
      recorded owner and the new controller's player state. */
  function TransferOwners(actor: Option<ActorId>, newOwner: Controller?, ownables: map<ActorId, OwnableComponent>): set<PlayerState>
    reads ComponentOf(actor, ownables)
  {
    if actor.Some? then Owners(OwnerOf(actor.value, ownables), ControllerState(newOwner)) else {}
  }

  /** The cross-object invariant of ownership: every player state of the
      world lists exactly the actors whose ownable component names it. */
  ghost predicate OwnershipConsistent(states: set<PlayerState>, ownables: map<ActorId, OwnableComponent>)
    reads states, ownables.Values
  {
    forall ps, a :: ps in states ==>
      (a in ps.ownedActors <==> a in ownables && ownables[a].owner == ps)
  }

  /** A kill reported to OnActorKilled: the actor and the verified owner. */
  datatype KillReport = KillReport(actor: ActorId, owner: Controller?)

  /** ARiseGameMode: the configured number of teams and defeat conditions,
      the teams created at InitGame, and ghost logs of the OnActorKilled and
      player-defeated notifications. */
  class GameMode {
    var numTeams: Byte
    var defeatConditions: seq<DefeatConditionBase>
    var teams: seq<TeamInfo>
    ghost var killReports: seq<KillReport>
    ghost var defeatedPlayers: seq<Controller?>

    /** In the primary game mode there is one team. */
    constructor ()
      ensures numTeams == 1 && defeatConditions == [] && teams == []
      ensures killReports == [] && defeatedPlayers == []
    {
      numTeams := 1;
      defeatConditions := [];
      teams := [];
      killReports := [];
      defeatedPlayers := [];
    }

    /** A game mode whose defaults were edited. */
    constructor Configured(inNumTeams: Byte, inDefeatConditions: seq<DefeatConditionBase>)
      ensures numTeams == inNumTeams && defeatConditions == inDefeatConditions && teams == []
      ensures killReports == [] && defeatedPlayers == []
    {
      numTeams := inNumTeams;
      defeatConditions := inDefeatConditions;
      teams := [];
      killReports := [];
      defeatedPlayers := [];
    }

    function GetTeams(): (r: seq<TeamInfo>)
      reads this
      ensures r == teams
    {
      teams
    }

    /** Spawns NumTeams new, empty teams with indices 0 to NumTeams-1 and
        appends them, in that order, to Teams. */
    method InitGame()
      modifies this`teams
      ensures |teams| == |old(teams)| + numTeams
      ensures teams[..|old(teams)|] == old(teams)
      ensures forall j :: |old(teams)| <= j < |teams| ==>
        fresh(teams[j]) && teams[j].GetTeamIndex() == j - |old(teams)| && teams[j].teamPlayers == []
    {
      var teamIndex: Byte := 0;
      while teamIndex < numTeams
        invariant 0 <= teamIndex <= numTeams
        invariant |teams| == |old(teams)| + teamIndex
        invariant teams[..|old(teams)|] == old(teams)
        invariant forall j :: |old(teams)| <= j < |teams| ==>
          fresh(teams[j]) && teams[j].teamIndex == j - |old(teams)| && teams[j].teamPlayers == []
      {
        var team := new TeamInfo();
        team.SetTeamIndex(teamIndex);
        teams := teams + [team];
        teamIndex := teamIndex + 1;
      }
    }

    /** Moves an actor to a new owner. Returns false for a missing actor or
        when the recorded owner already is the new owner's Rise player state;
        otherwise the ownable component takes the owner SetPlayerOwnerByController
        derives from the controller (none for an invalid one), the change is
        fanned out, and the result is true. The source dereferences the
        component and the new owner on that path, so both must exist. */
    method TransferActorOwnership(actor: Option<ActorId>, newOwner: Controller?,
                                  ownables: map<ActorId, OwnableComponent>, controllers: seq<Controller>)
      returns (transferred: bool)
      requires WellAttached(ownables)
      requires OwnershipConsistent(StatesOf(controllers), ownables)
      requires actor.Some? && OwnerOf(actor.value, ownables) != RawState(newOwner) ==>
        actor.value in ownables && newOwner != null
      modifies ComponentOf(actor, ownables)`owner
      modifies TransferOwners(actor, newOwner, ownables)`ownedActors
      ensures transferred <==> actor.Some? && old(OwnerOf(actor.value, ownables)) != RawState(newOwner)
      ensures transferred ==> ownables[actor.value].owner == ControllerState(newOwner)
      ensures transferred ==>
        var prev, next := old(OwnerOf(actor.value, ownables)), ControllerState(newOwner);
        (prev != null ==> (prev.ownedActors ==
          (if prev != next && prev in StatesOf(controllers)
           then AfterOwnershipChange(old(prev.ownedActors), actor.value, false)
           else old(prev.ownedActors))))
        && (next != null ==> (next.ownedActors ==
          (if prev != next && next in StatesOf(controllers)
           then AfterOwnershipChange(old(next.ownedActors), actor.value, true)
           else old(next.ownedActors))))
      ensures !transferred ==> unchanged(ComponentOf(actor, ownables)) && unchanged(TransferOwners(actor, newOwner, ownables))
      ensures OwnershipConsistent(StatesOf(controllers), ownables)
    {
      if actor.None? {
        return false;
      }
      var a := actor.value;
      var oldState := OwnerOf(a, ownables);
      if oldState == RawState(newOwner) {
        return false;
      }
      var component := ownables[a];
      ghost var states := StatesOf(controllers);
      ghost var newState := ControllerState(newOwner);
      ghost var before := map ps | ps in states :: ps.ownedActors;
      component.SetPlayerOwnerByController(newOwner, controllers);
      forall ps, x | ps in states
        ensures x in ps.ownedActors <==> x in ownables && ownables[x].owner == ps
      {
        assert x in before[ps] <==> x in ownables && old(ownables[x].owner) == ps;
        if x != a && x in ownables {
          assert ownables[x].actor == x;
          assert ownables[x].owner == old(ownables[x].owner);
        }
        if ps == oldState && oldState != newState {
          AfterOwnershipChangeMembers(before[ps], a, false, x);
        } else if ps == newState && oldState != newState {
          AfterOwnershipChangeMembers(before[ps], a, true, x);
        } else {
          assert ps.ownedActors == before[ps];
        }
      }
      return true;
    }

    /** Passes the kill on to OnActorKilled with the owner only when the
        owner is confirmed by the actor's ownable component. */
    method NotifyActorKilled(actor: ActorId, actorOwner: Controller?, ownables: map<ActorId, OwnableComponent>)
      modifies this`killReports, this`defeatedPlayers
      ensures killReports == old(killReports) + [KillReport(actor, VerifiedOwner(actor, actorOwner, ownables))]
      ensures defeatedPlayers == old(defeatedPlayers)
    {
      if actorOwner != null && actor in ownables {
        var component := ownables[actor];
        var state := component.GetPlayerOwner();
        if state != null && state == actorOwner.playerState {
          OnActorKilled(actor, actorOwner);
          return;
        }
      }
      OnActorKilled(actor, null);
    }

    /** Runs the stored defeat conditions, stopping at the first that fires.
        They are base conditions held by value, so none fires and no player
        is ever reported defeated. */
    method OnActorKilled(actor: ActorId, actorOwner: Controller?)
      modifies this`killReports, this`defeatedPlayers
      ensures killReports == old(killReports) + [KillReport(actor, actorOwner)]
      ensures defeatedPlayers == old(defeatedPlayers)
    {
      killReports := killReports + [KillReport(actor, actorOwner)];
      var fired := false;
      var i := 0;
      while i < |defeatConditions|
        invariant 0 <= i <= |defeatConditions|
        invariant !fired
      {
        if defeatConditions[i].IsDefeated(Some(actor), actorOwner) {
          fired := true;
          break;
        }
        i := i + 1;
      }
      defeatedPlayers := defeatedPlayers + (if fired then [actorOwner] else []);
    }
  }
}
