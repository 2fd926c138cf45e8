/** Ownership and team bookkeeping: ARiseTeamInfo's roster, ARisePlayerState's
    player index, team and owned-actor list, and URiseOwnableComponent, whose
    change of owner is fanned out to the player states of every controller in
    the world. Controllers are only the link from a player to its player
    state here. */
module Ownership {
  import opened Common

  /** ARisePlayerState::PLAYER_INDEX_NONE: no player index assigned. */
  const PLAYER_INDEX_NONE: Byte := 255

  /** An AController as far as ownership is concerned: whether it is still
      valid (IsValid) and its player state cast to ARisePlayerState, which is
      null for a controller without a Rise player state. */
  class Controller {
    const valid: bool
    const playerState: PlayerState?

    constructor (inValid: bool, inPlayerState: PlayerState?)
      ensures valid == inValid && playerState == inPlayerState
    {
      valid, playerState := inValid, inPlayerState;
    }
  }

  /** The player state reached through a controller, as a frame. */
  function StateOf(c: Controller?): set<PlayerState>
  {
    if c != null && c.playerState != null then {c.playerState} else {}
  }

  /** The player states of the controllers in the world (the ones the
      controller iterator visits and whose state is a Rise player state). */
  function StatesOf(controllers: seq<Controller>): set<PlayerState>
  {
    set c | c in controllers && c.playerState != null :: c.playerState
  }

  /** The player states of one more controller. */
  lemma StatesOfNext(controllers: seq<Controller>, i: nat)
    requires i < |controllers|
    ensures StatesOf(controllers[..i + 1]) == StatesOf(controllers[..i]) + StateOf(controllers[i])
  {
    assert controllers[..i + 1] == controllers[..i] + [controllers[i]];
  }

  /** The non-null owners among an old and a new owner, as a frame. */
  function Owners(a: PlayerState?, b: PlayerState?): set<PlayerState>
  {
    (if a != null then {a} else {}) + (if b != null then {b} else {})
  }

  /** What NotifyActorOwnershipChanged does to a player's owned-actor list
      when the actor really changes hands: the new owner adds it once, any
      other notified player removes every occurrence of it. */
  function AfterOwnershipChange(owned: seq<ActorId>, a: ActorId, toThis: bool): (r: seq<ActorId>)
    ensures toThis ==> |r| <= |owned| + 1
    ensures !toThis ==> |r| <= |owned|
  {
    if toThis then AddUnique(owned, a).0 else RemoveAll(owned, a)
  }

  /** An owner's list once it has, or has not yet, heard of the change. */
  function Notified(owned: seq<ActorId>, a: ActorId, toThis: bool, heard: bool): seq<ActorId>
  {
    if heard then AfterOwnershipChange(owned, a, toThis) else owned
  }

  /** Hearing of the same change again leaves the list as it was. */
  lemma NotifiedAgain(owned: seq<ActorId>, a: ActorId, toThis: bool, heard: bool, hit: bool)
    ensures (if hit then AfterOwnershipChange(Notified(owned, a, toThis, heard), a, toThis)
             else Notified(owned, a, toThis, heard))
         == Notified(owned, a, toThis, heard || hit)
  {
    AfterOwnershipChangeIdempotent(owned, a, toThis);
  }

  /** The affected actor ends up in the list exactly when the notified
      player is the new owner, and no other actor is added or lost. */
  lemma AfterOwnershipChangeMembers(owned: seq<ActorId>, a: ActorId, toThis: bool, x: ActorId)
    ensures x == a ==> (x in AfterOwnershipChange(owned, a, toThis) <==> toThis)
    ensures x != a ==> (x in AfterOwnershipChange(owned, a, toThis) <==> x in owned)
  {
    if !toThis {
      RemoveAllMembers(owned, a, x);
    }
  }

  /** The owned-actor list never acquires duplicates. */
  lemma AfterOwnershipChangeNoDuplicates(owned: seq<ActorId>, a: ActorId, toThis: bool)
    requires NoDuplicates(owned)
    ensures NoDuplicates(AfterOwnershipChange(owned, a, toThis))
  {
    if !toThis {
      RemoveAllNoDuplicates(owned, a);
    }
  }

  /** Repeating the same notification changes nothing more. */
  lemma AfterOwnershipChangeIdempotent(owned: seq<ActorId>, a: ActorId, toThis: bool)
    ensures AfterOwnershipChange(AfterOwnershipChange(owned, a, toThis), a, toThis)
         == AfterOwnershipChange(owned, a, toThis)
  {
    if !toThis {
      RemoveAllMembers(owned, a, a);
      RemoveAllAbsent(RemoveAll(owned, a), a);
    }
  }

  /** ARiseTeamInfo: a team index (255 until the game mode sets it) and the
      controllers on the team. */
  class TeamInfo {
    var teamIndex: Byte
    var teamPlayers: seq<Controller>

    /** The roster holds each controller once. */
    ghost predicate Valid()
      reads this
    {
      NoDuplicates(teamPlayers)
    }

    constructor ()
      ensures teamIndex == 255 && teamPlayers == [] && Valid()
    {
      teamIndex := 255;
      teamPlayers := [];
    }

    function GetTeamIndex(): Byte reads this { teamIndex }

    method SetTeamIndex(newTeamIndex: Byte)
      modifies this`teamIndex
      ensures GetTeamIndex() == newTeamIndex
    {
      teamIndex := newTeamIndex;
    }

    /** A null player is never on the team; any other is on it exactly when
        the roster lists it. */
    function IsOnTeam(player: Controller?): (r: bool)
      reads this
      ensures r <==> player != null && player in teamPlayers
    {
      player != null && player in teamPlayers
    }

    /** Adds a controller that has a Rise player state and is not yet on the
        roster: its state's team becomes this one and the change is announced
        to the state. Any other call changes nothing. A player already on
        another team is handed to this team's own RemoveFromTeam, which does
        nothing because the player is not on this roster, so the previous
        team keeps listing the player. */
    method AddToTeam(player: Controller?)
      requires Valid()
      modifies this`teamPlayers, StateOf(player)`team, StateOf(player)`teamNotices
      ensures Valid()
      ensures player == null || old(IsOnTeam(player)) || player.playerState == null ==>
        teamPlayers == old(teamPlayers) &&
        (player != null && player.playerState != null ==>
          player.playerState.team == old(player.playerState.team) &&
          player.playerState.teamNotices == old(player.playerState.teamNotices))
      ensures player != null && !old(IsOnTeam(player)) && player.playerState != null ==>
        teamPlayers == old(teamPlayers) + [player] &&
        player.playerState.team == this &&
        player.playerState.teamNotices == old(player.playerState.teamNotices) + [this]
      ensures player != null && player.playerState != null ==> IsOnTeam(player)
    {
      if player == null || player in teamPlayers {
        return;
      }
      var state := player.playerState;
      if state == null {
        return;
      }
      if state.team != null {
        RemoveFromTeam(player);
      }
      state.SetTeam(this);
      teamPlayers := teamPlayers + [player];
      state.NotifyTeamChanged(this);
    }

    /** Removes a controller on the roster; if it has a Rise player state, that
        state's team is cleared, whatever team it points at, and the change is
        announced. A controller not on the roster is ignored. */
    method RemoveFromTeam(player: Controller?)
      requires Valid()
      modifies this`teamPlayers, StateOf(player)`team, StateOf(player)`teamNotices
      ensures Valid()
      ensures !IsOnTeam(player)
      ensures !old(IsOnTeam(player)) ==>
        teamPlayers == old(teamPlayers) &&
        (player != null && player.playerState != null ==>
          player.playerState.team == old(player.playerState.team) &&
          player.playerState.teamNotices == old(player.playerState.teamNotices))
      ensures old(IsOnTeam(player)) ==>
        teamPlayers == RemoveAll(old(teamPlayers), player as Controller) &&
        |teamPlayers| == |old(teamPlayers)| - 1 &&
        (player.playerState != null ==>
          player.playerState.team == null &&
          player.playerState.teamNotices == old(player.playerState.teamNotices) + [null])
    {
      if player == null || player !in teamPlayers {
        return;
      }
      var member: Controller := player;
      RemoveAllMembers(teamPlayers, member, member);
      RemoveAllNoDuplicates(teamPlayers, member);
      RemoveAllOnce(teamPlayers, member);
      teamPlayers := RemoveAll(teamPlayers, member);
      var state := player.playerState;
      if state == null {
        return;
      }
      state.SetTeam(null);
      state.NotifyTeamChanged(null);
    }
  }

  /** ARisePlayerState: the player's index, team and owned actors. The player
      state is itself an actor of the world, identified by `self`. */
  class PlayerState {
    const self: ActorId
    var playerIndex: Byte
    var team: TeamInfo?
    var ownedActors: seq<ActorId>
    /** The teams announced through NotifyTeamChanged, oldest first. */
    ghost var teamNotices: seq<TeamInfo?>

    constructor (inSelf: ActorId)
      ensures self == inSelf
      ensures playerIndex == PLAYER_INDEX_NONE && team == null
      ensures ownedActors == [] && teamNotices == []
    {
      self := inSelf;
      playerIndex := PLAYER_INDEX_NONE;
      team := null;
      ownedActors := [];
      teamNotices := [];
    }

    function GetPlayerIndex(): Byte reads this { playerIndex }

    method SetPlayerIndex(newPlayerIndex: Byte)
      modifies this`playerIndex
      ensures GetPlayerIndex() == newPlayerIndex
    {
      playerIndex := newPlayerIndex;
    }

    function GetTeam(): TeamInfo? reads this { team }

    method SetTeam(newTeam: TeamInfo?)
      modifies this`team
      ensures GetTeam() == newTeam
    {
      team := newTeam;
    }

    /** The inline RemoveFromTeam of the player state: the same as SetTeam
        with no team, the team's roster is not touched. */
    method ClearTeam()
      modifies this`team
      ensures GetTeam() == null
    {
      SetTeam(null);
    }

    function GetOwnedActors(): (r: seq<ActorId>)
      reads this
      ensures r == ownedActors
    {
      ownedActors
    }

    /** Two players share a team when both have one and the team indices are
        equal; a player without a team shares it with nobody. */
    function IsSameTeamAs(other: PlayerState?): (r: bool)
      reads this, team, other, if other != null then other.team else null
      ensures r ==> other != null && team != null && other.team != null
    {
      other != null && team != null && other.team != null &&
      team.GetTeamIndex() == other.team.GetTeamIndex()
    }

    /** Records the team change; the log line, the Blueprint event and the
        player controller's notification are not modelled. */
    method NotifyTeamChanged(newTeam: TeamInfo?)
      modifies this`teamNotices
      ensures teamNotices == old(teamNotices) + [newTeam]
    {
      teamNotices := teamNotices + [newTeam];
    }

    /** Nothing happens when the owner did not change or there is no actor;
        otherwise the new owner adds the actor once and every other notified
        player removes it. */
    method NotifyActorOwnershipChanged(affected: Option<ActorId>, oldOwner: PlayerState?, newOwner: PlayerState?)
      modifies this`ownedActors
      ensures oldOwner == newOwner || affected.None? ==> ownedActors == old(ownedActors)
      ensures oldOwner != newOwner && affected.Some? ==>
        ownedActors == AfterOwnershipChange(old(ownedActors), affected.value, newOwner == this)
    {
      if oldOwner == newOwner || affected.None? {
        return;
      }
      if newOwner == this {
        ownedActors := AddUnique(ownedActors, affected.value).0;
      } else {
        ownedActors := RemoveAll(ownedActors, affected.value);
      }
    }

    /** Rebuilds the owned-actor list from the world's valid actors. The test
        compares the ownable component's owning actor (GetOwner of the
        component) with this player state, not the component's player owner,
        so only an ownable component attached to the player state itself
        can match. */
    method DiscoverOwnedActors(worldActors: seq<ActorId>, live: set<ActorId>, ownables: map<ActorId, OwnableComponent>)
      modifies this`ownedActors
      ensures NoDuplicates(ownedActors)
      ensures forall a :: a in ownedActors <==>
        a in worldActors && a in live && a in ownables && ownables[a].actor == self
    {
      ownedActors := [];
      var i := 0;
      while i < |worldActors|
        invariant 0 <= i <= |worldActors|
        invariant NoDuplicates(ownedActors)
        invariant forall a :: a in ownedActors <==>
          a in worldActors[..i] && a in live && a in ownables && ownables[a].actor == self
      {
        var a := worldActors[i];
        assert worldActors[..i + 1] == worldActors[..i] + [a];
        if a in live && a in ownables && ownables[a].actor == self {
          ownedActors := AddUnique(ownedActors, a).0;
        }
        i := i + 1;
      }
      assert worldActors[..i] == worldActors;
    }
  }

  /** Every component found on an actor is attached to that actor. */
  ghost predicate WellAttached(ownables: map<ActorId, OwnableComponent>)
    reads ownables.Values
  {
    forall a :: a in ownables ==> ownables[a].actor == a
  }

  /** With components attached where they are found, discovery finds at most
      the player state itself: the owned-actor list ends with no actor other
      than `self`, whoever the components name as player owner. */
  lemma DiscoveryFindsOnlySelf(ps: PlayerState, owned: seq<ActorId>, worldActors: seq<ActorId>, live: set<ActorId>, ownables: map<ActorId, OwnableComponent>)
    requires WellAttached(ownables)
    requires NoDuplicates(owned)
    requires forall a :: a in owned <==>
      a in worldActors && a in live && a in ownables && ownables[a].actor == ps.self
    ensures forall a :: a in owned ==> a == ps.self
    ensures |owned| <= 1
  {
    if |owned| > 1 {
      DistinctPair(owned);
      assert false;
    }
  }

  /** URiseOwnableComponent: makes the actor it is attached to ownable by a
      player. */
  class OwnableComponent {
    /** GetOwner(): the actor this component is attached to. */
    const actor: ActorId
    /** Edited per instance in the level; PLAYER_INDEX_NONE by default. */
    const initialOwnerPlayerIndex: Byte
    var owner: PlayerState?

    constructor (inActor: ActorId)
      ensures actor == inActor && owner == null
      ensures initialOwnerPlayerIndex == PLAYER_INDEX_NONE
    {
      actor := inActor;
      initialOwnerPlayerIndex := PLAYER_INDEX_NONE;
      owner := null;
    }

    /** A component placed in a level with an edited initial owner index. */
    constructor Placed(inActor: ActorId, inInitialOwnerPlayerIndex: Byte)
      ensures actor == inActor && owner == null
      ensures initialOwnerPlayerIndex == inInitialOwnerPlayerIndex
    {
      actor := inActor;
      initialOwnerPlayerIndex := inInitialOwnerPlayerIndex;
      owner := null;
    }

    function GetPlayerOwner(): (r: PlayerState?)
      reads this
      ensures r == owner
    {
      owner
    }

    function GetInitialOwnerPlayerIndex(): (r: Byte)
      ensures r == initialOwnerPlayerIndex
    {
      initialOwnerPlayerIndex
    }

    /** Tells the player states of the world's controllers that are the old
        or the new owner that the actor changed hands: a registered old owner
        loses the actor, a registered new owner gains it, and nobody else is
        touched. */
    method NotifyOwnerChanged(oldOwner: PlayerState?, newOwner: PlayerState?, controllers: seq<Controller>)
      modifies Owners(oldOwner, newOwner)`ownedActors
      ensures oldOwner != null ==> (oldOwner.ownedActors ==
        (if oldOwner != newOwner && oldOwner in StatesOf(controllers)
         then AfterOwnershipChange(old(oldOwner.ownedActors), actor, false)
         else old(oldOwner.ownedActors)))
      ensures newOwner != null ==> (newOwner.ownedActors ==
        (if oldOwner != newOwner && newOwner in StatesOf(controllers)
         then AfterOwnershipChange(old(newOwner.ownedActors), actor, true)
         else old(newOwner.ownedActors)))
    {
      ghost var oldList := if oldOwner != null then oldOwner.ownedActors else [];
      ghost var newList := if newOwner != null then newOwner.ownedActors else [];
      ghost var differ := oldOwner != newOwner;
      ghost var oldSeen, newSeen := false, false;
      var i := 0;
      while i < |controllers|
        invariant 0 <= i <= |controllers|
        invariant oldSeen == (oldOwner in StatesOf(controllers[..i]))
        invariant newSeen == (newOwner in StatesOf(controllers[..i]))
        invariant oldOwner != null ==> oldOwner.ownedActors == Notified(oldList, actor, false, differ && oldSeen)
        invariant newOwner != null ==> newOwner.ownedActors == Notified(newList, actor, true, differ && newSeen)
      {
        var state := controllers[i].playerState;
        StatesOfNext(controllers, i);
        NotifiedAgain(oldList, actor, false, differ && oldSeen, differ && state == oldOwner);
        NotifiedAgain(newList, actor, true, differ && newSeen, differ && state == newOwner);
        NotifyIfOwner(state, oldOwner, newOwner);
        oldSeen := oldSeen || (state != null && state == oldOwner);
        newSeen := newSeen || (state != null && state == newOwner);
        i := i + 1;
      }
      assert controllers[..i] == controllers;
    }

    /** One pass of NotifyOwnerChanged's loop: a controller's player state
        hears of the change only when it is the old or the new owner. */
    method NotifyIfOwner(state: PlayerState?, oldOwner: PlayerState?, newOwner: PlayerState?)
      modifies Owners(oldOwner, newOwner)`ownedActors
      ensures oldOwner != null ==> (oldOwner.ownedActors ==
        (if oldOwner != newOwner && state == oldOwner
         then AfterOwnershipChange(old(oldOwner.ownedActors), actor, false)
         else old(oldOwner.ownedActors)))
      ensures newOwner != null ==> (newOwner.ownedActors ==
        (if oldOwner != newOwner && state == newOwner
         then AfterOwnershipChange(old(newOwner.ownedActors), actor, true)
         else old(newOwner.ownedActors)))
    {
      if state != null && (state == oldOwner || state == newOwner) {
        state.NotifyActorOwnershipChanged(Some(actor), oldOwner, newOwner);
      }
    }

    /** Stores the new owner and, when it differs from the old one, fans the
        change out to the old and new owners' player states. */
    method SetPlayerOwnerByPlayerState(newOwner: PlayerState?, controllers: seq<Controller>)
      modifies this`owner, Owners(owner, newOwner)`ownedActors
      ensures GetPlayerOwner() == newOwner
      ensures old(owner) != null ==> (old(owner).ownedActors ==
        (if old(owner) != newOwner && old(owner) in StatesOf(controllers)
         then AfterOwnershipChange(old(owner.ownedActors), actor, false)
         else old(owner.ownedActors)))
      ensures newOwner != null ==> (newOwner.ownedActors ==
        (if old(owner) != newOwner && newOwner in StatesOf(controllers)
         then AfterOwnershipChange(old(newOwner.ownedActors), actor, true)
         else old(newOwner.ownedActors)))
    {
      var oldOwner := owner;
      owner := newOwner;
      if oldOwner != newOwner {
        NotifyOwnerChanged(oldOwner, newOwner, controllers);
      }
    }

    /** An invalid or missing controller clears the owner; otherwise the
        controller's Rise player state (possibly none) becomes the owner. */
    method SetPlayerOwnerByController(newOwner: Controller?, controllers: seq<Controller>)
      modifies this`owner, Owners(owner, ControllerState(newOwner))`ownedActors
      ensures GetPlayerOwner() == ControllerState(newOwner)
      ensures old(owner) != null ==> (old(owner).ownedActors ==
        (if old(owner) != ControllerState(newOwner) && old(owner) in StatesOf(controllers)
         then AfterOwnershipChange(old(owner.ownedActors), actor, false)
         else old(owner.ownedActors)))
      ensures ControllerState(newOwner) != null ==> (ControllerState(newOwner).ownedActors ==
        (if old(owner) != ControllerState(newOwner) && ControllerState(newOwner) in StatesOf(controllers)
         then AfterOwnershipChange(old(ControllerState(newOwner).ownedActors), actor, true)
         else old(ControllerState(newOwner).ownedActors)))
    {
      if newOwner == null || !newOwner.valid {
        SetPlayerOwnerByPlayerState(null, controllers);
      } else {
        SetPlayerOwnerByPlayerState(newOwner.playerState, controllers);
      }
    }

    /** False for an invalid actor, an unowned component or an actor without
        an ownable component; otherwise whether the two owners share a team. */
    function IsSameTeamAsActor(other: ActorId, live: set<ActorId>, ownables: map<ActorId, OwnableComponent>): (r: bool)
      reads this, owner, if owner != null then owner.team else null
      reads if other in ownables then {ownables[other]} else {}
      reads if other in ownables && ownables[other].owner != null then {ownables[other].owner} else {}
      reads if other in ownables && ownables[other].owner != null && ownables[other].owner.team != null
            then {ownables[other].owner.team} else {}
      ensures r <==> other in live && other in ownables && owner != null &&
                     owner.IsSameTeamAs(ownables[other].owner)
    {
      if other !in live || owner == null then false
      else if other !in ownables then false
      else owner.IsSameTeamAs(ownables[other].owner)
    }

    /** False for an invalid controller; otherwise whether this component's
        owner shares a team with the controller's Rise player state. */
    function IsSameTeamAsController(other: Controller?): (r: bool)
      reads this, owner, if owner != null then owner.team else null
      reads if other != null && other.playerState != null then {other.playerState} else {}
      reads if other != null && other.playerState != null && other.playerState.team != null
            then {other.playerState.team} else {}
      ensures r <==> other != null && other.valid && owner != null &&
                     owner.IsSameTeamAs(other.playerState)
    {
      if other == null || !other.valid then false
      else owner != null && owner.IsSameTeamAs(other.playerState)
    }
  }

  /** The player state SetPlayerOwnerByController stores for a controller. */
  function ControllerState(c: Controller?): PlayerState?
  {
    if c == null || !c.valid then null else c.playerState
  }

  /** IsSameTeamAs is symmetric. */
  lemma SameTeamSymmetric(a: PlayerState, b: PlayerState)
    ensures a.IsSameTeamAs(b) == b.IsSameTeamAs(a)
  {
  }

  /** Two team objects with the same index count as the same team: the test
      is on indices, not on team identity. */
  lemma SameIndexIsSameTeam(a: PlayerState, b: PlayerState)
    requires a.team != null && b.team != null
    requires a.team.GetTeamIndex() == b.team.GetTeamIndex()
    ensures a.IsSameTeamAs(b)
  {
  }

  /** The cross-object promise of an ownership change from A to B: when both
      are player states of the world's controllers, the actor is afterwards
      in B's owned actors and no longer in A's. */
  method TransferBetweenPlayers(c: OwnableComponent, a: PlayerState, b: PlayerState, controllers: seq<Controller>)
    requires c.owner == a && a != b
    requires a in StatesOf(controllers) && b in StatesOf(controllers)
    modifies c`owner, a`ownedActors, b`ownedActors
    ensures c.GetPlayerOwner() == b
    ensures c.actor in b.GetOwnedActors() && c.actor !in a.GetOwnedActors()
    ensures forall x :: x != c.actor ==> (x in a.ownedActors <==> x in old(a.ownedActors))
    ensures forall x :: x != c.actor ==> (x in b.ownedActors <==> x in old(b.ownedActors))
  {
    c.SetPlayerOwnerByPlayerState(b, controllers);
    AfterOwnershipChangeMembers(old(a.ownedActors), c.actor, false, c.actor);
    AfterOwnershipChangeMembers(old(b.ownedActors), c.actor, true, c.actor);
    forall x | x != c.actor
      ensures x in a.ownedActors <==> x in old(a.ownedActors)
      ensures x in b.ownedActors <==> x in old(b.ownedActors)
    {
      AfterOwnershipChangeMembers(old(a.ownedActors), c.actor, false, x);
      AfterOwnershipChangeMembers(old(b.ownedActors), c.actor, true, x);
    }
  }

  /** The roster quirk: a player moved from team A to team B through B's
      AddToTeam stays on A's roster, while its player state now points at B. */
  method SwitchTeamsKeepsStaleRoster(teamA: TeamInfo, teamB: TeamInfo, player: Controller)
    requires teamA != teamB && teamA.Valid() && teamB.Valid()
    requires player.playerState != null && player.playerState.team == teamA
    requires teamA.IsOnTeam(player) && !teamB.IsOnTeam(player)
    modifies teamB`teamPlayers, player.playerState`team, player.playerState`teamNotices
    ensures teamA.IsOnTeam(player) && teamB.IsOnTeam(player)
    ensures player.playerState.GetTeam() == teamB
  {
    teamB.AddToTeam(player);
  }

  /** A consequence of the quirk: removing the player from the stale roster
      of A afterwards clears its team, although it is still on B's roster. */
  method StaleRemovalClearsCurrentTeam(teamA: TeamInfo, teamB: TeamInfo, player: Controller)
    requires teamA != teamB && teamA.Valid() && teamB.Valid()
    requires player.playerState != null && player.playerState.team == teamA
    requires teamA.IsOnTeam(player) && !teamB.IsOnTeam(player)
    modifies teamA`teamPlayers, teamB`teamPlayers, player.playerState`team, player.playerState`teamNotices
    ensures !teamA.IsOnTeam(player) && teamB.IsOnTeam(player)
    ensures player.playerState.GetTeam() == null
  {
    teamB.AddToTeam(player);
    teamA.RemoveFromTeam(player);
  }
}
