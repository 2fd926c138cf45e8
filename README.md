# Rise gameplay bookkeeping in Dafny

This project models the parts of the Rise real-time-strategy module that are
bookkeeping or arithmetic rather than engine glue. Engine objects become
abstract identities: an actor is an `ActorId`, and a scene says which actors
are valid and which component each carries. Controllers, player states, teams,
player starts and components are classes whose fields the methods update in
place. Delegate broadcasts and notifications go to ghost event logs.

- `common.dfy` (`Common`): `Option`, actor identities, the `uint8` range, and
  the `TArray` operations the code relies on. `AddUnique` returns the index of
  the element, whether it was found or appended. `Remove` deletes every equal
  element. `FMath::Clamp` is here too.
- `world_generator.dfy` (`WorldGen`): `FWorldGenerator`.
  - `Generate` appends a row-major `Width*Depth` grid once.
  - `PerlinNoise2D` and `Pow` are arbitrary real functions.
  - The int32 divisions are kept exactly, so `x / Width` and `y / Depth` are
    0 on every cell and `1/O` is 1 only for the first octave. As a result
    every height is equal and the amplitude sum is exactly 1.
- `selectable.dfy` (`Selectable`): `URiseSelectableComponent`, with its
  selected and hovered flags, the decal, the portrait and the broadcasts.
  Deselecting broadcasts `OnSelected`, as the code does.
- `selection_spec.dfy` (`SelectionSpec`): pure folds that say what
  `SelectActors`, `DeselectActor`, the tick cleanup and `EndSelectionFrame` do
  to the selection, and lemmas about them.
  - Only an actor that `AddUnique` places or finds at index 1 counts as
    selected. So `SelectActor` without append never succeeds, and with append
    it succeeds exactly when the actor lands at index 1.
- `player_controller.dfy` (`PlayerController`): `ARisePlayerController`.
  - Its selection methods are proved against those folds.
  - They also say, for every component in the scene, what happens to its
    flag, its decal and its broadcasts, and that components of other actors
    are left alone.
  - The selection frame, zoom and pan handlers are modelled here.
  - `GetCameraMovementEnabled` returns the stored "disabled" flag, so it
    returns the opposite of its documentation.
- `ownership.dfy` (`Ownership`): controllers, `ARiseTeamInfo`,
  `ARisePlayerState` and `URiseOwnableComponent`.
  - After a transfer from A to B, the actor is listed by B and not by A.
  - A player moved into a new team stays on the old team's roster, because
    `AddToTeam` asks the new team to remove the player.
  - `DiscoverOwnedActors` compares the component's attached actor with the
    player state itself, so it finds at most the player state's own actor.
- `game_mode.dfy` (`GameMode`): `ARiseGameMode`.
  - `GetAvailablePlayerIndex` hands out the smallest unused index when the
    indices are distinct. With duplicates it can hand out a used index again.
  - The three player-start searches. `GetOrAssignPlayerStartForPlayer` gives
    the player the last empty start.
  - `InitGame` team creation and `TransferActorOwnership`. The transfer
    preserves the cross-object invariant: every player state lists exactly
    the actors whose component names it as owner.
  - `NotifyActorKilled` and `OnActorKilled`. The conditions are stored as the
    base struct by value, so no defeat is ever reported.
  - `FRiseRequiredUnitsDefeatCondition` reports a defeat when the player holds
    at least the required count, the opposite of its documentation. The code
    is what is modelled.
- `resource.dfy` (`Resource`): `URiseResourceComponent::Extract`.
  - A negative request counts as 0. The request is multiplied by the
    multiplier, floored, and capped by what is left.
  - Over any series of calls, what is handed out plus what is left equals the
    starting amount.
  - The constructor sets the current amount before the maximum is edited, so
    a configured node still starts with 100.

## Model

| member | source | states |
|---|---|---|
| Common.AddUnique | Source/Rise/Private/RisePlayerController.cpp:627 | the array after AddUnique holds x, an existing x leaves the array alone, a new x is appended at the end, and the returned index is that of x's first occurrence |
| Common.RemoveAllMembers | Source/Rise/Private/RiseTeamInfo.cpp:71 | TArray::Remove keeps exactly the elements that differ from the removed one |
| Common.RemoveAllAbsent | Source/Rise/Private/RisePlayerController.cpp:565 | removing an element that is not present leaves the array unchanged |
| Common.RemoveAllNoDuplicates | Source/Rise/Private/RiseTeamInfo.cpp:71 | removing never introduces duplicates |
| Common.ClampInt | Source/Rise/Private/Components/RiseResourceComponent.cpp:57 | FMath::Clamp stays within [lo, hi], is the identity inside it and gives lo below it |
| Common.ClampReal | Source/Rise/Private/RisePlayerController.cpp:925-951 | the float clamp of the zoom target stays within the configured range and is the identity inside it |
| WorldGen.CDiv | Source/Rise/Private/WorldGen/WorldGenerator.cpp:52-53 | int32 division truncates toward zero: a non-negative value below the divisor gives 0, equal operands give 1, and the sign follows the operands' signs |
| WorldGen.Amplitude | Source/Rise/Private/WorldGen/WorldGenerator.cpp:59 | `1/O` is 1 for the first octave and 0 for every later octave |
| WorldGen.AmplitudeSum | Source/Rise/Private/WorldGen/WorldGenerator.cpp:57-67 | the amplitude sum is exactly 1 once at least one octave runs, and 0 otherwise (the division by zero at line 71) |
| WorldGen.OctaveNoiseIsOnePlusSamples | Source/Rise/Private/WorldGen/WorldGenerator.cpp:57-68 | each octave adds amplitude plus sample, so the accumulated noise is 1 plus every octave's sample, including zero-amplitude octaves |
| WorldGen.Row | Source/Rise/Private/WorldGen/WorldGenerator.cpp:50-76 | one pass of the inner loop appends Width values |
| WorldGen.Rows | Source/Rise/Private/WorldGen/WorldGenerator.cpp:48-77 | y passes of the outer loop append y*Width values |
| WorldGen.RowMajorIndexInRange | Source/Rise/Private/WorldGen/WorldGenerator.cpp:33 | y*Width + x lies inside a Width*Depth grid for every in-range cell |
| WorldGen.HeightmapAt | Source/Rise/Private/WorldGen/WorldGenerator.cpp:48-77 | the grid has Width*Depth values, and cell (x, y) is stored at index y*Width + x |
| WorldGen.RowsAt | Source/Rise/Private/WorldGen/WorldGenerator.cpp:48-77 | after y rows, the value of every earlier cell (x, y') is at y'*Width + x |
| WorldGen.CellIsUniform | Source/Rise/Private/WorldGen/WorldGenerator.cpp:52-73 | every cell equals cell (0, 0), and its height is Pow(1 + sum of the samples at -0.5*Frequency, Redistribution) |
| WorldGen.EveryHeightEqual | Source/Rise/Private/WorldGen/WorldGenerator.cpp:52-53 | all stored heights are equal |
| WorldGen.HeightmapIndex | Source/Rise/Private/WorldGen/WorldGenerator.cpp:48-77 | every stored height is the height of cell (0, 0) |
| WorldGen.ConstantNoiseScenario | Source/Rise/Private/WorldGen/WorldGenerator.cpp:41-78 | a 2x2 grid with one octave, Redistribution 1 and a noise source yielding 0.5 is four heights of 1.5 |
| WorldGen.AppendCell | Source/Rise/Private/WorldGen/WorldGenerator.cpp:75 | one Data.Add extends the row prefix by the next cell |
| WorldGen.WorldGenerator.constructor | Source/Rise/Public/WorldGen/WorldGenerator.h:22-30 | stores Width, Depth and Frequency unvalidated, Octaves 3, Redistribution 1, and Data is empty |
| WorldGen.WorldGenerator.WithOctaves | Source/Rise/Public/WorldGen/WorldGenerator.h:32-40 | stores all five parameters unvalidated, and Data is empty |
| WorldGen.WorldGenerator.GetWidth | Source/Rise/Private/WorldGen/WorldGenerator.cpp:3-6 | returns the stored Width, the width of the generator's settings |
| WorldGen.WorldGenerator.GetDepth | Source/Rise/Private/WorldGen/WorldGenerator.cpp:8-11 | returns the stored Depth |
| WorldGen.WorldGenerator.GetFrequency | Source/Rise/Private/WorldGen/WorldGenerator.cpp:13-16 | returns the stored Frequency |
| WorldGen.WorldGenerator.GetOctaves | Source/Rise/Private/WorldGen/WorldGenerator.cpp:18-21 | returns the stored Octaves |
| WorldGen.WorldGenerator.GetRedistribution | Source/Rise/Private/WorldGen/WorldGenerator.cpp:23-26 | returns the stored Redistribution |
| WorldGen.WorldGenerator.GetValues | Source/Rise/Private/WorldGen/WorldGenerator.cpp:36-39 | returns Data as stored, without generating |
| WorldGen.WorldGenerator.GetValue | Source/Rise/Private/WorldGen/WorldGenerator.cpp:28-34 | with the checked bounds and enough data, the value is one of the stored values |
| WorldGen.WorldGenerator.GetValueOfHeightmap | Source/Rise/Private/WorldGen/WorldGenerator.cpp:28-39 | after generation, GetValue(x, y) is the height computed for cell (x, y) |
| WorldGen.WorldGenerator.Generate | Source/Rise/Private/WorldGen/WorldGenerator.cpp:41-78 | non-empty Data is left unchanged; empty Data becomes the row-major heightmap |
| SelectionSpec.SelectStep | Source/Rise/Private/RisePlayerController.cpp:614-644 | an unselectable input changes nothing; otherwise it is AddUnique'd, and it is selected and counted exactly when AddUnique returns 1 |
| SelectionSpec.Deselected | Source/Rise/Private/RisePlayerController.cpp:562-565 | the deselected actor's flag is false afterwards |
| SelectionSpec.DeselectResult | Source/Rise/Private/RisePlayerController.cpp:546-575 | DeselectActor succeeds exactly for a selectable actor in the selection, and otherwise changes nothing |
| SelectionSpec.KeepLive | Source/Rise/Private/RisePlayerController.cpp:155-165 | the cleanup never lengthens the selection |
| SelectionSpec.RemoveAllMembersAll | Source/Rise/Private/RisePlayerController.cpp:565 | after Remove, the selection holds exactly the other actors it held |
| SelectionSpec.SelectFoldMembers | Source/Rise/Private/RisePlayerController.cpp:614-645 | after the loop, the selection holds exactly the earlier actors plus the selectable inputs |
| SelectionSpec.ReplaceSelectsExactlyInputs | Source/Rise/Private/RisePlayerController.cpp:604-627 | without append, the selection holds exactly the selectable inputs |
| SelectionSpec.SelectFoldSingle | Source/Rise/Private/RisePlayerController.cpp:577-593 | SelectActor is SelectActors over a one-element array |
| SelectionSpec.SelectActorReplacingNeverSucceeds | Source/Rise/Private/RisePlayerController.cpp:577-593 | SelectActor without append never succeeds, because the actor lands at index 0, and no component flag changes |
| SelectionSpec.SelectActorAppendingSucceedsIff | Source/Rise/Public/RisePlayerController.h:172-183 | SelectActor with append succeeds exactly when the actor is selectable and AddUnique finds or places it at index 1, even when it was already selected |
| SelectionSpec.SelectFoldCountBound | Source/Rise/Private/RisePlayerController.cpp:627-643 | the number counted as selected is at most the number of inputs equal to the actor at index 1 |
| SelectionSpec.DistinctInputsCountAtMostOne | Source/Rise/Public/RisePlayerController.h:185-196 | with distinct inputs and selection, SelectActors returns at most 1, however many actors are newly selected |
| SelectionSpec.DistinctOccursAtMostOnce | Source/Rise/Private/RisePlayerController.cpp:614 | a distinct input array mentions each actor at most once |
| SelectionSpec.SelectThenDeselect | Source/Rise/Private/RisePlayerController.cpp:546-593 | appending a new selectable actor and then deselecting it restores the selection array and leaves its flag false |
| SelectionSpec.RemoveAllAppended | Source/Rise/Private/RisePlayerController.cpp:565 | removing the actor just appended restores the earlier array |
| SelectionSpec.KeepLiveMembers | Source/Rise/Private/RisePlayerController.cpp:155-165 | the cleanup keeps exactly the selected actors that are still valid |
| SelectionSpec.KeepLiveSameLengthIff | Source/Rise/Private/RisePlayerController.cpp:155-170 | the length is unchanged (no notification) exactly when every selected actor is valid, and then the array is unchanged |
| SelectionSpec.InverseFrameToggles | Source/Rise/Private/RisePlayerController.cpp:829-877 | in inverse mode with distinct hits, a selectable hit is in the selection afterwards exactly when it was not before, and other actors keep their membership |
| SelectionSpec.PlainFrameIsAppendingSelect | Source/Rise/Private/RisePlayerController.cpp:829-877 | outside inverse mode, the frame gives the selection of an appending SelectActors, and it changes something exactly when that counts one |
| Selectable.SelectableComponent.constructor | Source/Rise/Private/Components/RiseSelectableComponent.cpp:51 | a component after BeginPlay is unselected, unhovered, decal hidden |
| Selectable.SelectableComponent.IsSelected | Source/Rise/Private/Components/RiseSelectableComponent.cpp:103-106 | returns the bSelected flag |
| Selectable.SelectableComponent.IsHovered | Source/Rise/Private/Components/RiseSelectableComponent.cpp:132-135 | returns the bHovered flag |
| Selectable.SelectableComponent.SelectActor | Source/Rise/Private/Components/RiseSelectableComponent.cpp:65-84 | an already selected component changes nothing; otherwise it becomes selected, shows its decal if it has one and broadcasts OnSelected once |
| Selectable.SelectableComponent.DeselectActor | Source/Rise/Private/Components/RiseSelectableComponent.cpp:86-101 | an unselected component changes nothing; otherwise it becomes unselected, hides its decal and broadcasts OnSelected once |
| Selectable.SelectableComponent.HoverActor | Source/Rise/Private/Components/RiseSelectableComponent.cpp:108-118 | afterwards hovered; OnHovered is broadcast only on the false-to-true transition; the selected flag is untouched |
| Selectable.SelectableComponent.UnhoverActor | Source/Rise/Private/Components/RiseSelectableComponent.cpp:120-130 | afterwards not hovered; OnUnhovered is broadcast only on the true-to-false transition |
| Selectable.SelectableComponent.SetPortrait | Source/Rise/Private/Components/RiseSelectableComponent.cpp:142-150 | GetPortrait returns what SetPortrait stored |
| Selectable.SelectAndHoverSequence | Source/Rise/Private/Components/RiseSelectableComponent.cpp:65-135 | select, hover, select, unhover leaves the component selected and unhovered, with one broadcast per transition |
| PlayerController.Trunc | Source/Rise/Private/RisePlayerController.cpp:516-525 | the float-to-int32 conversion truncates toward zero |
| PlayerController.TruncMonotone | Source/Rise/Private/RisePlayerController.cpp:516-525 | truncation preserves order |
| PlayerController.FrameRect | Source/Rise/Private/RisePlayerController.cpp:503-528 | Min holds the smaller and larger X, and Max the smaller and larger Y, of the start and the mouse position |
| PlayerController.FrameRectSymmetric | Source/Rise/Private/RisePlayerController.cpp:503-528 | the rectangle does not depend on the drag direction |
| PlayerController.IsActorSelectable | Source/Rise/Private/RisePlayerController.cpp:530-539 | an actor is selectable exactly when it is valid and carries a selectable component, that is, when it is one of the actors the selection folds accept |
| PlayerController.ZoomInThenOut | Source/Rise/Private/RisePlayerController.cpp:925-951 | zooming in and then out restores the target while the step stays in range |
| PlayerController.SelectedOne | Source/Rise/Private/Components/RiseSelectableComponent.cpp:72 | after that actor's component flag is set, the scene's flag map is the old map updated to true at that actor |
| PlayerController.DeselectedOne | Source/Rise/Private/Components/RiseSelectableComponent.cpp:93 | after that actor's component flag is cleared, the scene's flag map is the old map updated to false at that actor |
| PlayerController.RisePlayerController.constructor | Source/Rise/Private/RisePlayerController.cpp:20-42 | empty selection, camera movement allowed, pan ease 0.25, zoom range 400 to 1500 with step 25 |
| PlayerController.RisePlayerController.SelectActors | Source/Rise/Private/RisePlayerController.cpp:600-653 | the selection, the component flags and the count are those of the SelectActors fold, with one notification exactly when unsuppressed and the count is positive; each component is selected at most once (one OnSelected, decal shown if it has one), never deselected, and untouched unless its actor is an input |
| PlayerController.RisePlayerController.SelectEach | Source/Rise/Private/RisePlayerController.cpp:614-645 | the input loop gives the fold's selection, flags and count, and selects each component at most once and only for an input actor |
| PlayerController.RisePlayerController.AddSelected | Source/Rise/Private/RisePlayerController.cpp:627 | the selection array becomes AddUnique's array and the returned index is the actor's position in it |
| PlayerController.RisePlayerController.SelectInput | Source/Rise/Private/RisePlayerController.cpp:614-644 | one loop pass does what the fold's step says, and only the input actor's component can be selected, with one OnSelected and its decal shown |
| PlayerController.RisePlayerController.SelectActor | Source/Rise/Private/RisePlayerController.cpp:577-593 | succeeds exactly when the one-element SelectActors counts one, and notifies then unless suppressed; no component but the actor's changes its flag, decal or broadcasts |
| PlayerController.RisePlayerController.DeselectActor | Source/Rise/Private/RisePlayerController.cpp:546-575 | fails without change for an unselectable or unselected actor; otherwise clears its flag, removes every copy from the selection and notifies unless suppressed; only that actor's component can be deselected, with one OnSelected and its decal hidden, and no other component changes |
| PlayerController.RisePlayerController.RemoveSelected | Source/Rise/Private/RisePlayerController.cpp:565 | the selection array becomes the array without any copy of the actor |
| PlayerController.RisePlayerController.RemoveDeadSelections | Source/Rise/Private/RisePlayerController.cpp:155-170 | removes exactly the invalid entries, keeps the order, and notifies exactly when the length changed |
| PlayerController.RisePlayerController.StartSelectionFrame | Source/Rise/Private/RisePlayerController.cpp:819-827 | with a mouse position, a frame starts there, replacing any earlier start; without one, nothing changes |
| PlayerController.RisePlayerController.GetSelectionFrame | Source/Rise/Private/RisePlayerController.cpp:503-528 | a rectangle exists exactly when a frame is in progress and the mouse position is known, and it is the frame rectangle |
| PlayerController.RisePlayerController.EndSelectionFrame | Source/Rise/Private/RisePlayerController.cpp:829-877 | nothing happens without a frame in progress or when the hit query fails, except that the frame ends; otherwise the selection is the plain or inverse frame fold of the hits, with one notification exactly when something changed; each component's broadcasts grow only by OnSelected, one per flag change, its decal follows its flag once it changed, and only hit actors' components change |
| PlayerController.RisePlayerController.FrameHits | Source/Rise/Private/RisePlayerController.cpp:845-871 | the hit loop gives the frame fold's selection, flags and change flag, without notifying, and touches only hit actors' components |
| PlayerController.RisePlayerController.FrameHit | Source/Rise/Private/RisePlayerController.cpp:847-870 | one hit does what the fold's frame step says and extends the components' toggle history by that hit |
| Selectable.SelectsOnlyThen | Source/Rise/Private/RisePlayerController.cpp:614-645 | selecting from one array and then another selects each component at most once and only for actors of either array |
| Selectable.ToggledThenFlipped | Source/Rise/Private/Components/RiseSelectableComponent.cpp:65-101 | a further select or deselect keeps the broadcasts a run of OnSelected whose count has the parity of the flag change, with the decal following the flag |
| Selectable.TogglesOnlyThen | Source/Rise/Private/RisePlayerController.cpp:845-871 | one more hit extends a component's toggle history, and a component of another actor is untouched |
| PlayerController.RisePlayerController.StartInverseSelectionFrame | Source/Rise/Private/RisePlayerController.cpp:879-883 | the inverse hotkey is held |
| PlayerController.RisePlayerController.EndInverseSelectionFrame | Source/Rise/Private/RisePlayerController.cpp:885-889 | the inverse hotkey is released |
| PlayerController.RisePlayerController.PanCameraHorizontal | Source/Rise/Private/RisePlayerController.cpp:891-906 | stores the scale and restarts the ease timer only when movement is enabled and the scale is at least 0.001 in magnitude |
| PlayerController.RisePlayerController.PanCameraVertical | Source/Rise/Private/RisePlayerController.cpp:908-923 | the same for the vertical axis |
| PlayerController.RisePlayerController.ZoomCameraIn | Source/Rise/Private/RisePlayerController.cpp:925-937 | when enabled, the target becomes the step-closer distance clamped to the range; when disabled, nothing changes |
| PlayerController.RisePlayerController.ZoomCameraOut | Source/Rise/Private/RisePlayerController.cpp:939-951 | when enabled, the target becomes the step-further distance clamped to the range |
| PlayerController.RisePlayerController.SetCameraMovementEnabled | Source/Rise/Private/RisePlayerController.cpp:393-401 | stores the negation, so GetCameraMovementEnabled afterwards returns the opposite of the argument |
| Ownership.AfterOwnershipChange | Source/Rise/Private/RisePlayerState.cpp:125-132 | adding grows the list by at most one and removing never grows it |
| Ownership.AfterOwnershipChangeMembers | Source/Rise/Private/RisePlayerState.cpp:125-132 | the affected actor is listed afterwards exactly when the new owner is this state, and no other actor's membership changes |
| Ownership.AfterOwnershipChangeNoDuplicates | Source/Rise/Private/RisePlayerState.cpp:125-132 | the owned-actor list never acquires duplicates |
| Ownership.AfterOwnershipChangeIdempotent | Source/Rise/Private/RisePlayerState.cpp:125-132 | repeating a notification changes nothing more |
| Ownership.TeamInfo.constructor | Source/Rise/Private/RiseTeamInfo.cpp:7-14 | a new team has index 255 and an empty roster |
| Ownership.TeamInfo.SetTeamIndex | Source/Rise/Private/RiseTeamInfo.cpp:93-101 | GetTeamIndex returns what SetTeamIndex stored |
| Ownership.TeamInfo.IsOnTeam | Source/Rise/Private/RiseTeamInfo.cpp:83-91 | false for a null player; otherwise true exactly when the roster contains the player |
| Ownership.TeamInfo.AddToTeam | Source/Rise/Private/RiseTeamInfo.cpp:23-55 | nothing happens for a null player, a member or a player without a Rise player state; otherwise the player is appended once, its state's team becomes this team and one notification names this team; the roster stays duplicate-free |
| Ownership.TeamInfo.RemoveFromTeam | Source/Rise/Private/RiseTeamInfo.cpp:57-81 | afterwards the player is not on the team; a non-member changes nothing; a member is removed even without a state, the roster shrinks by exactly one, and a state's team is cleared with a null notification |
| Common.RemoveAllOnce | Source/Rise/Private/RiseTeamInfo.cpp:71 | removing a member of a duplicate-free array shortens it by exactly one |
| Ownership.PlayerState.constructor | Source/Rise/Private/RisePlayerState.cpp:12-17 | a new player state has index PLAYER_INDEX_NONE (255), no team and no owned actors |
| Ownership.PlayerState.SetPlayerIndex | Source/Rise/Private/RisePlayerState.cpp:27-35 | GetPlayerIndex returns what SetPlayerIndex stored |
| Ownership.PlayerState.SetTeam | Source/Rise/Private/RisePlayerState.cpp:37-45 | GetTeam returns what SetTeam stored |
| Ownership.PlayerState.GetOwnedActors | Source/Rise/Private/RisePlayerState.cpp:66-69 | returns the owned-actor list as stored |
| Ownership.PlayerState.ClearTeam | Source/Rise/Public/RisePlayerState.h:58-66 | the inline RemoveFromTeam leaves the state without a team |
| Ownership.PlayerState.IsSameTeamAs | Source/Rise/Private/RisePlayerState.cpp:47-64 | true only when the other state exists and both have a team, and then it compares the team indices |
| Ownership.PlayerState.NotifyTeamChanged | Source/Rise/Private/RisePlayerState.cpp:92-111 | the team change is recorded once |
| Ownership.PlayerState.NotifyActorOwnershipChanged | Source/Rise/Private/RisePlayerState.cpp:118-142 | nothing happens when the owners are equal or there is no actor; otherwise the actor is AddUnique'd when this state is the new owner and every copy is removed otherwise |
| Ownership.PlayerState.DiscoverOwnedActors | Source/Rise/Private/RisePlayerState.cpp:71-90 | the list is rebuilt without duplicates and holds exactly the valid world actors whose component's attached actor is this player state |
| Ownership.DiscoveryFindsOnlySelf | Source/Rise/Private/RisePlayerState.cpp:80-88 | with components attached where they are found, discovery lists at most one actor, the player state itself |
| Ownership.OwnableComponent.constructor | Source/Rise/Private/Components/RiseOwnableComponent.cpp:7-12 | a new component has no owner and initial owner index 255 |
| Ownership.OwnableComponent.Placed | Source/Rise/Public/Components/RiseOwnableComponent.h:23 | a placed component keeps its edited initial owner index and has no owner |
| Ownership.OwnableComponent.GetPlayerOwner | Source/Rise/Private/Components/RiseOwnableComponent.cpp:21-24 | returns the stored owner, possibly null |
| Ownership.OwnableComponent.GetInitialOwnerPlayerIndex | Source/Rise/Private/Components/RiseOwnableComponent.cpp:76-79 | returns the stored initial owner index |
| Ownership.OwnableComponent.NotifyIfOwner | Source/Rise/Private/Components/RiseOwnableComponent.cpp:94-102 | one player state of the world is told only when it is the old or new owner and they differ: the old owner drops the actor, the new owner lists it |
| Ownership.OwnableComponent.NotifyOwnerChanged | Source/Rise/Private/Components/RiseOwnableComponent.cpp:86-104 | only the world's player states equal to the old or new owner are told: the old owner drops the actor and the new owner lists it, when they differ |
| Ownership.OwnableComponent.SetPlayerOwnerByPlayerState | Source/Rise/Private/Components/RiseOwnableComponent.cpp:38-47 | the owner is always stored, and the fan-out happens only when it changed |
| Ownership.OwnableComponent.SetPlayerOwnerByController | Source/Rise/Private/Components/RiseOwnableComponent.cpp:26-36 | an invalid or null controller clears the owner; otherwise the owner becomes the controller's Rise player state, possibly null; the fan-out follows |
| Ownership.OwnableComponent.IsSameTeamAsActor | Source/Rise/Private/Components/RiseOwnableComponent.cpp:49-64 | false for an invalid actor, an unowned component or an actor without a component; otherwise the owners' IsSameTeamAs |
| Ownership.OwnableComponent.IsSameTeamAsController | Source/Rise/Private/Components/RiseOwnableComponent.cpp:66-74 | false for an invalid controller or an unowned component; otherwise IsSameTeamAs with the controller's state |
| Ownership.SameTeamSymmetric | Source/Rise/Private/RisePlayerState.cpp:63 | IsSameTeamAs is symmetric |
| Ownership.SameIndexIsSameTeam | Source/Rise/Private/RisePlayerState.cpp:63 | distinct team objects with equal indices count as the same team |
| Ownership.TransferBetweenPlayers | Source/Rise/Private/Components/RiseOwnableComponent.cpp:38-104 | after a change from A to B, both in the world, the actor is listed by B and not by A, and no other actor's membership changes |
| Ownership.SwitchTeamsKeepsStaleRoster | Source/Rise/Private/RiseTeamInfo.cpp:44-47 | after joining team B, the player is still on team A's roster while its state names B |
| Ownership.StaleRemovalClearsCurrentTeam | Source/Rise/Private/RiseTeamInfo.cpp:64-78 | removing the player from the stale roster clears its current team although B still lists it |
| GameMode.Insert | Source/Rise/Private/RiseGameMode.cpp:232 | inserting keeps the indices sorted and adds exactly one copy of the value |
| GameMode.InsertMembers | Source/Rise/Private/RiseGameMode.cpp:232 | inserting adds exactly the one value to the members |
| GameMode.SortIndices | Source/Rise/Private/RiseGameMode.cpp:232 | the sorted indices are ordered and a permutation of the input |
| GameMode.FirstGap | Source/Rise/Private/RiseGameMode.cpp:234-252 | the scan stops at the first position that is past the end or holds a different index, and every earlier position holds its own index |
| GameMode.GetAvailablePlayerIndex | Source/Rise/Private/RiseGameMode.cpp:217-256 | an invalid world gives PLAYER_INDEX_NONE |
| GameMode.MultisetMembers | Source/Rise/Private/RiseGameMode.cpp:232 | sorting keeps the same members |
| GameMode.NoDuplicatesAssignedDistinct | Source/Rise/Private/RiseGameMode.cpp:217-256 | distinct indices hold every index at most once, so the smallest-unused guarantee covers them |
| GameMode.AvailableIndexIsSmallestUnused | Source/Rise/Private/RiseGameMode.cpp:217-256 | when no index below 255 is held twice (any number of states may still hold 255), the result is unused unless it is 255, and every smaller index is in use |
| GameMode.NextAfterZero | Source/Rise/Private/RiseGameMode.cpp:217-256 | with 0 held, 1 free and no assigned index held twice, index 1 is handed out |
| GameMode.WaitingStatesGetNextIndex | Source/Rise/Private/RisePlayerState.cpp:14-17 | two new states still at 255 and one at 0 give index 1, as when a restarting player's state still holds the default |
| GameMode.DuplicateIndexHandedOutAgain | Source/Rise/Private/RiseGameMode.cpp:234-252 | with indices 0, 0 and 1, index 1 is handed out although a player already holds it |
| GameMode.PlayerStart.constructor | Source/Rise/Public/RisePlayerStart.h:19-21 | a new start has no player |
| GameMode.PlayerStart.SetPlayer | Source/Rise/Public/RisePlayerStart.h:30-40 | GetPlayer returns what SetPlayer stored |
| GameMode.FirstHeld | Source/Rise/Private/RiseGameMode.cpp:159-171 | the position of the first start held by the player, or -1 when none is |
| GameMode.LastEmpty | Source/Rise/Private/RiseGameMode.cpp:177-188 | the position of the last start without a player, or -1 when every start has one |
| GameMode.GetRisePlayerStartForPlayer | Source/Rise/Private/RiseGameMode.cpp:159-171 | null exactly when no start holds the player; otherwise the first start in the list held by the player |
| GameMode.GetUnassignedPlayerStart | Source/Rise/Private/RiseGameMode.cpp:198-210 | null exactly when every start has a player; otherwise the first start in the list without one |
| GameMode.GetOrAssignPlayerStartForPlayer | Source/Rise/Private/RiseGameMode.cpp:173-196 | the first start held by the player if there is one; otherwise the last empty start, now assigned to the player; otherwise null with nothing changed; a returned start is then what GetRisePlayerStartForPlayer finds |
| GameMode.FirstHeldPrefix | Source/Rise/Private/RiseGameMode.cpp:177-183 | the first start the loop finds held by the player is the first one overall |
| GameMode.DefeatConditionBase.IsDefeated | Source/Rise/Public/RiseGameMode.h:49-52 | the base condition never reports a defeat |
| GameMode.DefeatConditionBase.GetDefeatReason | Source/Rise/Public/RiseGameMode.h:59-62 | the base reason is empty |
| GameMode.CountMatching | Source/Rise/Public/RiseGameMode.h:122-129 | the count is at most the number of owned actors |
| GameMode.CountMatchingAppend | Source/Rise/Public/RiseGameMode.h:122-129 | an extra actor adds one to the count exactly when its class matches |
| GameMode.CountMatchingExtremes | Source/Rise/Public/RiseGameMode.h:122-129 | the count is the list length when every actor matches and 0 when none does |
| GameMode.DefeatOwner | Source/Rise/Public/RiseGameMode.h:101-114 | the owner is the given controller's Rise player state, or else the actor's component owner, or null |
| GameMode.RequiredUnitsDefeatCondition.IsDefeated | Source/Rise/Public/RiseGameMode.h:94-132 | true exactly when the actor exists, an owner is found, and that owner's matching count reaches ActorCount |
| GameMode.RequiredUnitsDefeatCondition.GetDefeatReason | Source/Rise/Public/RiseGameMode.h:139-142 | a fixed, non-empty message |
| GameMode.CountReachedMonotone | Source/Rise/Public/RiseGameMode.h:122-131 | gaining an actor never turns a reached count into an unreached one |
| GameMode.HoldingRequiredUnitsIsDefeat | Source/Rise/Public/RiseGameMode.h:65-131 | a player holding at least ActorCount matching actors is reported defeated, and one holding fewer is not: the opposite of the documented meaning |
| GameMode.VerifiedOwner | Source/Rise/Private/RiseGameMode.cpp:349-372 | the owner passed on is the given controller only when it is non-null and its state is the actor's component owner, else null |
| GameMode.GameMode.constructor | Source/Rise/Private/RiseGameMode.cpp:13-18 | one team by default, no conditions, no teams yet |
| GameMode.GameMode.Configured | Source/Rise/Public/RiseGameMode.h:182-190 | a game mode with edited team count and conditions, no teams yet |
| GameMode.GameMode.GetTeams | Source/Rise/Private/RiseGameMode.cpp:212-215 | returns the team array as stored |
| GameMode.GameMode.InitGame | Source/Rise/Private/RiseGameMode.cpp:20-38 | NumTeams new, empty teams are appended with indices 0 to NumTeams-1 in order, and the earlier teams are kept |
| GameMode.GameMode.TransferActorOwnership | Source/Rise/Private/RiseGameMode.cpp:306-347 | false for a missing actor or an unchanged owner; otherwise the component's owner becomes the new controller's state, the old owner's list drops the actor and the new owner's list gains it (when each is in the world), nothing else is written, and every world player state still lists exactly the actors it owns |
| GameMode.GameMode.NotifyActorKilled | Source/Rise/Private/RiseGameMode.cpp:349-372 | the kill is passed on once, with the owner verified |
| GameMode.GameMode.OnActorKilled | Source/Rise/Private/RiseGameMode.cpp:374-385 | the kill is recorded, and no stored base condition ever reports a defeated player |
| Resource.ClampedRequest | Source/Rise/Private/Components/RiseResourceComponent.cpp:57 | a negative request counts as 0, any other request as itself |
| Resource.ExtractAmount | Source/Rise/Private/Components/RiseResourceComponent.cpp:57-58 | the amount is at most what is left and at most the clamped request times the multiplier; it is either what is left or the floored product; it is non-negative for a non-negative multiplier and amount |
| Resource.ExtractSeriesConserves | Source/Rise/Public/Components/RiseResourceComponent.h:30-37 | over any series of calls, handed out plus left is the starting amount; with a non-negative multiplier the total never exceeds the start and the node never goes negative |
| Resource.FullRequestWithUnitMultiplier | Source/Rise/Private/Components/RiseResourceComponent.cpp:57-58 | with multiplier 1, a request that fits is granted in full |
| Resource.ResourceComponent.constructor | Source/Rise/Private/Components/RiseResourceComponent.cpp:7-14 | a new node holds 100 of 100, with multiplier 1 |
| Resource.ResourceComponent.Configured | Source/Rise/Private/Components/RiseResourceComponent.cpp:11-13 | an edited node keeps its maximum and multiplier but still holds 100 |
| Resource.ResourceComponent.GetMaxResourceAmount | Source/Rise/Private/Components/RiseResourceComponent.cpp:40-43 | returns the stored maximum |
| Resource.ResourceComponent.GetCurrentResourceAmount | Source/Rise/Private/Components/RiseResourceComponent.cpp:45-48 | returns the stored current amount |
| Resource.ResourceComponent.Extract | Source/Rise/Private/Components/RiseResourceComponent.cpp:50-85 | a null gatherer gets 0 and nothing changes; otherwise the amount is ExtractAmount, the node drops by exactly that and never below 0 from a non-negative start; OnResourceGathered is broadcast, followed by depletion and owner destruction at 0 or below |
| Resource.ResourceComponent.CanGatherFromNode | Source/Rise/Private/Components/RiseResourceComponent.cpp:87-92 | every gatherer may gather |

## Left out

- PerlinNoise2D and Pow are arbitrary functions over the reals. Nothing is claimed about their values or about float rounding, and heights are reals, not 32-bit floats.
- WorldGen.WorldGenerator.Generate: requires at least one octave whenever a cell is visited. With Octaves at 0 or below, line 71 divides by zero, which the model does not give a value. Nothing public calls Generate; the model exposes it so its effect can be stated.
- Integer widths: player indices and team indices are kept within 0..255 by their type. Resource amounts, counts, grid sizes and the int32 products `y*Width + x` are unbounded integers, so int32 overflow is not modelled.
- The current resource amount is a float in the source and an integer here. It only ever changes by whole numbers.
- Resource.ExtractAmount: floors the exact real product of the clamped request and the multiplier. The source multiplies in 32-bit float, rounding the product before `FMath::Floor`, so the two can differ by one: with the float multiplier 0.7f (0.699999988...) and a request of 10, the float product rounds to 7.0 and the source grants 7, while the exact product 6.99999988... floors to 6.
- Resource.ResourceComponent.Extract: hands out ExtractAmount, so it inherits the same difference from float rounding of the scaled request.
- Resource.ResourceComponent.Configured: the editor's ClampMin of 0 on the maximum and the multiplier becomes a precondition; nothing enforces it at run time.
- PlayerController.RisePlayerController.ZoomCameraIn: the zoom fields are 32-bit floats in the source and exact reals here, so the step-closer target and its clamp are computed exactly rather than rounded to float.
- PlayerController.RisePlayerController.ZoomCameraOut: computed exactly over the reals, as for ZoomCameraIn.
- PlayerController.RisePlayerController.PanCameraHorizontal: the axis force, delta and ease duration are floats in the source and exact reals here; the 0.001 threshold is compared exactly.
- PlayerController.RisePlayerController.PanCameraVertical: exact reals, as for PanCameraHorizontal.
- PlayerController.ZoomInThenOut: holds over the reals. In float it holds only when the values involved are exactly representable, as the defaults 400, 1500 and 25 are. With target 1, step 1e20 and range [-1e21, 2], float arithmetic gives (1 - 1e20) + 1e20 = 0, not 1.
- Camera easing, edge panning, camera speed, focusing on actors and the camera bounds volume are float engine motion and are not modelled. The pan and zoom handlers only set the fields those routines read.
- Line traces, deprojection, the box-select world scan and hover detection are not modelled. Hit lists and mouse positions are parameters.
- Replication, RPCs, Blueprint events, `OnRep_*` callbacks and UE_LOG are not modelled. Delegate broadcasts and notifications are recorded in ghost logs.
- The player controller's handlers for team and owner changes, and the player state's Blueprint team-change event, are not modelled; they are engine events.
- Spawning is not modelled: RestartPlayer, SpawnAIPlayer, SpawnActorForPlayer, BeginPlay option parsing, and the SpawnActor failure in InitGame (InitGame assumes every team actor spawns).
- Sound playback on selection and the component's GetSelectedSound are audio and are not modelled. Decal creation and destruction are rendering; only whether a decal exists and whether it is hidden are kept.
- The deselect loop that runs before `Reset` in the non-append SelectActors iterates over the array it mutates, so its effect is undefined. Only the `Reset` is modelled, and the flags of previously selected components are left as they were.
- `Actor->SetOwner` at line 336 of the game mode is an engine ownership field outside the Rise bookkeeping and is not modelled.
- GameMode.GameMode.TransferActorOwnership: requires a component and a non-null new owner whenever the owners differ. The source dereferences both at lines 329, 333 and 337 without checking.
- GameMode.GameMode.NotifyActorKilled: the actor is never null in the model. The source dereferences a null actor when an owner is given (RiseGameMode.cpp:353) and passes the kill on with a null actor otherwise.
- Actor validity is set membership in the scene, and a destroyed or pending-kill object is not distinguished from a missing one. An invalid world in NotifyOwnerChanged is an empty controller list.
- Asset-registry and data-table lookups, the actor library, name and description components, and the editor build target are engine glue and are not modelled.
- GameMode.GetAvailablePlayerIndex: the source reads the index of each player state in the world; the model takes those indices as a sequence.
