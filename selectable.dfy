/** URiseSelectableComponent: the per-actor selected and hovered flags, the
    selection decal's visibility and the portrait shown in the UI. The
    delegates it broadcasts are recorded in a ghost event log. */
module Selectable {
  import opened Common

  /** A texture asset; the portrait pointer may be null. */
  type TextureId = nat

  /** The multicast delegates the component broadcasts, each with the owning
      actor as its argument. */
  datatype Broadcast = OnSelected(actor: ActorId) | OnHovered(actor: ActorId) | OnUnhovered(actor: ActorId)

  /** What selecting and deselecting can change on a component: its flag,
      its decal's visibility and its broadcasts. */
  datatype Look = Look(selected: bool, decalHidden: bool, broadcasts: seq<Broadcast>)

  class SelectableComponent {
    /** GetOwner(): the actor this component is attached to. */
    const owner: ActorId
    /** Whether BeginPlay managed to create the decal (IsValid(DecalComponent)). */
    const hasDecal: bool

    var selected: bool
    var hovered: bool
    var decalHidden: bool
    var portrait: Option<TextureId>
    ghost var broadcasts: seq<Broadcast>

    /** A component after BeginPlay: not selected, not hovered, decal hidden,
        portrait as configured on the asset. */
    constructor (inOwner: ActorId, inHasDecal: bool, inPortrait: Option<TextureId>)
      ensures owner == inOwner && hasDecal == inHasDecal
      ensures !IsSelected() && !IsHovered() && decalHidden
      ensures GetPortrait() == inPortrait && broadcasts == []
    {
      owner, hasDecal := inOwner, inHasDecal;
      selected, hovered, decalHidden := false, false, true;
      portrait := inPortrait;
      broadcasts := [];
    }

    function IsSelected(): (r: bool)
      reads this
      ensures r == selected
    {
      selected
    }

    function IsHovered(): (r: bool)
      reads this
      ensures r == hovered
    {
      hovered
    }
    function GetPortrait(): Option<TextureId> reads this { portrait }

    ghost function Seen(): Look
      reads this
    {
      Look(selected, decalHidden, broadcasts)
    }

    /** Selecting an already selected component does nothing; otherwise the
        flag is set, the decal shown and OnSelected broadcast once. */
    method SelectActor()
      modifies this`selected, this`decalHidden, this`broadcasts
      ensures IsSelected()
      ensures old(selected) ==> decalHidden == old(decalHidden) && broadcasts == old(broadcasts)
      ensures !old(selected) ==> decalHidden == (old(decalHidden) && !hasDecal)
      ensures !old(selected) ==> broadcasts == old(broadcasts) + [OnSelected(owner)]
    {
      if selected {
        return;
      }
      selected := true;
      if hasDecal {
        decalHidden := false;
      }
      broadcasts := broadcasts + [OnSelected(owner)];
    }

    /** Deselecting an unselected component does nothing; otherwise the flag
        is cleared, the decal hidden and OnSelected (not OnDeselected) is
        broadcast once. */
    method DeselectActor()
      modifies this`selected, this`decalHidden, this`broadcasts
      ensures !IsSelected()
      ensures !old(selected) ==> decalHidden == old(decalHidden) && broadcasts == old(broadcasts)
      ensures old(selected) ==> decalHidden == (old(decalHidden) || hasDecal)
      ensures old(selected) ==> broadcasts == old(broadcasts) + [OnSelected(owner)]
    {
      if !selected {
        return;
      }
      selected := false;
      if hasDecal {
        decalHidden := true;
      }
      broadcasts := broadcasts + [OnSelected(owner)];
    }

    /** Broadcasts OnHovered only on the false-to-true transition. */
    method HoverActor()
      modifies this`hovered, this`broadcasts
      ensures IsHovered()
      ensures broadcasts == old(broadcasts) + (if old(hovered) then [] else [OnHovered(owner)])
    {
      if hovered {
        return;
      }
      hovered := true;
      broadcasts := broadcasts + [OnHovered(owner)];
    }

    /** Broadcasts OnUnhovered only on the true-to-false transition. */
    method UnhoverActor()
      modifies this`hovered, this`broadcasts
      ensures !IsHovered()
      ensures broadcasts == old(broadcasts) + (if old(hovered) then [OnUnhovered(owner)] else [])
    {
      if !hovered {
        return;
      }
      hovered := false;
      broadcasts := broadcasts + [OnUnhovered(owner)];
    }

    method SetPortrait(newPortrait: Option<TextureId>)
      modifies this`portrait
      ensures GetPortrait() == newPortrait
    {
      portrait := newPortrait;
    }
  }

  /** Selecting twice broadcasts once, and hovering never touches the
      selection: a select, hover, select, unhover sequence on a fresh
      component leaves it selected, unhovered, with three broadcasts. */
  method SelectAndHoverSequence(c: SelectableComponent)
    requires !c.selected && !c.hovered
    modifies c
    ensures c.IsSelected() && !c.IsHovered()
    ensures c.broadcasts == old(c.broadcasts) + [OnSelected(c.owner), OnHovered(c.owner), OnUnhovered(c.owner)]
  {
    c.SelectActor();
    c.HoverActor();
    c.SelectActor();
    c.UnhoverActor();
  }

  /** The effect of at most one SelectActor or DeselectActor that found the
      flag different: if the flag changed, OnSelected was broadcast once and
      a component with a decal shows it exactly when selected; if it did not,
      the decal and the broadcasts are as they were. */
  ghost predicate FlippedAtMostOnce(c: SelectableComponent, before: Look, after: Look) {
    && after.broadcasts == before.broadcasts + (if after.selected == before.selected then [] else [OnSelected(c.owner)])
    && after.decalHidden == (if after.selected != before.selected && c.hasDecal then !after.selected else before.decalHidden)
  }

  /** The effect of any number of SelectActor and DeselectActor calls: only
      OnSelected broadcasts are appended, one per flag change, so their number
      has the parity of the overall change; once any change happened, a
      component with a decal shows it exactly when selected. */
  ghost predicate Toggled(c: SelectableComponent, before: Look, after: Look) {
    && |before.broadcasts| <= |after.broadcasts|
    && after.broadcasts[..|before.broadcasts|] == before.broadcasts
    && (forall j :: |before.broadcasts| <= j < |after.broadcasts| ==> after.broadcasts[j] == OnSelected(c.owner))
    && (|after.broadcasts| - |before.broadcasts|) % 2 == (if after.selected == before.selected then 0 else 1)
    && after.decalHidden == (if |after.broadcasts| > |before.broadcasts| && c.hasDecal then !after.selected else before.decalHidden)
  }

  /** Two passes that can only select compose to one: the flag changes at
      most once overall, so OnSelected is broadcast at most once. */
  lemma FlippedTwice(c: SelectableComponent, b0: Look, b1: Look, b2: Look)
    requires FlippedAtMostOnce(c, b0, b1) && FlippedAtMostOnce(c, b1, b2)
    requires (b0.selected ==> b1.selected) && (b1.selected ==> b2.selected)
    ensures FlippedAtMostOnce(c, b0, b2)
  {
  }

  /** A further select or deselect keeps a component's history Toggled. */
  lemma ToggledThenFlipped(c: SelectableComponent, b0: Look, b1: Look, b2: Look)
    requires Toggled(c, b0, b1) && FlippedAtMostOnce(c, b1, b2)
    ensures Toggled(c, b0, b2)
  {
    if b2.selected != b1.selected {
      assert b2.broadcasts[..|b1.broadcasts|] == b1.broadcasts;
      assert b2.broadcasts[..|b0.broadcasts|] == b1.broadcasts[..|b0.broadcasts|];
    }
  }

  /** What SelectActors promises each component: it is selected at most once,
      never deselected, and left alone unless its actor is among `inputs`. */
  ghost predicate SelectsOnly(c: SelectableComponent, inputs: seq<ActorId>, before: Look, after: Look) {
    && FlippedAtMostOnce(c, before, after)
    && (before.selected ==> after.selected)
    && (c.owner !in inputs ==> after == before)
  }

  /** What DeselectActor promises each component: it is deselected at most
      once, never selected, and left alone unless it belongs to `actor`. */
  ghost predicate DeselectsOnly(c: SelectableComponent, actor: ActorId, before: Look, after: Look) {
    && FlippedAtMostOnce(c, before, after)
    && (after.selected ==> before.selected)
    && (c.owner != actor ==> after == before)
  }

  /** Selecting from one array and then from another selects only from both. */
  lemma SelectsOnlyThen(c: SelectableComponent, first: seq<ActorId>, second: seq<ActorId>, b0: Look, b1: Look, b2: Look)
    requires SelectsOnly(c, first, b0, b1) && SelectsOnly(c, second, b1, b2)
    ensures SelectsOnly(c, first + second, b0, b2)
  {
    FlippedTwice(c, b0, b1, b2);
  }

  /** What a selection frame promises each component: any number of selects
      and deselects, and none unless its actor is among the hits. */
  ghost predicate TogglesOnly(c: SelectableComponent, hits: seq<ActorId>, before: Look, after: Look) {
    && Toggled(c, before, after)
    && (c.owner !in hits ==> after == before)
  }

  /** One more select or deselect of the actor `a` extends the hits by `a`. */
  lemma TogglesOnlyThen(c: SelectableComponent, hits: seq<ActorId>, a: ActorId, b0: Look, b1: Look, b2: Look)
    requires TogglesOnly(c, hits, b0, b1) && FlippedAtMostOnce(c, b1, b2)
    requires c.owner != a ==> b2 == b1
    ensures TogglesOnly(c, hits + [a], b0, b2)
  {
    ToggledThenFlipped(c, b0, b1, b2);
  }
}
