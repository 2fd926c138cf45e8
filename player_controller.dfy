/** ARisePlayerController: the local player's selection array, the selection
    frame, and the zoom and pan input handlers.

    The engine world the controller looks at is a Scene: which actors are
    still valid and which selectable component each actor carries. Mouse
    positions, hit lists and the spring arm's current length are passed in;
    NotifySelectedActorsChanged is recorded in a ghost log. */
module PlayerController {
  import opened Common
  import opened SelectionSpec
  import opened Selectable

  datatype Scene = Scene(live: set<ActorId>, components: map<ActorId, SelectableComponent>)

  /** FVector2D screen coordinates. */
  datatype Point = Point(x: real, y: real)
  datatype IntPoint = IntPoint(x: int, y: int)
  /** FIntRect(Min, Max). */
  datatype IntRect = IntRect(min: IntPoint, max: IntPoint)

  /** The component found on an actor is attached to that actor, so no two
      actors share one. */
  predicate ValidScene(sc: Scene) {
    forall a :: a in sc.components ==> sc.components[a].owner == a
  }

  /** The actors the selection code may select: valid, with a selectable
      component. */
  function Selectables(sc: Scene): set<ActorId> {
    sc.live * sc.components.Keys
  }

  /** IsActorSelectable: a valid actor that has a selectable component; the
      selection folds skip exactly the actors outside Selectables. */
  predicate IsActorSelectable(sc: Scene, a: ActorId)
    ensures IsActorSelectable(sc, a) <==> a in Selectables(sc)
  {
    a in sc.live && a in sc.components
  }

  /** The bSelected flag of every component in the scene. */
  function Flags(sc: Scene): map<ActorId, bool>
    reads sc.components.Values
  {
    map a | a in sc.components :: sc.components[a].selected
  }

  function Components(sc: Scene): set<SelectableComponent> {
    sc.components.Values
  }

  /** Every component's selection-related state. */
  ghost function Looks(sc: Scene): (m: map<SelectableComponent, Look>)
    reads Components(sc)
    ensures forall c :: c in Components(sc) ==> c in m && m[c] == c.Seen()
  {
    map c | c in Components(sc) :: c.Seen()
  }

  /** The implicit float-to-int32 conversion: truncation toward zero. */
  function Trunc(r: real): (i: int)
    ensures r >= 0.0 ==> 0 <= i && i as real <= r < i as real + 1.0
    ensures r < 0.0 ==> i <= 0 && i as real - 1.0 < r <= i as real
  {
    if r >= 0.0 then r.Floor else -((-r).Floor)
  }

  lemma TruncMonotone(a: real, b: real)
    ensures a <= b ==> Trunc(a) <= Trunc(b)
  {
  }

  /** The rectangle GetSelectionFrame builds: its Min point holds the smaller
      and larger X coordinate, its Max point the smaller and larger Y
      coordinate, each truncated to an integer. */
  function FrameRect(start: Point, mouse: Point): (r: IntRect)
    ensures r.min.x <= r.min.y && r.max.x <= r.max.y
    ensures {r.min.x, r.min.y} == {Trunc(start.x), Trunc(mouse.x)}
    ensures {r.max.x, r.max.y} == {Trunc(start.y), Trunc(mouse.y)}
  {
    TruncMonotone(start.x, mouse.x);
    TruncMonotone(mouse.x, start.x);
    TruncMonotone(start.y, mouse.y);
    TruncMonotone(mouse.y, start.y);
    IntRect(
      IntPoint(Trunc(if start.x <= mouse.x then start.x else mouse.x), Trunc(if start.x >= mouse.x then start.x else mouse.x)),
      IntPoint(Trunc(if start.y <= mouse.y then start.y else mouse.y), Trunc(if start.y >= mouse.y then start.y else mouse.y)))
  }

  /** The frame does not depend on the direction of the drag. */
  lemma FrameRectSymmetric(start: Point, mouse: Point)
    ensures FrameRect(start, mouse) == FrameRect(mouse, start)
  {
    var r, q := FrameRect(start, mouse), FrameRect(mouse, start);
    assert r.min.x in {q.min.x, q.min.y} && r.min.y in {q.min.x, q.min.y};
    assert r.max.x in {q.max.x, q.max.y} && r.max.y in {q.max.x, q.max.y};
  }

  /** Zooming in and then out returns to the same target distance while the
      step stays inside the configured range. */
  lemma ZoomInThenOut(target: real, step: real, lo: real, hi: real)
    requires lo <= target - step && target <= hi && 0.0 <= step
    ensures ClampReal(ClampReal(target - step, lo, hi) + step, lo, hi) == target
  {
    assert ClampReal(target - step, lo, hi) == target - step;
  }

  class RisePlayerController {
    var selectedActors: seq<ActorId>
    var creatingSelectionFrame: bool
    var selectionFrameStart: Point
    var inverseSelectionHotkeyPressed: bool
    var cameraMovementDisabled: bool
    var panCameraHorizontalAxisForce: real
    var panCameraHorizontalDelta: real
    var panCameraVerticalAxisForce: real
    var panCameraVerticalDelta: real
    var panCameraEaseDuration: real
    var zoomCameraMinimumDistance: real
    var zoomCameraMaximumDistance: real
    var zoomCameraStep: real
    var zoomCameraCurrentStep: real
    var zoomCameraTargetStep: real
    /** Every NotifySelectedActorsChanged, with the array it was given. */
    ghost var selectionNotices: seq<seq<ActorId>>

    constructor ()
      ensures selectedActors == [] && selectionNotices == []
      ensures !cameraMovementDisabled && !creatingSelectionFrame && !inverseSelectionHotkeyPressed
      ensures panCameraHorizontalAxisForce == 0.0 && panCameraHorizontalDelta == 0.0
      ensures panCameraVerticalAxisForce == 0.0 && panCameraVerticalDelta == 0.0
      ensures panCameraEaseDuration == 0.25
      ensures zoomCameraMinimumDistance == 400.0 && zoomCameraMaximumDistance == 1500.0 && zoomCameraStep == 25.0
    {
      selectedActors := [];
      selectionNotices := [];
      cameraMovementDisabled := false;
      panCameraHorizontalAxisForce, panCameraHorizontalDelta := 0.0, 0.0;
      panCameraVerticalAxisForce, panCameraVerticalDelta := 0.0, 0.0;
      panCameraEaseDuration := 0.25;
      zoomCameraMinimumDistance, zoomCameraMaximumDistance, zoomCameraStep := 400.0, 1500.0, 25.0;
      creatingSelectionFrame := false;
      inverseSelectionHotkeyPressed := false;
    }

    /** SelectActors: skips invalid and unselectable inputs, AddUniques the
        rest, and selects and counts only those AddUnique places or finds at
        index 1. Notifies once when the count is positive and notification
        is not suppressed. */
    method SelectActors(sc: Scene, inputs: seq<ActorId>, append: bool, suppress: bool) returns (added: nat)
      requires ValidScene(sc)
      modifies this`selectedActors, this`selectionNotices, Components(sc)`selected, Components(sc)`decalHidden, Components(sc)`broadcasts
      ensures var o := SelectActorsResult(Selectables(sc), Selection(old(selectedActors), old(Flags(sc))), inputs, append);
        selectedActors == o.sel.actors && Flags(sc) == o.sel.flags && added == o.count
      ensures selectionNotices == old(selectionNotices) + (if !suppress && added > 0 then [selectedActors] else [])
      ensures forall c :: c in Components(sc) ==> SelectsOnly(c, inputs, old(c.Seen()), c.Seen())
    {
      ghost var before := Selection(selectedActors, Flags(sc));
      if !append {
        selectedActors := [];
      }
      ghost var reset := Selection(selectedActors, Flags(sc));
      assert reset == if append then before else Selection([], before.flags);
      added := SelectEach(sc, inputs);
      ghost var r := SelectFold(Selectables(sc), reset, inputs);
      assert r == SelectActorsResult(Selectables(sc), before, inputs, append);
      assert r.sel.flags == Flags(sc);
      Notify(!suppress && added > 0);
    }

    /** NotifySelectedActorsChanged with the current array, when `cond` holds. */
    method Notify(cond: bool)
      modifies this`selectionNotices
      ensures selectionNotices == old(selectionNotices) + (if cond then [selectedActors] else [])
    {
      if cond {
        selectionNotices := selectionNotices + [selectedActors];
      }
    }

    /** SelectActors' loop over its inputs, one SelectInput per element. */
    method SelectEach(sc: Scene, inputs: seq<ActorId>) returns (added: nat)
      requires ValidScene(sc)
      modifies this`selectedActors, Components(sc)`selected, Components(sc)`decalHidden, Components(sc)`broadcasts
      ensures SelectFold(Selectables(sc), Selection(old(selectedActors), old(Flags(sc))), inputs)
           == Outcome(Selection(selectedActors, Flags(sc)), added)
      ensures forall c :: c in Components(sc) ==> SelectsOnly(c, inputs, old(c.Seen()), c.Seen())
    {
      ghost var start := Selection(selectedActors, Flags(sc));
      ghost var init := Looks(sc);
      added := 0;
      var i := 0;
      while i < |inputs|
        invariant 0 <= i <= |inputs|
        invariant SelectFold(Selectables(sc), start, inputs[..i]) == Outcome(Selection(selectedActors, Flags(sc)), added)
        invariant forall c :: c in Components(sc) ==> SelectsOnly(c, inputs[..i], init[c], c.Seen())
      {
        added := SelectNext(sc, start, inputs, i, init, added);
        i := i + 1;
      }
      assert inputs[..i] == inputs;
    }

    /** The body of SelectEach's loop: SelectInput on `inputs[i]`, carrying
        the fold so far and what the earlier passes did to the components. */
    method SelectNext(sc: Scene, ghost start: Selection, inputs: seq<ActorId>, i: nat,
                      ghost init: map<SelectableComponent, Look>, added: nat) returns (total: nat)
      requires ValidScene(sc) && i < |inputs|
      requires SelectFold(Selectables(sc), start, inputs[..i]) == Outcome(Selection(selectedActors, Flags(sc)), added)
      requires forall c :: c in Components(sc) ==> c in init && SelectsOnly(c, inputs[..i], init[c], c.Seen())
      modifies this`selectedActors, Components(sc)`selected, Components(sc)`decalHidden, Components(sc)`broadcasts
      ensures SelectFold(Selectables(sc), start, inputs[..i + 1]) == Outcome(Selection(selectedActors, Flags(sc)), total)
      ensures forall c :: c in Components(sc) ==> c in init && SelectsOnly(c, inputs[..i + 1], init[c], c.Seen())
    {
      ghost var prev := Outcome(Selection(selectedActors, Flags(sc)), added);
      var counted := SelectInput(sc, inputs[i]);
      SelectFoldNext(Selectables(sc), start, inputs, i, prev, Selection(selectedActors, Flags(sc)), counted);
      total := if counted then added + 1 else added;
      assert inputs[..i + 1] == inputs[..i] + [inputs[i]];
      forall c | c in Components(sc)
        ensures SelectsOnly(c, inputs[..i + 1], init[c], c.Seen())
      {
        SelectsOnlyThen(c, inputs[..i], [inputs[i]], init[c], old(c.Seen()), c.Seen());
      }
    }

    /** One pass of SelectActors' loop: an invalid or unselectable actor is
        skipped; otherwise it is AddUnique-d, and when AddUnique reports index
        1 its component is selected and the pass counts. */
    method SelectInput(sc: Scene, a: ActorId) returns (counted: bool)
      requires ValidScene(sc)
      modifies this`selectedActors, Components(sc)`selected, Components(sc)`decalHidden, Components(sc)`broadcasts
      ensures var st := SelectStep(Selectables(sc), Selection(old(selectedActors), old(Flags(sc))), a);
        selectedActors == st.sel.actors && Flags(sc) == st.sel.flags && counted == (st.count == 1)
      ensures forall c :: c in Components(sc) ==> SelectsOnly(c, [a], old(c.Seen()), c.Seen())
    {
      counted := false;
      if a in sc.live && a in sc.components {
        var c := sc.components[a];
        var index := AddSelected(a);
        if index == 1 {
          ghost var before := Flags(sc);
          c.SelectActor();
          SelectedOne(sc, a, before);
          forall d | d in Components(sc)
            ensures SelectsOnly(d, [a], old(d.Seen()), d.Seen())
          {
            if d != c {
              assert d.owner != a;
            }
          }
          counted := true;
        }
      }
    }

    /** SelectedActors.AddUnique(Actor): the array with the actor appended
        unless present, and the index at which the actor now sits. */
    method AddSelected(a: ActorId) returns (index: nat)
      modifies this`selectedActors
      ensures (selectedActors, index) == AddUnique(old(selectedActors), a)
    {
      var r := AddUnique(selectedActors, a);
      selectedActors, index := r.0, r.1;
    }

    /** SelectActor: SelectActors on a one-element array, reporting whether it
        counted the actor. */
    method SelectActor(sc: Scene, a: ActorId, append: bool, suppress: bool) returns (success: bool)
      requires ValidScene(sc)
      modifies this`selectedActors, this`selectionNotices, Components(sc)`selected, Components(sc)`decalHidden, Components(sc)`broadcasts
      ensures var o := SelectActorsResult(Selectables(sc), Selection(old(selectedActors), old(Flags(sc))), [a], append);
        selectedActors == o.sel.actors && Flags(sc) == o.sel.flags && success == (o.count > 0)
      ensures selectionNotices == old(selectionNotices) + (if !suppress && success then [selectedActors] else [])
      ensures forall c :: c in Components(sc) ==> SelectsOnly(c, [a], old(c.Seen()), c.Seen())
    {
      var added := SelectActors(sc, [a], append, suppress);
      success := added > 0;
    }

    /** DeselectActor: fails without change for an invalid actor, one not in
        the array, or one without a selectable component; otherwise deselects
        the component and removes every occurrence of the actor. */
    method DeselectActor(sc: Scene, a: ActorId, suppress: bool) returns (success: bool)
      requires ValidScene(sc)
      modifies this`selectedActors, this`selectionNotices, Components(sc)`selected, Components(sc)`decalHidden, Components(sc)`broadcasts
      ensures var r := DeselectResult(Selectables(sc), Selection(old(selectedActors), old(Flags(sc))), a);
        selectedActors == r.sel.actors && Flags(sc) == r.sel.flags && success == r.changed
      ensures selectionNotices == old(selectionNotices) + (if !suppress && success then [selectedActors] else [])
      ensures forall c :: c in Components(sc) ==> DeselectsOnly(c, a, old(c.Seen()), c.Seen())
    {
      if a !in sc.live {
        return false;
      }
      if a !in selectedActors {
        return false;
      }
      if a !in sc.components {
        return false;
      }
      var c := sc.components[a];
      ghost var before := Flags(sc);
      c.DeselectActor();
      DeselectedOne(sc, a, before);
      forall d | d in Components(sc)
        ensures DeselectsOnly(d, a, old(d.Seen()), d.Seen())
      {
        if d != c {
          assert d.owner != a;
        }
      }
      RemoveSelected(a);
      Notify(!suppress);
      return true;
    }

    /** SelectedActors.Remove(Actor): every occurrence of the actor goes. */
    method RemoveSelected(a: ActorId)
      modifies this`selectedActors
      ensures selectedActors == RemoveAll(old(selectedActors), a)
    {
      selectedActors := RemoveAll(selectedActors, a);
    }

    /** The end of PlayerTick: walks the array from the back, RemoveAt-ing
        every entry whose actor is no longer valid, and notifies when the
        length changed. */
    method RemoveDeadSelections(sc: Scene)
      modifies this`selectedActors, this`selectionNotices
      ensures selectedActors == KeepLive(old(selectedActors), sc.live)
      ensures selectionNotices == old(selectionNotices)
        + (if |selectedActors| != |old(selectedActors)| then [selectedActors] else [])
    {
      ghost var s := selectedActors;
      var oldCount := |selectedActors|;
      var i := oldCount - 1;
      while i >= 0
        invariant -1 <= i < oldCount
        invariant selectedActors == s[..i + 1] + KeepLive(s[i + 1..], sc.live)
        invariant selectionNotices == old(selectionNotices)
      {
        var actor := selectedActors[i];
        assert actor == s[i];
        assert s[i..][1..] == s[i + 1..];
        assert s[..i + 1] == s[..i] + [s[i]];
        if actor !in sc.live {
          selectedActors := selectedActors[..i] + selectedActors[i + 1..];
        }
        i := i - 1;
      }
      Notify(|selectedActors| != oldCount);
    }

    /** A frame starts only when the mouse position is available; a second
        start replaces the start point. */
    method StartSelectionFrame(mouse: Option<Point>)
      modifies this`selectionFrameStart, this`creatingSelectionFrame
      ensures mouse.Some? ==> creatingSelectionFrame && selectionFrameStart == mouse.value
      ensures mouse.None? ==>
        creatingSelectionFrame == old(creatingSelectionFrame) && selectionFrameStart == old(selectionFrameStart)
    {
      if mouse.Some? {
        selectionFrameStart := mouse.value;
        creatingSelectionFrame := true;
      }
    }

    /** GetSelectionFrame: no rectangle unless a frame is in progress and the
        mouse position is available. */
    function GetSelectionFrame(mouse: Option<Point>): (r: Option<IntRect>)
      reads this
      ensures r.Some? <==> creatingSelectionFrame && mouse.Some?
      ensures r.Some? ==> r.value == FrameRect(selectionFrameStart, mouse.value)
    {
      if !creatingSelectionFrame then None
      else if mouse.None? then None
      else Some(FrameRect(selectionFrameStart, mouse.value))
    }

    /** EndSelectionFrame: nothing without a frame in progress; otherwise the
        frame always ends, and when the hit query succeeds each selectable hit
        is toggled (inverse hotkey held) or appended, with one notification
        if anything changed. `hits` is None when the query reports failure. */
    method EndSelectionFrame(sc: Scene, hits: Option<seq<ActorId>>)
      requires ValidScene(sc)
      modifies this`selectedActors, this`selectionNotices, this`creatingSelectionFrame
      modifies Components(sc)`selected, Components(sc)`decalHidden, Components(sc)`broadcasts
      ensures !creatingSelectionFrame
      ensures !old(creatingSelectionFrame) || hits.None? ==>
        selectedActors == old(selectedActors) && Flags(sc) == old(Flags(sc)) && selectionNotices == old(selectionNotices)
        && forall c :: c in Components(sc) ==> c.Seen() == old(c.Seen())
      ensures old(creatingSelectionFrame) && hits.Some? ==>
        var r := FrameFold(Selectables(sc), inverseSelectionHotkeyPressed, Selection(old(selectedActors), old(Flags(sc))), hits.value);
        selectedActors == r.sel.actors && Flags(sc) == r.sel.flags
        && selectionNotices == old(selectionNotices) + (if r.changed then [selectedActors] else [])
      ensures old(creatingSelectionFrame) && hits.Some? ==>
        forall c :: c in Components(sc) ==> TogglesOnly(c, hits.value, old(c.Seen()), c.Seen())
    {
      if !creatingSelectionFrame {
        return;
      }
      if hits.None? {
        creatingSelectionFrame := false;
        return;
      }
      var changed := FrameHits(sc, hits.value);
      Notify(changed);
      creatingSelectionFrame := false;
    }

    /** EndSelectionFrame's loop over the hits, one FrameHit each, reporting
        whether any of them changed the selection. */
    method FrameHits(sc: Scene, hits: seq<ActorId>) returns (changed: bool)
      requires ValidScene(sc)
      modifies this`selectedActors, this`selectionNotices, Components(sc)`selected, Components(sc)`decalHidden, Components(sc)`broadcasts
      ensures FrameFold(Selectables(sc), inverseSelectionHotkeyPressed, Selection(old(selectedActors), old(Flags(sc))), hits)
           == FrameOutcome(Selection(selectedActors, Flags(sc)), changed)
      ensures selectionNotices == old(selectionNotices)
      ensures forall c :: c in Components(sc) ==> TogglesOnly(c, hits, old(c.Seen()), c.Seen())
    {
      ghost var start := Selection(selectedActors, Flags(sc));
      ghost var init := Looks(sc);
      changed := false;
      var i := 0;
      while i < |hits|
        invariant 0 <= i <= |hits|
        invariant FrameFold(Selectables(sc), inverseSelectionHotkeyPressed, start, hits[..i])
               == FrameOutcome(Selection(selectedActors, Flags(sc)), changed)
        invariant forall c :: c in Components(sc) ==> TogglesOnly(c, hits[..i], init[c], c.Seen())
        invariant selectionNotices == old(selectionNotices)
      {
        changed := FrameNext(sc, start, hits, i, init, changed);
        i := i + 1;
      }
      assert hits[..i] == hits;
    }

    /** The body of FrameHits' loop: FrameHit on `hits[i]`, carrying the fold
        so far and what the earlier hits did to the components. */
    method FrameNext(sc: Scene, ghost start: Selection, hits: seq<ActorId>, i: nat,
                     ghost init: map<SelectableComponent, Look>, changed: bool) returns (any: bool)
      requires ValidScene(sc) && i < |hits|
      requires FrameFold(Selectables(sc), inverseSelectionHotkeyPressed, start, hits[..i])
            == FrameOutcome(Selection(selectedActors, Flags(sc)), changed)
      requires forall c :: c in Components(sc) ==> c in init && TogglesOnly(c, hits[..i], init[c], c.Seen())
      modifies this`selectedActors, this`selectionNotices, Components(sc)`selected, Components(sc)`decalHidden, Components(sc)`broadcasts
      ensures FrameFold(Selectables(sc), inverseSelectionHotkeyPressed, start, hits[..i + 1])
           == FrameOutcome(Selection(selectedActors, Flags(sc)), any)
      ensures selectionNotices == old(selectionNotices)
      ensures forall c :: c in Components(sc) ==> c in init && TogglesOnly(c, hits[..i + 1], init[c], c.Seen())
    {
      ghost var prev := FrameOutcome(Selection(selectedActors, Flags(sc)), changed);
      var success := FrameHit(sc, hits[..i], hits[i], init);
      FrameFoldNext(Selectables(sc), inverseSelectionHotkeyPressed, start, hits, i, prev, Selection(selectedActors, Flags(sc)), success);
      assert hits[..i + 1] == hits[..i] + [hits[i]];
      any := changed || success;
    }

    /** One hit of EndSelectionFrame's loop: skipped unless selectable; with
        the inverse hotkey held an already selected hit is deselected, any
        other goes through SelectActor with bAppend, both without notifying.
        `done` and `init` carry what the earlier hits did to the components. */
    method FrameHit(sc: Scene, ghost done: seq<ActorId>, a: ActorId, ghost init: map<SelectableComponent, Look>) returns (success: bool)
      requires ValidScene(sc)
      requires forall c :: c in Components(sc) ==> c in init && TogglesOnly(c, done, init[c], c.Seen())
      modifies this`selectedActors, this`selectionNotices, Components(sc)`selected, Components(sc)`decalHidden, Components(sc)`broadcasts
      ensures var step := FrameStep(Selectables(sc), inverseSelectionHotkeyPressed, Selection(old(selectedActors), old(Flags(sc))), a);
        selectedActors == step.sel.actors && Flags(sc) == step.sel.flags && success == step.changed
      ensures selectionNotices == old(selectionNotices)
      ensures forall c :: c in Components(sc) ==> TogglesOnly(c, done + [a], init[c], c.Seen())
    {
      ghost var s := Selection(selectedActors, Flags(sc));
      success := false;
      if a in sc.live && a in sc.components {
        if inverseSelectionHotkeyPressed && a in selectedActors {
          success := DeselectActor(sc, a, true);
        } else {
          SelectFoldSingle(Selectables(sc), s, a);
          success := SelectActor(sc, a, true, true);
        }
      }
      forall c | c in Components(sc)
        ensures TogglesOnly(c, done + [a], init[c], c.Seen())
      {
        TogglesOnlyThen(c, done, a, init[c], old(c.Seen()), c.Seen());
      }
    }

    method StartInverseSelectionFrame()
      modifies this`inverseSelectionHotkeyPressed
      ensures inverseSelectionHotkeyPressed
    {
      inverseSelectionHotkeyPressed := true;
    }

    method EndInverseSelectionFrame()
      modifies this`inverseSelectionHotkeyPressed
      ensures !inverseSelectionHotkeyPressed
    {
      inverseSelectionHotkeyPressed := false;
    }

    /** Stores the axis input and restarts the ease timer only for an input of
        magnitude at least 0.001; does nothing while movement is disabled. */
    method PanCameraHorizontal(scale: real)
      modifies this`panCameraHorizontalAxisForce, this`panCameraHorizontalDelta
      ensures !cameraMovementDisabled && AbsReal(scale) >= 0.001 ==>
        panCameraHorizontalAxisForce == scale && panCameraHorizontalDelta == panCameraEaseDuration
      ensures cameraMovementDisabled || AbsReal(scale) < 0.001 ==>
        panCameraHorizontalAxisForce == old(panCameraHorizontalAxisForce) && panCameraHorizontalDelta == old(panCameraHorizontalDelta)
    {
      if cameraMovementDisabled {
        return;
      }
      if AbsReal(scale) >= 0.001 {
        panCameraHorizontalAxisForce := scale;
        panCameraHorizontalDelta := panCameraEaseDuration;
      }
    }

    method PanCameraVertical(scale: real)
      modifies this`panCameraVerticalAxisForce, this`panCameraVerticalDelta
      ensures !cameraMovementDisabled && AbsReal(scale) >= 0.001 ==>
        panCameraVerticalAxisForce == scale && panCameraVerticalDelta == panCameraEaseDuration
      ensures cameraMovementDisabled || AbsReal(scale) < 0.001 ==>
        panCameraVerticalAxisForce == old(panCameraVerticalAxisForce) && panCameraVerticalDelta == old(panCameraVerticalDelta)
    {
      if cameraMovementDisabled {
        return;
      }
      if AbsReal(scale) >= 0.001 {
        panCameraVerticalAxisForce := scale;
        panCameraVerticalDelta := panCameraEaseDuration;
      }
    }

    /** Moves the target distance one step closer, kept within the configured
        range, and re-anchors the current step at the spring arm's actual
        length. Does nothing while movement is disabled. */
    method ZoomCameraIn(actualZoom: real)
      modifies this`zoomCameraTargetStep, this`zoomCameraCurrentStep
      ensures cameraMovementDisabled ==>
        zoomCameraTargetStep == old(zoomCameraTargetStep) && zoomCameraCurrentStep == old(zoomCameraCurrentStep)
      ensures !cameraMovementDisabled ==>
        zoomCameraCurrentStep == actualZoom
        && zoomCameraTargetStep == ClampReal(old(zoomCameraTargetStep) - zoomCameraStep, zoomCameraMinimumDistance, zoomCameraMaximumDistance)
      ensures !cameraMovementDisabled && zoomCameraMinimumDistance <= zoomCameraMaximumDistance ==>
        zoomCameraMinimumDistance <= zoomCameraTargetStep <= zoomCameraMaximumDistance
    {
      if cameraMovementDisabled {
        return;
      }
      zoomCameraTargetStep := ClampReal(zoomCameraTargetStep - zoomCameraStep, zoomCameraMinimumDistance, zoomCameraMaximumDistance);
      zoomCameraCurrentStep := actualZoom;
    }

    /** Moves the target distance one step further, kept within the range. */
    method ZoomCameraOut(actualZoom: real)
      modifies this`zoomCameraTargetStep, this`zoomCameraCurrentStep
      ensures cameraMovementDisabled ==>
        zoomCameraTargetStep == old(zoomCameraTargetStep) && zoomCameraCurrentStep == old(zoomCameraCurrentStep)
      ensures !cameraMovementDisabled ==>
        zoomCameraCurrentStep == actualZoom
        && zoomCameraTargetStep == ClampReal(old(zoomCameraTargetStep) + zoomCameraStep, zoomCameraMinimumDistance, zoomCameraMaximumDistance)
      ensures !cameraMovementDisabled && zoomCameraMinimumDistance <= zoomCameraMaximumDistance ==>
        zoomCameraMinimumDistance <= zoomCameraTargetStep <= zoomCameraMaximumDistance
    {
      if cameraMovementDisabled {
        return;
      }
      zoomCameraTargetStep := ClampReal(zoomCameraTargetStep + zoomCameraStep, zoomCameraMinimumDistance, zoomCameraMaximumDistance);
      zoomCameraCurrentStep := actualZoom;
    }

    /** Stores the negation of its argument in bCameraMovementDisabled, so the
        getter, which returns that field, reports the opposite of what was
        set. */
    method SetCameraMovementEnabled(enabled: bool)
      modifies this`cameraMovementDisabled
      ensures cameraMovementDisabled == !enabled
      ensures GetCameraMovementEnabled() == !enabled
    {
      cameraMovementDisabled := !enabled;
    }

    function GetCameraMovementEnabled(): bool
      reads this
    {
      cameraMovementDisabled
    }
  }

  /** Once that actor's component flag is set, and every other component's
      flag is as it was, the scene's flag map is the old map updated to true
      at that actor. */
  lemma SelectedOne(sc: Scene, a: ActorId, before: map<ActorId, bool>)
    requires ValidScene(sc) && a in sc.components && sc.components[a].selected
    requires before.Keys == sc.components.Keys
    requires forall b :: b in sc.components && b != a ==> before[b] == sc.components[b].selected
    ensures Flags(sc) == before[a := true]
  {
  }

  /** Once that actor's component flag is cleared, and every other
      component's flag is as it was, the scene's flag map is the old map
      updated to false at that actor. */
  lemma DeselectedOne(sc: Scene, a: ActorId, before: map<ActorId, bool>)
    requires ValidScene(sc) && a in sc.components && !sc.components[a].selected
    requires before.Keys == sc.components.Keys
    requires forall b :: b in sc.components && b != a ==> before[b] == sc.components[b].selected
    ensures Flags(sc) == before[a := false]
  {
  }
}
