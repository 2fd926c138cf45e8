/** What the player controller's selection operations do to the selection
    array (SelectedActors) and to the bSelected flags of the selectable
    components, as functions of the state before the call.

    `ok` is the set of actors IsActorSelectable accepts: valid actors that
    carry a selectable component. `flags` maps each such actor to the
    bSelected flag of its component. */
module SelectionSpec {
  import opened Common

  datatype Selection = Selection(actors: seq<ActorId>, flags: map<ActorId, bool>)

  /** A new selection together with the number SelectActors counts. */
  datatype Outcome = Outcome(sel: Selection, count: nat)

  /** A new selection and whether EndSelectionFrame saw a change. */
  datatype FrameOutcome = FrameOutcome(sel: Selection, changed: bool)

  /** One pass of SelectActors' loop: skipped unless selectable; otherwise
      AddUnique, and only an AddUnique index of exactly 1 selects the
      component and is counted. */
  function SelectStep(ok: set<ActorId>, s: Selection, a: ActorId): (r: Outcome)
    ensures r.count <= 1
    ensures r.sel.actors == if a in ok then AddUnique(s.actors, a).0 else s.actors
    ensures r.count == 1 <==> a in ok && AddUnique(s.actors, a).1 == 1
    ensures r.sel.flags == if r.count == 1 then s.flags[a := true] else s.flags
  {
    if a !in ok then Outcome(s, 0)
    else
      var (arr, index) := AddUnique(s.actors, a);
      if index == 1 then Outcome(Selection(arr, s.flags[a := true]), 1)
      else Outcome(Selection(arr, s.flags), 0)
  }

  /** SelectActors' loop over `inputs`, defined from the last element so that a
      loop over `inputs[..i]` can follow it. */
  function SelectFold(ok: set<ActorId>, s: Selection, inputs: seq<ActorId>): Outcome
  {
    if inputs == [] then Outcome(s, 0)
    else
      var prev := SelectFold(ok, s, inputs[..|inputs| - 1]);
      var step := SelectStep(ok, prev.sel, inputs[|inputs| - 1]);
      Outcome(step.sel, prev.count + step.count)
  }

  /** SelectActors: without bAppend the array is first Reset; the component
      flags are left to the deselect pass, which is not part of this model. */
  function SelectActorsResult(ok: set<ActorId>, s: Selection, inputs: seq<ActorId>, append: bool): Outcome
  {
    SelectFold(ok, if append then s else Selection([], s.flags), inputs)
  }

  /** The state change of a successful DeselectActor: the component flag is
      cleared and every occurrence of the actor is removed. */
  function Deselected(s: Selection, a: ActorId): (r: Selection)
    ensures a in r.flags && !r.flags[a]
  {
    Selection(RemoveAll(s.actors, a), s.flags[a := false])
  }

  /** DeselectActor succeeds only for a selectable actor present in the array;
      otherwise it changes nothing and reports false. */
  function DeselectResult(ok: set<ActorId>, s: Selection, a: ActorId): (r: FrameOutcome)
    ensures r.changed <==> a in ok && a in s.actors
    ensures !r.changed ==> r.sel == s
    ensures r.changed ==> r.sel == Deselected(s, a)
  {
    if a in ok && a in s.actors then FrameOutcome(Deselected(s, a), true)
    else FrameOutcome(s, false)
  }

  /** One hit of EndSelectionFrame: unselectable hits are skipped; with the
      inverse hotkey held an already selected hit is deselected; every other
      hit goes through SelectActor with bAppend. */
  function FrameStep(ok: set<ActorId>, inverse: bool, s: Selection, a: ActorId): FrameOutcome
  {
    if a !in ok then FrameOutcome(s, false)
    else if inverse && a in s.actors then DeselectResult(ok, s, a)
    else
      var o := SelectStep(ok, s, a);
      FrameOutcome(o.sel, o.count > 0)
  }

  /** EndSelectionFrame's loop over the hits, defined from the last hit. */
  function FrameFold(ok: set<ActorId>, inverse: bool, s: Selection, hits: seq<ActorId>): FrameOutcome
  {
    if hits == [] then FrameOutcome(s, false)
    else
      var prev := FrameFold(ok, inverse, s, hits[..|hits| - 1]);
      var step := FrameStep(ok, inverse, prev.sel, hits[|hits| - 1]);
      FrameOutcome(step.sel, prev.changed || step.changed)
  }

  /** FrameFold over one more hit is one more FrameStep. */
  lemma FrameFoldNext(ok: set<ActorId>, inverse: bool, s: Selection, hits: seq<ActorId>, i: nat,
                      prev: FrameOutcome, next: Selection, changed: bool)
    requires i < |hits| && FrameFold(ok, inverse, s, hits[..i]) == prev
    requires next == FrameStep(ok, inverse, prev.sel, hits[i]).sel && changed == FrameStep(ok, inverse, prev.sel, hits[i]).changed
    ensures FrameFold(ok, inverse, s, hits[..i + 1]) == FrameOutcome(next, prev.changed || changed)
  {
    assert hits[..i + 1][..i] == hits[..i];
  }

  /** The per-tick cleanup: the entries whose actor is still valid, in order. */
  function KeepLive(s: seq<ActorId>, live: set<ActorId>): (r: seq<ActorId>)
    ensures |r| <= |s|
  {
    if s == [] then []
    else (if s[0] in live then [s[0]] else []) + KeepLive(s[1..], live)
  }

  lemma RemoveAllMembersAll(s: seq<ActorId>, a: ActorId)
    ensures forall x :: x in RemoveAll(s, a) <==> x in s && x != a
  {
    forall x {
      RemoveAllMembers(s, a, x);
    }
  }

  /** SelectActors only appends: the old array stays a prefix, duplicates are
      never introduced, and afterwards the array holds exactly the old entries
      and the selectable inputs. */
  lemma {:induction false} SelectFoldMembers(ok: set<ActorId>, s: Selection, inputs: seq<ActorId>)
    ensures var r := SelectFold(ok, s, inputs).sel.actors;
      |s.actors| <= |r| && r[..|s.actors|] == s.actors
      && (NoDuplicates(s.actors) ==> NoDuplicates(r))
      && forall x :: x in r <==> x in s.actors || (x in inputs && x in ok)
  {
    if inputs != [] {
      var init := inputs[..|inputs| - 1];
      SelectFoldMembers(ok, s, init);
      var prev := SelectFold(ok, s, init).sel.actors;
      var r := SelectFold(ok, s, inputs).sel.actors;
      assert r[..|prev|] == prev;
      assert r[..|s.actors|] == prev[..|s.actors|];
      assert inputs == init + [inputs[|inputs| - 1]];
    }
  }

  /** After a non-appending SelectActors the array holds every selectable
      input exactly once, in order of first appearance. */
  lemma ReplaceSelectsExactlyInputs(ok: set<ActorId>, s: Selection, inputs: seq<ActorId>)
    ensures var r := SelectActorsResult(ok, s, inputs, false).sel.actors;
      NoDuplicates(r) && forall x :: x in r <==> x in inputs && x in ok
  {
    SelectFoldMembers(ok, Selection([], s.flags), inputs);
  }

  /** SelectActor passes a one-element array to SelectActors. */
  lemma SelectFoldSingle(ok: set<ActorId>, s: Selection, a: ActorId)
    ensures SelectFold(ok, s, [a]) == SelectStep(ok, s, a)
  {
    assert [a][..0] == [];
  }

  /** SelectFold over one more input is one more SelectStep. */
  lemma SelectFoldNext(ok: set<ActorId>, s: Selection, inputs: seq<ActorId>, i: nat, prev: Outcome, next: Selection, counted: bool)
    requires i < |inputs| && SelectFold(ok, s, inputs[..i]) == prev
    requires next == SelectStep(ok, prev.sel, inputs[i]).sel && counted == (SelectStep(ok, prev.sel, inputs[i]).count == 1)
    ensures SelectFold(ok, s, inputs[..i + 1]) == Outcome(next, prev.count + if counted then 1 else 0)
  {
    assert inputs[..i + 1][..i] == inputs[..i];
  }

  /** SelectActor(Actor, false) resets the array and AddUnique then returns
      index 0, so it never selects the component and always reports false. */
  lemma SelectActorReplacingNeverSucceeds(ok: set<ActorId>, s: Selection, a: ActorId)
    ensures SelectActorsResult(ok, s, [a], false).count == 0
    ensures SelectActorsResult(ok, s, [a], false).sel.flags == s.flags
  {
    var start := Selection([], s.flags);
    assert [a][..0] == [];
    assert SelectFold(ok, start, [a]) == Outcome(SelectStep(ok, start, a).sel, SelectStep(ok, start, a).count);
  }

  /** SelectActor(Actor, true) succeeds exactly when the actor ends up at index
      1: it was already there, or it is new and the array held one entry. An
      actor already selected at index 1 is therefore reported as newly
      selected, and a new actor appended anywhere else is not. */
  lemma SelectActorAppendingSucceedsIff(ok: set<ActorId>, s: Selection, a: ActorId)
    ensures SelectActorsResult(ok, s, [a], true).count == 1 <==>
      a in ok && ((|s.actors| > 1 && s.actors[0] != a && s.actors[1] == a) || (a !in s.actors && |s.actors| == 1))
  {
    assert [a][..0] == [];
    assert SelectFold(ok, s, [a]) == Outcome(SelectStep(ok, s, a).sel, SelectStep(ok, s, a).count);
    if a in ok && a in s.actors {
      var k := IndexOf(s.actors, a);
      assert k == 1 <==> |s.actors| > 1 && s.actors[0] != a && s.actors[1] == a by {
        if |s.actors| > 1 && s.actors[0] != a && s.actors[1] == a {
          assert a !in s.actors[..1];
          assert a in s.actors[..2];
        }
      }
    }
  }

  /** How often `x` occurs in `inputs`. */
  function Occurrences(inputs: seq<ActorId>, x: ActorId): nat {
    multiset(inputs)[x]
  }

  /** The count SelectActors returns is bounded by how often the actor that
      ends up at index 1 occurs among the inputs, and is 0 while the array is
      shorter than two. */
  lemma {:induction false} SelectFoldCountBound(ok: set<ActorId>, s: Selection, inputs: seq<ActorId>)
    requires |s.actors| <= 1 || s.actors[0] != s.actors[1]
    ensures var o := SelectFold(ok, s, inputs);
      (|o.sel.actors| <= 1 ==> o.count == 0)
      && (|o.sel.actors| > 1 ==> o.count <= Occurrences(inputs, o.sel.actors[1]))
      && (|o.sel.actors| > 1 ==> o.sel.actors[0] != o.sel.actors[1])
  {
    if inputs != [] {
      var init := inputs[..|inputs| - 1];
      var a := inputs[|inputs| - 1];
      SelectFoldCountBound(ok, s, init);
      SelectFoldMembers(ok, s, init);
      var prev := SelectFold(ok, s, init);
      var o := SelectFold(ok, s, inputs);
      assert inputs == init + [a];
      assert multiset(inputs) == multiset(init) + multiset{a};
      if a in ok {
        var (arr, index) := AddUnique(prev.sel.actors, a);
        assert arr == o.sel.actors;
        if |prev.sel.actors| > 1 {
          assert arr[..2] == prev.sel.actors[..2];
        } else if |prev.sel.actors| == 1 && index == 1 {
          assert arr[0] == prev.sel.actors[0] != a;
        }
      }
    }
  }

  /** For inputs without repeats, SelectActors reports at most one newly
      selected actor, however many it adds. */
  lemma DistinctInputsCountAtMostOne(ok: set<ActorId>, s: Selection, inputs: seq<ActorId>, append: bool)
    requires NoDuplicates(s.actors) && NoDuplicates(inputs)
    ensures SelectActorsResult(ok, s, inputs, append).count <= 1
  {
    var start := if append then s else Selection([], s.flags);
    SelectFoldCountBound(ok, start, inputs);
    var o := SelectFold(ok, start, inputs);
    if |o.sel.actors| > 1 {
      DistinctOccursAtMostOnce(inputs, o.sel.actors[1]);
    }
  }

  lemma {:induction false} DistinctOccursAtMostOnce(inputs: seq<ActorId>, x: ActorId)
    requires NoDuplicates(inputs)
    ensures Occurrences(inputs, x) <= 1
  {
    if inputs != [] {
      assert inputs == [inputs[0]] + inputs[1..];
      DistinctOccursAtMostOnce(inputs[1..], x);
      if inputs[0] == x {
        assert x !in inputs[1..];
      }
    }
  }

  /** Selecting a new actor and then deselecting it gives back the array as
      it was. */
  lemma SelectThenDeselect(ok: set<ActorId>, s: Selection, a: ActorId)
    requires a in ok && a !in s.actors
    ensures var sel := SelectStep(ok, s, a).sel;
      DeselectResult(ok, sel, a).changed && DeselectResult(ok, sel, a).sel.actors == s.actors
  {
    var sel := SelectStep(ok, s, a).sel;
    assert sel.actors == s.actors + [a];
    RemoveAllAppended(s.actors, a);
  }

  lemma {:induction false} RemoveAllAppended(s: seq<ActorId>, a: ActorId)
    requires a !in s
    ensures RemoveAll(s + [a], a) == s
  {
    if s == [] {
      assert RemoveAll([a], a) == RemoveAll([a][1..], a);
    } else {
      var t := s + [a];
      assert t[0] == s[0] != a;
      assert t[1..] == s[1..] + [a];
      RemoveAllAppended(s[1..], a);
      assert RemoveAll(t, a) == [s[0]] + RemoveAll(t[1..], a);
      assert s == [s[0]] + s[1..];
    }
  }

  /** The cleanup keeps exactly the entries whose actor is still valid. */
  lemma {:induction false} KeepLiveMembers(s: seq<ActorId>, live: set<ActorId>, x: ActorId)
    ensures x in KeepLive(s, live) <==> x in s && x in live
  {
    if s != [] {
      KeepLiveMembers(s[1..], live, x);
      assert s == [s[0]] + s[1..];
    }
  }

  /** The cleanup keeps the length exactly when every entry is still valid,
      which is when the controller does not notify. */
  lemma {:induction false} KeepLiveSameLengthIff(s: seq<ActorId>, live: set<ActorId>)
    ensures |KeepLive(s, live)| == |s| <==> forall x :: x in s ==> x in live
    ensures (forall x :: x in s ==> x in live) ==> KeepLive(s, live) == s
  {
    if s != [] {
      KeepLiveSameLengthIff(s[1..], live);
      assert s == [s[0]] + s[1..];
      assert |KeepLive(s[1..], live)| <= |s[1..]|;
    }
  }

  /** With the inverse hotkey held and no repeated hits, a frame toggles
      membership: each selectable hit that was selected is no longer, and
      each that was not now is. Nothing else changes membership. */
  lemma {:induction false} InverseFrameToggles(ok: set<ActorId>, s: Selection, hits: seq<ActorId>)
    requires NoDuplicates(hits)
    ensures forall x :: (x in FrameFold(ok, true, s, hits).sel.actors)
                     <==> ((x in s.actors) != (x in hits && x in ok))
  {
    if hits != [] {
      var init := hits[..|hits| - 1];
      var a := hits[|hits| - 1];
      assert NoDuplicates(init);
      InverseFrameToggles(ok, s, init);
      assert hits == init + [a];
      assert a !in init;
      var prev := FrameFold(ok, true, s, init).sel;
      if a in ok && a !in prev.actors {
        assert AddUnique(prev.actors, a).0 == prev.actors + [a];
      } else if a in ok {
        RemoveAllMembersAll(prev.actors, a);
      }
    }
  }

  /** Without the inverse hotkey a frame is SelectActors with bAppend over the
      hits, and it sees a change exactly when that call would count one. */
  lemma {:induction false} PlainFrameIsAppendingSelect(ok: set<ActorId>, s: Selection, hits: seq<ActorId>)
    ensures FrameFold(ok, false, s, hits).sel == SelectActorsResult(ok, s, hits, true).sel
    ensures FrameFold(ok, false, s, hits).changed <==> SelectActorsResult(ok, s, hits, true).count > 0
  {
    if hits != [] {
      PlainFrameIsAppendingSelect(ok, s, hits[..|hits| - 1]);
    }
  }
}
