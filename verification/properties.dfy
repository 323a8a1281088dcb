/** Properties of the draft-spot state machine that relate several events:
    the draft lifecycle, which events may touch which parts of the state,
    events that overwrite or repeat one another, and example sessions. */
module PinpointProperties {
  import opened Wrappers
  import opened Geofence
  import opened Pinpoint
  import opened Session

  /** A draft comes into being only through a click inside the region, and
      an existing draft goes away only through Cancel or a Save press with a
      non-empty description. */
  lemma DraftLifecycle(s: State, e: Event)
    requires Enabled(s, e)
    ensures s.newSpot.None? ==>
              (Step(s, e).next.newSpot.Some? <==> e.Click? && Contains(Region, e.at))
    ensures s.newSpot.Some? ==>
              (Step(s, e).next.newSpot.None? <==> e.Cancel? || (e.Submit? && Truthy(s.description)))
  {
  }

  /** The saved spots change exactly on a Save press with a non-empty
      description; every other event leaves them as they were. */
  lemma SpotsChangeOnlyOnSave(s: State, e: Event)
    requires Enabled(s, e)
    ensures Step(s, e).next.spots != s.spots <==> e.Submit? && Truthy(s.description)
  {
    if e.Submit? && Truthy(s.description) {
      assert |Step(s, e).next.spots| == |s.spots| + 1;
    }
  }

  /** An accepted click places the draft at exactly the clicked coordinate,
      whether or not a draft was already open, and keeps the description
      typed so far. */
  lemma ClickPlacesDraft(s: State, p: LatLng)
    requires Contains(Region, p)
    ensures Step(s, Click(p)).next == State(s.spots, Some(Draft(p.lat, p.lng)), s.description)
  {
  }

  /** A click outside the region changes nothing and shows the boundary
      alert. */
  lemma ClickOutsideRejected(s: State, p: LatLng)
    requires !Contains(Region, p)
    ensures Step(s, Click(p)) == Reaction(s, Alert(RejectionMessage))
  {
  }

  /** A second accepted click replaces the first: two accepted clicks in a
      row leave the same state as the second alone. */
  lemma ClickReplacesDraft(s: State, p: LatLng, q: LatLng)
    requires Contains(Region, p) && Contains(Region, q)
    ensures Step(Step(s, Click(p)).next, Click(q)).next == Step(s, Click(q)).next
  {
  }

  /** An edit overwrites, it does not append: two edits in a row leave the
      same state as the second alone, and an edit changes only the
      description. */
  lemma EditOverwrites(s: State, a: string, b: string)
    requires s.newSpot.Some?
    ensures Step(Step(s, Edit(a)).next, Edit(b)).next == Step(s, Edit(b)).next
    ensures Step(s, Edit(b)).next == State(s.spots, s.newSpot, b)
  {
  }

  /** Save with an empty description does nothing at all, even with a draft
      open. */
  lemma EmptySaveIsNoOp(s: State)
    requires s.newSpot.Some?
    requires s.description == ""
    ensures Step(s, Submit) == Reaction(s, Quiet)
  {
  }

  /** Save with a non-empty description appends exactly one spot, at the
      end, carrying the draft's coordinate and the description, keeps every
      earlier spot in place and order, closes the draft and empties the
      box. */
  lemma SaveAppendsOne(s: State)
    requires s.newSpot.Some?
    requires Truthy(s.description)
    ensures var t := Step(s, Submit).next;
            && t.spots == s.spots + [Spot(s.newSpot.value.lat, s.newSpot.value.lng, s.description)]
            && t.newSpot == None
            && t.description == ""
  {
    var t := Step(s, Submit).next;
    assert t.spots == t.spots[..|s.spots|] + [t.spots[|s.spots|]];
  }

  /** Truthiness is not trimming: a description made only of spaces, as
      long as it is not empty, is saved exactly as typed. */
  lemma WhitespaceIsSaved(s: State)
    requires s.newSpot.Some?
    requires |s.description| > 0
    requires forall k :: 0 <= k < |s.description| ==> s.description[k] == ' '
    ensures Step(s, Submit).next.spots == s.spots + [Spot(s.newSpot.value.lat, s.newSpot.value.lng, s.description)]
  {
    SaveAppendsOne(s);
  }

  /** With a draft open, the handler itself never reaches its null read;
      without one, Save with text would fail on it. */
  lemma SaveNeverFaultsWhenEnabled(s: State)
    ensures Enabled(s, Submit) ==> HandleSubmit(s).Success?
    ensures s.newSpot.None? && Truthy(s.description) ==> HandleSubmit(s) == Failure(NullDraft)
  {
  }

  /** Cancel closes the draft but keeps the typed text, so the next accepted
      click opens a draft that already shows the old description; Cancel a
      second time has nothing left to do. */
  lemma CancelKeepsText(s: State, p: LatLng)
    requires s.newSpot.Some?
    requires Contains(Region, p)
    ensures Step(s, Cancel).next == State(s.spots, None, s.description)
    ensures Admissible(s, [Cancel, Click(p)])
    ensures Run(s, [Cancel, Click(p)]) == State(s.spots, Some(Draft(p.lat, p.lng)), s.description)
  {
    var c := Step(s, Cancel).next;
    assert [Cancel, Click(p)][1..] == [Click(p)];
    assert [Click(p)][1..] == [];
    assert Run(c, [Click(p)]) == Run(Step(c, Click(p)).next, []);
  }

  /** An example session: click inside at (29.65, -82.34), type "quiet
      bench", press Save. Exactly one spot is saved with that coordinate and
      text, the draft is closed and no alert was shown. */
  lemma QuietBenchSession()
    ensures var evs := [Click(LatLng(29.65, -82.34)), Edit("quiet bench"), Submit];
            && Admissible(Init, evs)
            && Run(Init, evs) == State([Spot(29.65, -82.34, "quiet bench")], None, "")
            && OutsideClicks(evs) == 0
  {
    var evs := [Click(LatLng(29.65, -82.34)), Edit("quiet bench"), Submit];
    RegionMembership(LatLng(29.65, -82.34));
    var s1 := Step(Init, evs[0]).next;
    var s2 := Step(s1, evs[1]).next;
    var s3 := Step(s2, evs[2]).next;
    assert s3 == State([Spot(29.65, -82.34, "quiet bench")], None, "");
    assert evs[1..] == [Edit("quiet bench"), Submit];
    assert evs[1..][1..] == [Submit];
    assert evs[1..][1..][1..] == [];
    assert Run(s2, [Submit]) == s3;
  }

  /** An example rejected session: a click at (30.0, -82.0) is outside the
      region, so no draft opens, nothing is saved and one alert is shown. */
  lemma OutsideClickSession(s: State)
    ensures Admissible(s, [Click(LatLng(30.0, -82.0))])
    ensures Run(s, [Click(LatLng(30.0, -82.0))]) == s
    ensures OutsideClicks([Click(LatLng(30.0, -82.0))]) == 1
  {
    RegionMembership(LatLng(30.0, -82.0));
    assert [Click(LatLng(30.0, -82.0))][1..] == [];
  }
}
