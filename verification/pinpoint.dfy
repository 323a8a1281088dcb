/** The application's draft-spot state machine: the list of saved spots, the
    single draft the popup edits, and the text in its description box, with
    one pure transition per event handler. Rendering, the map widget and the
    popup's screen position are not modelled. */
module Pinpoint {
  import opened Wrappers
  import opened Geofence

  /** A saved spot, as the submit handler builds it. */
  datatype Spot = Spot(lat: real, lng: real, description: string)

  /** The draft pinpoint: the clicked coordinate. (The popup's screen anchor
      it also carries is layout only.) */
  datatype Draft = Draft(lat: real, lng: real)

  /** The three pieces of component state. `newSpot == None` means no draft
      and no popup. */
  datatype State = State(spots: seq<Spot>, newSpot: Option<Draft>, description: string)

  /** What the user can do: click the map, type in the description box,
      press Save, press Cancel. */
  datatype Event = Click(at: LatLng) | Edit(text: string) | Submit | Cancel

  /** The visible side effect a transition may have besides the new state. */
  datatype Notice = Quiet | Alert(message: string)

  /** The new state together with any notice shown to the user. */
  datatype Reaction = Reaction(next: State, notice: Notice)

  /** What the submit handler would hit if it ran with no draft: reading a
      field of `null`. */
  datatype Fault = NullDraft

  const RejectionMessage: string := "You can only place a pinpoint within Gainesville city boundaries."

  /** The state of a freshly mounted component. */
  const Init: State := State([], None, "")

  /** JavaScript truthiness of a string: only the empty string is falsy.
      Whitespace counts as content. */
  predicate Truthy(text: string)
  {
    text != ""
  }

  /** The map click handler: an accepted click sets or replaces the draft at
      the clicked coordinate; a rejected click changes nothing and raises the
      boundary alert. */
  function HandleClick(s: State, at: LatLng): (r: Reaction)
    ensures Contains(Region, at) ==>
              && r.next.newSpot == Some(Draft(at.lat, at.lng))
              && r.next.spots == s.spots
              && r.next.description == s.description
              && r.notice == Quiet
    ensures !Contains(Region, at) ==> r.next == s && r.notice == Alert(RejectionMessage)
  {
    if Contains(Region, at) then
      Reaction(s.(newSpot := Some(Draft(at.lat, at.lng))), Quiet)
    else
      Reaction(s, Alert(RejectionMessage))
  }

  /** The description box's change handler: the text replaces the
      description and nothing else changes. */
  function HandleDescriptionChange(s: State, text: string): (r: State)
    ensures r.description == text
    ensures r.spots == s.spots && r.newSpot == s.newSpot
  {
    s.(description := text)
  }

  /** The Save handler. An empty description makes it do nothing. Otherwise
      it appends one spot carrying the draft's coordinate and the current
      description, clears the draft and empties the description; with no
      draft the field read fails. */
  function HandleSubmit(s: State): (r: Result<State, Fault>)
    ensures r.Failure? <==> Truthy(s.description) && s.newSpot.None?
    ensures !Truthy(s.description) ==> r == Success(s)
    ensures Truthy(s.description) && r.Success? ==>
              && s.newSpot.Some?
              && |r.value.spots| == |s.spots| + 1
              && r.value.spots[..|s.spots|] == s.spots
              && r.value.spots[|s.spots|] == Spot(s.newSpot.value.lat, s.newSpot.value.lng, s.description)
              && r.value.newSpot == None
              && r.value.description == ""
  {
    if !Truthy(s.description) then
      Success(s)
    else
      match s.newSpot
      case None => Failure(NullDraft)
      case Some(d) => Success(State(s.spots + [Spot(d.lat, d.lng, s.description)], None, ""))
  }

  /** The Cancel button: the draft goes away; the saved spots and the text
      in the description box stay as they were. */
  function HandleCancel(s: State): (r: State)
    ensures r.newSpot == None
    ensures r.spots == s.spots && r.description == s.description
  {
    s.(newSpot := None)
  }

  /** Which events the rendered page can deliver in a state. The map is
      always there to be clicked; the description box and both buttons live
      in the popup, which is rendered only while there is a draft. */
  predicate Enabled(s: State, e: Event)
  {
    e.Click? || s.newSpot.Some?
  }

  /** One event, dispatched to its handler. */
  function Step(s: State, e: Event): (r: Reaction)
    requires Enabled(s, e)
    ensures !e.Click? ==> r.notice == Quiet
    ensures e.Submit? && Truthy(s.description) ==> |r.next.spots| == |s.spots| + 1
  {
    match e
    case Click(at) => HandleClick(s, at)
    case Edit(text) => Reaction(HandleDescriptionChange(s, text), Quiet)
    case Submit => Reaction(HandleSubmit(s).value, Quiet)
    case Cancel => Reaction(HandleCancel(s), Quiet)
  }

  /** Every saved spot lies in the region and has a non-empty description. */
  predicate Committable(spot: Spot)
  {
    Contains(Region, LatLng(spot.lat, spot.lng)) && Truthy(spot.description)
  }

  /** The state invariant the handlers keep: every saved spot is
      committable and a draft, if any, lies in the region. */
  predicate Valid(s: State)
  {
    && (forall k :: 0 <= k < |s.spots| ==> Committable(s.spots[k]))
    && (s.newSpot.Some? ==> Contains(Region, LatLng(s.newSpot.value.lat, s.newSpot.value.lng)))
  }

  /** The fresh component satisfies the invariant. */
  lemma InitValid()
    ensures Valid(Init)
  {
  }

  /** Every enabled event preserves the invariant: nothing outside the
      region and nothing with an empty description is ever saved. */
  lemma StepPreservesValid(s: State, e: Event)
    requires Enabled(s, e)
    requires Valid(s)
    ensures Valid(Step(s, e).next)
  {
    if e.Submit? && Truthy(s.description) {
      var t := Step(s, e).next;
      forall k | 0 <= k < |t.spots|
        ensures Committable(t.spots[k])
      {
        if k < |s.spots| {
          assert t.spots[k] == t.spots[..|s.spots|][k];
        }
      }
    }
  }
}
