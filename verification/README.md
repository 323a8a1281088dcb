# Pinpoint drafts on a geofenced map — a Dafny model

This project models the client-side core of the "Somewhere Else" map app, which
lets a user drop a pinpoint ("spot") with a description on a map of Gainesville.
It has four parts.

- **The geofence** (`geofence.dfy`, module `Geofence`). The permitted region is
  a fixed latitude/longitude rectangle. Its south-west corner is written
  (29.5827, -82.6527) and its north-east corner (29.7075, -82.2812). The
  region is built the way the mapping library builds bounds from an array of two
  corners: it starts at the first corner and extends by the second, taking the
  minimum and maximum on each axis. A click is accepted only when the region
  contains it.
- **The draft state machine** (`pinpoint.dfy`, module `Pinpoint`). The
  component state is the triple (saved `spots`, optional draft `newSpot`,
  `description` text). There is one pure transition per handler: map click,
  description change, Save, Cancel. `Step` dispatches an `Event` to its handler,
  and `Enabled` says which events the page can deliver. `Valid` is the invariant
  the handlers keep: every saved spot lies inside the region and has a non-empty
  description, and any open draft lies inside the region.
- **Sessions** (`session.dfy`, module `Session`). `Run` applies a sequence of
  events, and `Replay` is the same event loop written as a method that also counts
  the alerts shown. Lemmas show that saved spots are append-only over a session
  and that the invariant holds throughout.
- **Relational properties and example sessions** (`properties.dfy`, module
  `PinpointProperties`).

`wrappers.dfy` holds the `Option` and `Result` datatypes the other modules use.

Assumptions about the mapping library, whose code is not part of this model:
- `contains` on a single point is a closed-interval test on both axes, with no
  wrap-around at the antimeridian.
- The bounds constructor extends by each corner in turn, using `min` and `max`.

Coordinates are reals. Clicks arrive as IEEE 754 doubles, and every double is
an exact real, so comparing them as reals gives the page's answer. The corner
constants are not the decimal literals but the doubles the program holds for
them, written out exactly (`SouthLat`, `WestLng`, `NorthLat`, `EastLng`). The
double for 29.5827 lies just below it and the double for -82.2812 just above
it, so a click exactly on either of those doubles is accepted, by the page and
by the model (`RegionEdges`). A map click never yields NaN.

Handlers see the state of the last render, and events are handled one after
another. That is how React state setters behave within one handler.

A new draft keeps the text already in the box. That text survives Cancel and a
replacing click (`CancelKeepsText`, `ClickPlacesDraft`). Save only appends to
the in-memory list. Its only failure is the null read at src/App.js:60, and the
page cannot reach it, because Save is rendered only while a draft exists
(`SaveNeverFaultsWhenEnabled`).

## Model

| member | source | states |
|---|---|---|
| Geofence.Around | src/App.js:23 | the bounds the library starts from hold exactly the one point they were created at |
| Geofence.Extend | src/App.js:23 | the extended bounds contain exactly the points between the minimum and maximum of the old corners and the new point on each axis, so the point is added and every old point kept, and ordered corners stay ordered |
| Geofence.FromCorners | src/App.js:18-23 | bounds built from two corners, in either order, have ordered corners and contain exactly the points lying between the two corners on both axes |
| Geofence.RegionCorners | src/App.js:18-23 | the region's corners are the two listed corners unchanged, and south-west ≤ north-east on both axes |
| Geofence.StoredCornersNearLiterals | src/App.js:18-21 | each stored corner double is within 10^-14 of its decimal literal; the south and east ones lie just outside the decimal rectangle, the north and west ones just inside |
| Geofence.RegionMembership | src/App.js:18-23 | a point is inside the region iff its latitude lies between the stored doubles of 29.5827 and 29.7075 and its longitude between those of -82.6527 and -82.2812, closed at both ends |
| Geofence.RegionEdges | src/App.js:18-23 | corners and points on every edge are accepted, including the south and east edge doubles outside the decimal literals; points 0.0001° beyond each edge are rejected |
| Pinpoint.HandleClick | src/App.js:32-46 | an in-region click sets or replaces the draft at exactly the clicked coordinate and keeps spots and description; an out-of-region click changes nothing and raises the boundary alert |
| Pinpoint.HandleDescriptionChange | src/App.js:52-54 | the new text becomes the description; spots and draft are untouched |
| Pinpoint.HandleSubmit | src/App.js:56-65 | an empty description gives the unchanged state; otherwise one spot with the draft's coordinate and the description is appended after the unchanged old spots, the draft is cleared and the description emptied; it fails exactly when there is text but no draft (the null read at line 60) |
| Pinpoint.HandleCancel | src/App.js:109 | the draft is cleared; spots and description are kept |
| Pinpoint.Step | src/App.js:87-113 | only a click can raise a notice; Save with text grows the spot list by one |
| Pinpoint.InitValid | src/App.js:26-28 | the freshly mounted state (no spots, no draft, empty text) satisfies the invariant |
| Pinpoint.StepPreservesValid | src/App.js:34-63 | every deliverable event keeps the invariant: saved spots and the draft lie in the region, and saved descriptions are non-empty |
| Session.Run | src/App.js:58-61 | after any deliverable event sequence the old spots are a prefix of the new ones, and at most one spot is added per Save press |
| Session.RunSplit | src/App.js:26-65 | running a concatenation is running its parts in turn, and the concatenation is deliverable iff both parts are in turn |
| Session.PrefixAdmissible | src/App.js:26-65 | every prefix of a deliverable sequence is deliverable, and the rest continues from where it leaves off |
| Session.AppendOnly | src/App.js:26 | over a session the spots after i events are a prefix of the spots after any j ≥ i events, so their count never decreases |
| Session.RunPreservesValid | src/App.js:34-63 | the invariant holds after every deliverable event sequence that starts from a valid state |
| Session.Replay | src/App.js:26-65 | the event loop from mount reaches the state `Run` defines, keeps the invariant, and shows exactly one alert per click outside the region |
| PinpointProperties.DraftLifecycle | src/App.js:34-63 | with no draft, one appears iff the event is an in-region click; with a draft, it disappears iff the event is Cancel or Save with a non-empty description |
| PinpointProperties.SpotsChangeOnlyOnSave | src/App.js:56-61 | the spot list changes iff the event is Save with a non-empty description |
| PinpointProperties.ClickPlacesDraft | src/App.js:34-43 | an in-region click leaves exactly (same spots, draft at the clicked coordinate, same description), whatever the previous draft was |
| PinpointProperties.ClickOutsideRejected | src/App.js:44-46 | an out-of-region click leaves spots, draft and description unchanged and shows the boundary alert |
| PinpointProperties.ClickReplacesDraft | src/App.js:36-43 | two in-region clicks leave the same state as the second alone |
| PinpointProperties.EditOverwrites | src/App.js:52-54 | two edits leave the same state as the second alone, and an edit changes only the description |
| PinpointProperties.EmptySaveIsNoOp | src/App.js:56-57 | Save with an empty description leaves the state unchanged and shows nothing |
| PinpointProperties.SaveAppendsOne | src/App.js:57-63 | Save with text leaves exactly old spots plus one spot (draft coordinate, description) at the end, no draft, and an empty description |
| PinpointProperties.WhitespaceIsSaved | src/App.js:57 | any non-empty description made only of spaces is truthy and is saved as written |
| PinpointProperties.SaveNeverFaultsWhenEnabled | src/App.js:60 | with the popup shown the handler never reads a missing draft; without a draft and with text it would |
| PinpointProperties.CancelKeepsText | src/App.js:109 | Cancel clears only the draft, and the next in-region click opens a draft that keeps the old description |
| PinpointProperties.QuietBenchSession | src/App.js:32-63 | click at (29.65, -82.34), type "quiet bench", Save: exactly that one spot is saved, the draft is closed, and no alert is shown |
| PinpointProperties.OutsideClickSession | src/App.js:44-46 | a click at (30.0, -82.0) leaves any state unchanged and counts as one alert |

## Left out

- Rendering is not modelled: JSX, the React hooks plumbing (`useState`, `useMapEvents`), the map container, tile layer and markers, and the default-icon patching (src/App.js:3-16, 67-85). They are UI over libraries whose code is not part of this model.
- The popup's screen position, taken from the click's `clientX`/`clientY` (src/App.js:39-42, 90-92), is not modelled. It is layout only, so `Draft` keeps just the coordinate.
- The `alert` call is modelled only as the `Alert` notice carrying its message text.
- The mapping library's `latLngBounds` and `contains` are modelled from their documented behaviour as assumptions. NaN coordinates are not modelled.
- The map tiles are fetched by the tile layer (src/App.js:75-78), which is part of the rendering left out above; the app makes no backend calls.
- Concurrency and timeouts are not modelled. Every handler is synchronous.
