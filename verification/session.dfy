/** Sequences of user events applied to the component one after another, and
    what holds over a whole session: saved spots are append-only, the state
    invariant holds throughout, and the number of alerts equals the number of
    clicks outside the region. */
module Session {
  import opened Geofence
  import opened Pinpoint

  /** Every event of the sequence can be delivered by the page in the state
      the previous events leave behind. */
  predicate Admissible(s: State, evs: seq<Event>)
    decreases |evs|
  {
    |evs| == 0 || (Enabled(s, evs[0]) && Admissible(Step(s, evs[0]).next, evs[1..]))
  }

  /** The number of Save presses in a sequence of events. */
  function Submits(evs: seq<Event>): nat
  {
    if |evs| == 0 then 0 else (if evs[0].Submit? then 1 else 0) + Submits(evs[1..])
  }

  /** The number of map clicks outside the region in a sequence of events. */
  function OutsideClicks(evs: seq<Event>): nat
  {
    if |evs| == 0 then 0
    else (if evs[0].Click? && !Contains(Region, evs[0].at) then 1 else 0) + OutsideClicks(evs[1..])
  }

  /** The state after a sequence of events. The saved spots of the start
      state survive as a prefix, and at most one spot is added per Save
      press. */
  function Run(s: State, evs: seq<Event>): (r: State)
    requires Admissible(s, evs)
    ensures s.spots <= r.spots
    ensures |r.spots| <= |s.spots| + Submits(evs)
    decreases |evs|
  {
    if |evs| == 0 then s else Run(Step(s, evs[0]).next, evs[1..])
  }

  /** Running two event sequences back to back is running their
      concatenation, and the concatenation can be delivered exactly when the
      first can and the second can from where the first leaves off. */
  lemma {:induction false} RunSplit(s: State, a: seq<Event>, b: seq<Event>)
    ensures Admissible(s, a + b) <==> Admissible(s, a) && Admissible(Run(s, a), b)
    ensures Admissible(s, a + b) ==> Run(s, a + b) == Run(Run(s, a), b)
    decreases |a|
  {
    if |a| == 0 {
      assert a + b == b;
    } else {
      assert (a + b)[0] == a[0];
      assert (a + b)[1..] == a[1..] + b;
      if Enabled(s, a[0]) {
        RunSplit(Step(s, a[0]).next, a[1..], b);
      }
    }
  }

  /** Any prefix of a deliverable sequence is deliverable. */
  lemma PrefixAdmissible(s: State, evs: seq<Event>, i: nat)
    requires Admissible(s, evs)
    requires i <= |evs|
    ensures Admissible(s, evs[..i])
    ensures Admissible(Run(s, evs[..i]), evs[i..])
    ensures Run(s, evs) == Run(Run(s, evs[..i]), evs[i..])
  {
    assert evs == evs[..i] + evs[i..];
    RunSplit(s, evs[..i], evs[i..]);
  }

  /** Over a whole session the saved spots are append-only: the spots after
      any `i` events are a prefix of the spots after any later `j` events,
      so their number never decreases. */
  lemma AppendOnly(s: State, evs: seq<Event>, i: nat, j: nat)
    requires Admissible(s, evs)
    requires i <= j <= |evs|
    ensures Admissible(s, evs[..i]) && Admissible(s, evs[..j])
    ensures Run(s, evs[..i]).spots <= Run(s, evs[..j]).spots
    ensures |Run(s, evs[..i]).spots| <= |Run(s, evs[..j]).spots|
  {
    PrefixAdmissible(s, evs, j);
    var pre := evs[..j];
    assert pre[..i] == evs[..i];
    PrefixAdmissible(s, pre, i);
  }

  /** The invariant holds after every deliverable sequence of events from a
      state where it holds. */
  lemma {:induction false} RunPreservesValid(s: State, evs: seq<Event>)
    requires Admissible(s, evs)
    requires Valid(s)
    ensures Valid(Run(s, evs))
    decreases |evs|
  {
    if |evs| > 0 {
      StepPreservesValid(s, evs[0]);
      RunPreservesValid(Step(s, evs[0]).next, evs[1..]);
    }
  }

  /** The component's event loop from mount: handle the events in order and
      count the alerts shown. The final state is the one the events lead to,
      it satisfies the invariant, and exactly the clicks outside the region
      raised an alert. */
  method Replay(evs: seq<Event>) returns (t: State, alerts: nat)
    requires Admissible(Init, evs)
    ensures t == Run(Init, evs)
    ensures Valid(t)
    ensures alerts == OutsideClicks(evs)
  {
    t := Init;
    alerts := 0;
    InitValid();
    var i := 0;
    while i < |evs|
      invariant 0 <= i <= |evs|
      invariant Admissible(t, evs[i..])
      invariant Run(t, evs[i..]) == Run(Init, evs)
      invariant Valid(t)
      invariant alerts + OutsideClicks(evs[i..]) == OutsideClicks(evs)
    {
      assert evs[i..][1..] == evs[i + 1..];
      StepPreservesValid(t, evs[i]);
      var r := Step(t, evs[i]);
      if r.notice.Alert? {
        alerts := alerts + 1;
      }
      t := r.next;
      i := i + 1;
    }
    assert evs[i..] == [];
  }
}
