/** The frame loop of `infer_on_stream`: for every frame read from the
    capture it waits for the inference, and only when the wait reports
    success does it count the persons with `draw_boxes` and run the
    occupancy update; a press of ESC ends the loop after that frame. */
module Stream {
  import opened Detection
  import opened Occupancy

  /** Key code `cv2.waitKey` reports for ESC. */
  const Escape: int := 27

  /** What the loop meets for one frame: the key pressed while it waited,
      the status `plugin.wait()` returned, the detector's output rows and the
      clock at the update. */
  datatype Captured = Captured(key: int, waitStatus: int, result: seq<Row>, now: int)

  /** One turn of the loop on the occupancy state. A frame whose wait did
      not return 0 publishes nothing and leaves the state as it was. */
  function FrameStep(s: State, f: Captured): (r: Reaction)
    requires Inv(s)
    ensures Inv(r.state) && s.totalCount <= r.state.totalCount
  {
    if f.waitStatus == 0 then Step(s, |Accepted(f.result, MinConfidence)|, f.now)
    else Reaction(s, [])
  }

  /** The loop over the frames of the stream, from state `s`: it stops at
      the end of the stream or after the first frame read with ESC pressed. */
  function Run(s: State, frames: seq<Captured>): (r: Reaction)
    requires Inv(s)
    ensures Inv(r.state)
    ensures s.totalCount <= r.state.totalCount
    decreases |frames|
  {
    if frames == [] then Reaction(s, [])
    else
      var first := FrameStep(s, frames[0]);
      if frames[0].key == Escape then first
      else
        var rest := Run(first.state, frames[1..]);
        Reaction(rest.state, first.events + rest.events)
  }

  /** `infer_on_stream` without its I/O: the messages it publishes for a
      stream of frames, with `draw_boxes` given the network's input size. */
  method InferOnStream(args: Args, netWidth: int, netHeight: int, frames: seq<Captured>)
    returns (published: seq<Event>)
    ensures published == Run(Initial, frames).events
  {
    var probThreshold := args.probThreshold;  // read and never used
    var tracker := new Tracker();
    ghost var state := Initial;
    published := [];
    var i := 0;
    while i < |frames|
      invariant 0 <= i <= |frames|
      invariant Inv(state)
      invariant fresh(tracker) && tracker.Valid() && tracker.Snapshot() == state
      invariant Run(Initial, frames).events == published + Run(state, frames[i..]).events
    {
      var f := frames[i];
      ghost var step := FrameStep(state, f);
      ghost var later := if f.key == Escape then [] else Run(step.state, frames[i + 1..]).events;
      RunAdvance(frames, i, state);
      AppendAssociative(published, step.events, later);
      var events := [];
      if f.waitStatus == 0 {
        var image := new Frame();
        var currentCount := DrawBoxes(image, f.result, args, netWidth, netHeight);
        events := tracker.Update(currentCount, f.now);
      }
      assert events == step.events;
      published := published + events;
      state := step.state;
      if f.key == Escape {
        assert published + later == published;
        break;
      }
      i := i + 1;
    }
  }

  /** One turn of the loop: the messages of the rest of the stream are those
      of frame `i` followed, unless ESC was pressed, by those of the frames after it. */
  lemma RunAdvance(frames: seq<Captured>, i: nat, state: State)
    requires Inv(state) && i < |frames|
    ensures var step := FrameStep(state, frames[i]);
            Run(state, frames[i..]).events ==
              step.events + (if frames[i].key == Escape then [] else Run(step.state, frames[i + 1..]).events)
  {
    var step := FrameStep(state, frames[i]);
    RunFirst(state, frames[i..]);
    if frames[i].key == Escape {
      assert step.events + [] == step.events;
    } else {
      assert frames[i..][1..] == frames[i + 1..];
    }
  }

  lemma AppendAssociative(a: seq<Event>, b: seq<Event>, c: seq<Event>)
    ensures a + (b + c) == (a + b) + c
  {
  }

  /** `Run` on a non-empty stream: the first frame, then the rest unless ESC was pressed. */
  lemma RunFirst(s: State, frames: seq<Captured>)
    requires Inv(s) && frames != []
    ensures var first := FrameStep(s, frames[0]);
            Run(s, frames) ==
              if frames[0].key == Escape then first
              else Reaction(Run(first.state, frames[1..]).state,
                            first.events + Run(first.state, frames[1..]).events)
  {
  }

  // ----- What the loop promises ---------------------------------------------------

  /** A frame whose inference did not succeed changes nothing and publishes nothing. */
  lemma FailedWaitChangesNothing(s: State, f: Captured)
    requires Inv(s) && f.waitStatus != 0
    ensures FrameStep(s, f) == Reaction(s, [])
  {
  }

  /** The total one message carries, if any. */
  function TotalOf(e: Event): seq<nat> {
    match e
    case Entered(t) => [t]
    case Counted(_, t) => [t]
    case Stayed(_) => []
  }

  /** The totals the published messages carry, in publication order. */
  function Totals(events: seq<Event>): seq<nat> {
    if events == [] then []
    else TotalOf(events[0]) + Totals(events[1..])
  }

  lemma {:induction false} TotalsAppend(a: seq<Event>, b: seq<Event>)
    ensures Totals(a + b) == Totals(a) + Totals(b)
    decreases |a|
  {
    if a == [] {
      assert a + b == b;
    } else {
      var ab := a + b;
      assert ab[0] == a[0];
      assert ab[1..] == a[1..] + b;
      TotalsAppend(a[1..], b);
      calc {
        Totals(ab);
        TotalOf(a[0]) + Totals(a[1..] + b);
        TotalOf(a[0]) + (Totals(a[1..]) + Totals(b));
        (TotalOf(a[0]) + Totals(a[1..])) + Totals(b);
      }
    }
  }

  /** Sorted, and every element within `[lo, hi]`. */
  predicate SortedWithin(xs: seq<nat>, lo: nat, hi: nat) {
    (forall i, j :: 0 <= i < j < |xs| ==> xs[i] <= xs[j]) &&
    (forall i :: 0 <= i < |xs| ==> lo <= xs[i] <= hi)
  }

  /** Sorted runs joined at a common bound stay sorted. */
  lemma SortedWithinAppend(a: seq<nat>, b: seq<nat>, lo: nat, mid: nat, hi: nat)
    requires lo <= mid <= hi
    requires SortedWithin(a, lo, mid) && SortedWithin(b, mid, hi)
    ensures SortedWithin(a + b, lo, hi)
  {
  }

  /** The totals of one update: the new total twice after an entry, once otherwise. */
  lemma StepTotals(s: State, current: nat, now: int)
    requires Inv(s)
    ensures var r := Step(s, current, now);
            Totals(r.events) == if current > s.lastCount then [r.state.totalCount, r.state.totalCount]
                                else [r.state.totalCount]
  {
    var r := Step(s, current, now);
    var t := r.state.totalCount;
    var status := [Counted(current, t)];
    assert status[1..] == [];
    assert Totals(status) == [t];
    if current > s.lastCount {
      StepOnIncrease(s, current, now);
      assert r.events[1..] == status;
    } else if current < s.lastCount {
      StepOnDecrease(s, current, now);
      assert r.events[1..] == status;
    } else {
      StepOnSameCount(s, now);
    }
  }

  /** Every total one frame publishes is the new total. */
  lemma FrameTotals(s: State, f: Captured)
    requires Inv(s)
    ensures var r := FrameStep(s, f);
            SortedWithin(Totals(r.events), s.totalCount, r.state.totalCount)
    ensures var r := FrameStep(s, f);
            forall k :: 0 <= k < |Totals(r.events)| ==> Totals(r.events)[k] == r.state.totalCount
  {
    if f.waitStatus == 0 {
      StepTotals(s, |Accepted(f.result, MinConfidence)|, f.now);
    }
  }

  /** The totals the dashboard receives never go down over a whole stream,
      and stay between the starting and the final total. */
  lemma {:induction false} PublishedTotalsNeverDecrease(s: State, frames: seq<Captured>)
    requires Inv(s)
    ensures var r := Run(s, frames);
            SortedWithin(Totals(r.events), s.totalCount, r.state.totalCount)
    decreases |frames|
  {
    if frames != [] {
      var first := FrameStep(s, frames[0]);
      FrameTotals(s, frames[0]);
      if frames[0].key != Escape {
        var rest := Run(first.state, frames[1..]);
        PublishedTotalsNeverDecrease(first.state, frames[1..]);
        TotalsAppend(first.events, rest.events);
        SortedWithinAppend(Totals(first.events), Totals(rest.events),
                           s.totalCount, first.state.totalCount, rest.state.totalCount);
      }
    }
  }
}
