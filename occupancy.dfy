/** The occupancy counter of `infer_on_stream`: after every frame whose
    inference succeeded it compares the person count with the previous
    frame's, keeps a running total and the time of the latest entry, and
    publishes its messages in a fixed order. The arithmetic is the code's:
    `last_count` is raised by one before the total is updated. */
module Occupancy {
  import opened Wrappers

  /** A message published to the telemetry broker. */
  datatype Event =
    | Entered(total: nat)          // topic "person", payload {"total": total}
    | Stayed(duration: int)        // topic "person/duration", payload {"duration": duration}
    | Counted(count: nat, total: nat)  // topic "person", payload {"count": count, "total": total}

  /** `last_count`, `total_count` and `start_time` as values. */
  datatype State = State(lastCount: nat, totalCount: nat, startTime: Option<int>)

  /** The values at the start of the stream; `start_time` is not yet bound. */
  const Initial: State := State(0, 0, None)

  /** Every state the counter reaches: a positive `last_count` was set by a
      frame that took the entry branch, so `start_time` is bound. */
  predicate Inv(s: State) {
    s.lastCount > 0 ==> s.startTime.Some?
  }

  /** The new state and the messages of one frame. */
  datatype Reaction = Reaction(state: State, events: seq<Event>)

  /** One frame's update with `current` persons at time `now`, in the order
      the code runs it: the entry branch (which sets `start_time`, raises
      `last_count` by one and then adds `current - last_count` to the total),
      the duration branch (tested against the raised `last_count`), the
      status message, and finally `last_count = current`. */
  function Step(s: State, current: nat, now: int): (r: Reaction)
    requires Inv(s)
    ensures Inv(r.state)
    ensures r.state.lastCount == current
    ensures s.totalCount <= r.state.totalCount
    ensures |r.events| > 0 && r.events[|r.events| - 1] == Counted(current, r.state.totalCount)
  {
    var (last, total, start, entry) :=
      if current > s.lastCount then
        var last := s.lastCount + 1;
        var total := s.totalCount + current - last;
        (last, total, Some(now), [Entered(total)])
      else
        (s.lastCount, s.totalCount, s.startTime, []);
    var exit := if current < last then [Stayed(now - start.value)] else [];
    Reaction(State(current, total, start), entry + exit + [Counted(current, total)])
  }

  /** The entry branch: the total grows by `current - last - 1` (so 0 -> 1
      leaves it unchanged), `start_time` becomes `now`, and the entry message
      carrying the new total precedes the status message. */
  lemma StepOnIncrease(s: State, current: nat, now: int)
    requires Inv(s) && current > s.lastCount
    ensures var total := s.totalCount + current - s.lastCount - 1;
            Step(s, current, now) ==
              Reaction(State(current, total, Some(now)), [Entered(total), Counted(current, total)])
  {
  }

  /** The duration branch fires on every decrease, not only on a drop to zero,
      and measures the time since the latest entry; the total and
      `start_time` are kept. */
  lemma StepOnDecrease(s: State, current: nat, now: int)
    requires Inv(s) && current < s.lastCount
    ensures s.startTime.Some?
    ensures Step(s, current, now) ==
              Reaction(State(current, s.totalCount, s.startTime),
                       [Stayed(now - s.startTime.value), Counted(current, s.totalCount)])
  {
  }

  /** An unchanged count publishes only the status message and changes nothing. */
  lemma StepOnSameCount(s: State, now: int)
    requires Inv(s)
    ensures Step(s, s.lastCount, now) == Reaction(s, [Counted(s.lastCount, s.totalCount)])
  {
  }

  /** The entry and the duration messages never come out of the same frame. */
  lemma BranchesExclusive(s: State, current: nat, now: int)
    requires Inv(s)
    ensures var evs := Step(s, current, now).events;
            !exists i, j :: 0 <= i < |evs| && 0 <= j < |evs| && evs[i].Entered? && evs[j].Stayed?
  {
  }

  /** The arithmetic on the first entries of a stream: one person arriving
      leaves the total at 0, three arriving at once raise it to 2. */
  lemma FirstEntries(now: int)
    ensures Step(Initial, 1, now).state.totalCount == 0
    ensures Step(Initial, 3, now).state.totalCount == 2
  {
  }

  /** Counts 0, 1, 3, 3, 0 one second apart: the entry message after 0 -> 1
      carries total 0, the jump 1 -> 3 adds one, and the duration at the end
      runs from the latest entry (second 2), not the first. */
  lemma ScenarioStaggeredArrival()
    ensures var r1 := Step(Initial, 0, 0);
            var r2 := Step(r1.state, 1, 1);
            var r3 := Step(r2.state, 3, 2);
            var r4 := Step(r3.state, 3, 3);
            var r5 := Step(r4.state, 0, 4);
            r1.events == [Counted(0, 0)] &&
            r2.events == [Entered(0), Counted(1, 0)] &&
            r3.events == [Entered(1), Counted(3, 1)] &&
            r4.events == [Counted(3, 1)] &&
            r5.events == [Stayed(2), Counted(0, 1)]
  {
  }

  /** Counts 0, 2, 2, 1, 0 one second apart: both decreases publish a
      duration, each measured from the one entry at second 1. */
  lemma ScenarioGradualDeparture()
    ensures var r1 := Step(Initial, 0, 0);
            var r2 := Step(r1.state, 2, 1);
            var r3 := Step(r2.state, 2, 2);
            var r4 := Step(r3.state, 1, 3);
            var r5 := Step(r4.state, 0, 4);
            r2.events == [Entered(1), Counted(2, 1)] &&
            r3.events == [Counted(2, 1)] &&
            r4.events == [Stayed(2), Counted(1, 1)] &&
            r5.events == [Stayed(3), Counted(0, 1)] &&
            r5.state == State(0, 1, Some(1))
  {
  }

  /** The counter as it lives in the frame loop, with fields updated in place. */
  class Tracker {
    var lastCount: nat
    var totalCount: nat
    var startTime: Option<int>

    /** The fields as a value. */
    function Snapshot(): State
      reads this
    {
      State(lastCount, totalCount, startTime)
    }

    predicate Valid()
      reads this
    {
      Inv(Snapshot())
    }

    /** `last_count = 0`, `total_count = 0`, `start_time` unbound. */
    constructor ()
      ensures Valid() && Snapshot() == Initial
    {
      lastCount := 0;
      totalCount := 0;
      startTime := None;
    }

    /** One successful frame: the update block of `infer_on_stream`. */
    method Update(current: nat, now: int) returns (events: seq<Event>)
      requires Valid()
      modifies this
      ensures Valid()
      ensures Reaction(Snapshot(), events) == Step(old(Snapshot()), current, now)
      ensures lastCount == current && totalCount >= old(totalCount)
    {
      events := [];
      if current > lastCount {
        startTime := Some(now);
        lastCount := lastCount + 1;
        totalCount := totalCount + current - lastCount;
        events := events + [Entered(totalCount)];
      }
      if current < lastCount {
        var duration := now - startTime.value;
        events := events + [Stayed(duration)];
      }
      events := events + [Counted(current, totalCount)];
      lastCount := current;
    }
  }
}
