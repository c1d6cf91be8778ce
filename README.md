# People counter: detection filter and occupancy counter

This project models the analytics core of a people-counting script, `main_v1.py`.
For each video frame the script runs an SSD-style person detector. It counts the
confident person detections and draws a rectangle around each one. It then keeps
three occupancy figures and publishes them over MQTT:

- the current count;
- a running total;
- after a drop in the count, how long people stayed.

The model covers the following parts:

- **Detection filter** (`draw_boxes`, module `Detection`, `detection.dfy`).
  - The detector's output rows are records with an integer class id and real-valued confidence and corners.
  - A row is accepted when its class id is 1 and its confidence is at least 0.2.
  - `DrawBoxes` is the loop. It increments a counter and appends a rectangle to a `Frame` object for each accepted row.
  - It is proved against the specification functions `Accepted` (the accepted rows in order) and `Boxes` (their rectangles).
  - The corners are `int(coord * size)`. Python's truncation toward zero is written out in `Conversions.Trunc`.
- **Label lookup** (`get_class_names`, module `Classes`, `classes.dfy`).
  - This is a loop over the class numbers that indexes the one-entry table `CLASSES` with Python's indexing rules.
  - A number whose index is out of range gives an `IndexError` result instead of a list.
- **Occupancy counter** (the update block of `infer_on_stream`, module `Occupancy`, `occupancy.dfy`).
  - The class `Tracker` holds `last_count`, `total_count` and `start_time`.
  - `Update(current, now)` mirrors the code statement by statement and returns the messages it publishes, in order.
  - It is proved against the value-level function `Step`. The lemmas state what one step does in each case.
- **Frame loop** (`infer_on_stream` without its I/O, module `Stream`, `stream.dfy`).
  - Each frame carries the key pressed, the status of `plugin.wait()`, the detector output and the clock.
  - Only a frame whose wait returned 0 is counted and updates the tracker.
  - ESC ends the loop after the current frame.
  - `InferOnStream` runs `DrawBoxes` and `Tracker.Update` in a loop. It is proved to publish exactly what the specification function `Run` publishes.

The arithmetic is the code's. In the entry branch, `last_count` is raised by one
before `total_count = total_count + current_count - last_count`. So an increase
from `last` to `current` adds `current - last - 1` to the total: 0 -> 1 adds
nothing and 0 -> 3 adds 2. A counter of this kind would be expected to grow the
total by the full increase, clear the entry time when people leave, and publish
one duration per occupancy episode. The code does none of these:

- `start_time` is never cleared;
- every decrease of the count, not only a drop to zero, publishes a duration measured from the latest increase.

As expected, a repeated count of 0 publishes nothing but the status message, because it is not a decrease.

The model follows the code. `FirstEntries`, `ScenarioStaggeredArrival` and `ScenarioGradualDeparture` show the differences on concrete counts.

The code reads `start_time` in the duration branch before any assignment is
guaranteed. `Occupancy.Inv` (a positive `last_count` implies `start_time` is bound) is what makes this read safe:

- it holds initially;
- `Step` preserves it;
- `Step` may read `start_time` only under it.

Timestamps are integers supplied by the caller, so the duration `int(time.time() - start_time)` is the difference `now - start`.

## Model

| member | source | states |
|---|---|---|
| `Conversions.Trunc` | main_v1.py:100-103 | `int()` on a float truncates toward zero: for x >= 0 the result is the largest integer not above x, for x < 0 the smallest integer not below x |
| `Detection.Accepts` | main_v1.py:98 | definition of the test a row must pass (class id 1 and confidence at least the threshold); what it means for the count is stated by `Accepted`, `AcceptedAreThePassingRows` and `CountIsAcceptedPositions` |
| `Detection.Accepted` | main_v1.py:93-99 | the rows that pass `conf >= threshold and obj == 1`; never more of them than there are rows |
| `Detection.Boxes` | main_v1.py:100-104 | exactly one rectangle per accepted row |
| `Detection.DrawBoxes` | main_v1.py:89-107 | the returned counter is the number of accepted rows at threshold 0.2; the frame gains the rectangles of the accepted rows, in row order, after those already drawn; `args` plays no part |
| `Detection.AcceptedAppend` | main_v1.py:94-99 | the filter keeps row order: filtering a concatenation concatenates the filtered parts |
| `Detection.AcceptedAreThePassingRows` | main_v1.py:96-98 | a row is among the accepted rows exactly when it occurs in the input and passes the test; the accepted rows are a sub-multiset of the input, and each passing row is kept exactly as often as it occurs |
| `Detection.CountIsAcceptedPositions` | main_v1.py:93-99 | the count equals the number of row positions whose row has class id 1 and enough confidence |
| `Detection.CountIgnoresOrder` | main_v1.py:93-99 | any reordering of the rows gives the same count |
| `Detection.CountFallsWithThreshold` | main_v1.py:98 | raising the confidence threshold never raises the count |
| `Detection.BoxesFollowRows` | main_v1.py:100-104 | the k-th rectangle is the k-th accepted row's corners scaled by width and height and truncated |
| `Detection.Scale` | main_v1.py:100-103 | the scaled coordinate is truncated toward zero: down for a non-negative product, up for a negative one; a coordinate in [0, 1] lands in [0, size] |
| `Detection.ToRect` | main_v1.py:100-104 | each corner is its scaled value truncated toward zero, so nothing is clipped on either side (a corner at 1.0 of a 300-pixel width gives 300, one at -0.005 gives -1); normalised corners give a rectangle within [0, width] x [0, height] |
| `Classes.Lookup` | main_v1.py:86 | Python indexing of the label table succeeds exactly for indices from `-len(CLASSES)` to `len(CLASSES) - 1`, and then yields an entry of the table |
| `Classes.LookupInRange` | main_v1.py:36 | with `CLASSES == ['person']` only the indices 0 and -1 are in range, both naming "person" |
| `Classes.ClassNumberAccepted` | main_v1.py:86 | `CLASSES[int(i)]` succeeds exactly for numbers strictly between -2 and 1 |
| `Classes.GetClassNames` | main_v1.py:83-87 | success exactly when every number's index is in range; then one label per number, in order; otherwise the error names the first number out of range |
| `Occupancy.Inv` | main_v1.py:187-194 | definition of the invariant that a positive last count has a bound start time; that it holds initially, is kept and makes the duration read safe is stated by `Tracker.constructor` (initially), `Step` and `Tracker.Update` (kept) and `StepOnDecrease` (the read) |
| `Occupancy.Step` | main_v1.py:187-198 | one frame keeps the invariant that a positive last count has a start time; afterwards `last_count` is the current count, the total has not decreased, and the last message is the status `{count, total}` with the new total |
| `Occupancy.StepOnIncrease` | main_v1.py:187-191 | on an increase the start time becomes now, the total grows by `current - last - 1`, and the entry message with the new total precedes the status message |
| `Occupancy.StepOnDecrease` | main_v1.py:193-197 | on every decrease the start time is bound, a duration measured from it is published before the status, and total and start time are kept |
| `Occupancy.StepOnSameCount` | main_v1.py:187-198 | an unchanged count publishes only the status message and leaves the state unchanged |
| `Occupancy.BranchesExclusive` | main_v1.py:187-193 | no frame publishes both an entry and a duration message |
| `Occupancy.FirstEntries` | main_v1.py:187-190 | from the initial state one arrival leaves the total at 0 and three arrivals make it 2 |
| `Occupancy.ScenarioStaggeredArrival` | main_v1.py:187-198 | counts 0, 1, 3, 3, 0 publish totals 0, 0, 1, 1, 1 and a duration measured from the second entry |
| `Occupancy.ScenarioGradualDeparture` | main_v1.py:187-198 | counts 0, 2, 2, 1, 0 publish one entry with total 1 and a duration at each of the two decreases |
| `Occupancy.Tracker.constructor` | main_v1.py:132-133 | the counter starts with both counts 0 and no start time |
| `Occupancy.Tracker.Update` | main_v1.py:187-198 | the in-place update yields exactly the state and messages of `Step` from the old state; the invariant is kept and the total does not decrease |
| `Stream.FrameStep` | main_v1.py:158-198 | one turn of the loop keeps the invariant and never lowers the total |
| `Stream.FailedWaitChangesNothing` | main_v1.py:158 | a frame whose wait did not return 0 publishes nothing and changes no state |
| `Stream.Run` | main_v1.py:135-205 | over any stream of frames the invariant holds throughout and the final total is at least the starting one |
| `Stream.InferOnStream` | main_v1.py:119-205 | the frame loop publishes exactly the messages of `Run` from the initial state, stopping after a frame read with ESC pressed |
| `Stream.StepTotals` | main_v1.py:187-198 | one update publishes the new total twice after an entry (entry message, then status) and once otherwise |
| `Stream.FrameTotals` | main_v1.py:190-197 | every total one frame publishes equals the new total, which is at least the old one, so the published totals are sorted and within those bounds |
| `Stream.PublishedTotalsNeverDecrease` | main_v1.py:187-198 | the totals published over a whole stream form a non-decreasing sequence between the starting and the final total |

## Left out

- Video capture, resizing, transposing and reshaping the frame, `cv2.putText`, `cv2.waitKey` as a device, and writing frames to stdout (main_v1.py:128-149, 170-172, 202-203). The key and the frames are inputs of `InferOnStream`.
- The stale or unbound `out_frame` written after a failed wait (main_v1.py:202). The model keeps only the fact that the occupancy state and the messages are untouched. When a wait fails before any wait has succeeded, `out_frame` is unbound, the write raises `UnboundLocalError` and the program publishes nothing more. `Run` and `InferOnStream` instead carry on with the next frame, so "publishes exactly the messages of `Run`" holds only for streams where that does not happen.
- The MQTT client (connect, publish, disconnect) and the host name lookup (main_v1.py:41-45, 77-81, 215). A publish is an `Event` appended to the result, and its JSON payload is the event's fields.
- The inference engine (`Network`, `load_model`, `exec_net`, `wait`, `get_output`). The wait status and the output rows are inputs.
- Argument parsing (`build_argparser`, `main`). `args` is a record holding `prob_threshold`, the only field read outside the left-out I/O, which `draw_boxes` and `infer_on_stream` ignore. The fields `model`, `device` and `input` (main_v1.py:124, 128) feed only the inference engine and the capture.
- Floating point. Confidences and corners are reals, `int()` is exact truncation, and timestamps are integers, so the duration is an exact difference.
- The colour and thickness of the rectangles drawn. A `Frame` records only the corners of each rectangle, in drawing order.
- The detector output's fixed shape of 100 rows. Any number of rows is allowed, and no malformed-tensor error exists in the code.
- The other scripts of the repository, `main_v3.py` and `inference_v3.py`, which do not form a working program. The 0.4 threshold of `main_v3.py` is covered by the threshold parameter of `Detection.Accepted`.
