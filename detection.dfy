/** The detection filter of the people counter: `draw_boxes` walks the rows
    of the network's `1x1x100x7` output, counts the rows that are confident
    detections of a person and draws one rectangle per counted row. */
module Detection {
  import opened Conversions

  /** One row of the output tensor: `[image_id, class_id, confidence,
      xmin, ymin, xmax, ymax]`, the corners normalised to the frame size. */
  datatype Row = Row(imageId: real, classId: int, confidence: real,
                     xMin: real, yMin: real, xMax: real, yMax: real)

  /** A rectangle in pixel coordinates, as handed to `cv2.rectangle`. */
  datatype Rect = Rect(xMin: int, yMin: int, xMax: int, yMax: int)

  /** The command-line options `draw_boxes` receives; it reads none of them. */
  datatype Args = Args(probThreshold: real)

  /** Class id of a person in the detector's label map. */
  const PersonClass: int := 1

  /** The confidence `draw_boxes` demands, fixed in the code. */
  const MinConfidence: real := 0.2

  /** A frame being annotated: the rectangles drawn onto it so far, in order. */
  class Frame {
    var rectangles: seq<Rect>

    constructor ()
      ensures rectangles == []
    {
      rectangles := [];
    }
  }

  /** The test a row must pass to be counted, for a given confidence threshold. */
  predicate Accepts(row: Row, threshold: real) {
    row.confidence >= threshold && row.classId == PersonClass
  }

  /** The accepted rows, in row order. */
  function Accepted(rows: seq<Row>, threshold: real): (r: seq<Row>)
    ensures |r| <= |rows|
  {
    if rows == [] then []
    else
      var init, last := rows[..|rows| - 1], rows[|rows| - 1];
      assert rows == init + [last];
      Accepted(init, threshold) + (if Accepts(last, threshold) then [last] else [])
  }

  /** Pixel rectangle of a row: every normalised coordinate is scaled by the
      frame's width or height and truncated with Python's `int()`, with no
      clipping: a non-negative corner becomes the largest integer not above
      its scaled value, and a row whose corners are normalised gives a
      rectangle inside the frame. */
  function ToRect(row: Row, width: int, height: int): (r: Rect)
    ensures IsScaled(r.xMin, row.xMin, width) && IsScaled(r.xMax, row.xMax, width)
    ensures IsScaled(r.yMin, row.yMin, height) && IsScaled(r.yMax, row.yMax, height)
    ensures 0 <= width && 0.0 <= row.xMin <= 1.0 ==> 0 <= r.xMin <= width
    ensures 0 <= width && 0.0 <= row.xMax <= 1.0 ==> 0 <= r.xMax <= width
    ensures 0 <= height && 0.0 <= row.yMin <= 1.0 ==> 0 <= r.yMin <= height
    ensures 0 <= height && 0.0 <= row.yMax <= 1.0 ==> 0 <= r.yMax <= height
  {
    Rect(Scale(row.xMin, width), Scale(row.yMin, height),
         Scale(row.xMax, width), Scale(row.yMax, height))
  }

  /** `p` is `c * size` truncated toward zero, with no clipping on either side:
      the largest integer not above a non-negative product, the smallest not
      below a negative one. */
  predicate IsScaled(p: int, c: real, size: int) {
    var x := c * size as real;
    (0.0 <= x ==> p as real <= x < p as real + 1.0) &&
    (x < 0.0 ==> p as real - 1.0 < x <= p as real)
  }

  /** `int(c * size)`: a normalised coordinate in pixels, which lies between
      0 and `size` when the coordinate lies between 0 and 1. */
  function Scale(c: real, size: int): (p: int)
    ensures 0.0 <= c * size as real ==> p as real <= c * size as real < p as real + 1.0
    ensures IsScaled(p, c, size)
    ensures 0.0 <= c <= 1.0 && 0 <= size ==> 0 <= p <= size
  {
    var p := Trunc(c * size as real);
    assert IsScaled(p, c, size);
    ScaledWithin(p, c, size);
    p
  }

  /** A truncated coordinate of [0, 1] lies in [0, size]. */
  lemma ScaledWithin(p: int, c: real, size: int)
    requires IsScaled(p, c, size)
    ensures 0.0 <= c <= 1.0 && 0 <= size ==> 0 <= p <= size
  {
    ProductWithin(c, size as real);
  }

  /** A product of non-negative numbers is non-negative, and a fraction in
      [0, 1] of a non-negative number is at most the number. */
  lemma ProductWithin(c: real, n: real)
    ensures 0.0 <= c && 0.0 <= n ==> 0.0 <= c * n
    ensures 0.0 <= c <= 1.0 && 0.0 <= n ==> c * n <= n
  {
    if 0.0 <= c <= 1.0 && 0.0 <= n {
      assert n - c * n == (1.0 - c) * n;
    }
  }

  /** The rectangles `draw_boxes` draws: one per accepted row, in row order. */
  function Boxes(rows: seq<Row>, width: int, height: int): (r: seq<Rect>)
    ensures |r| == |Accepted(rows, MinConfidence)|
  {
    if rows == [] then []
    else
      var init, last := rows[..|rows| - 1], rows[|rows| - 1];
      assert rows == init + [last];
      Boxes(init, width, height)
        + (if Accepts(last, MinConfidence) then [ToRect(last, width, height)] else [])
  }

  /** `draw_boxes`: counts the rows of class 1 with confidence at least 0.2
      and draws their rectangles on `frame`. `args` is accepted and ignored. */
  method DrawBoxes(frame: Frame, result: seq<Row>, args: Args, width: int, height: int)
    returns (counter: nat)
    modifies frame
    ensures counter == |Accepted(result, MinConfidence)|
    ensures frame.rectangles == old(frame.rectangles) + Boxes(result, width, height)
  {
    counter := 0;
    var i := 0;
    while i < |result|
      invariant 0 <= i <= |result|
      invariant counter == |Accepted(result[..i], MinConfidence)|
      invariant frame.rectangles == old(frame.rectangles) + Boxes(result[..i], width, height)
    {
      var box := result[i];
      assert result[..i + 1] == result[..i] + [box];
      AcceptedSnoc(result[..i], box, MinConfidence);
      BoxesSnoc(result[..i], box, width, height);
      var conf := box.confidence;
      var obj := box.classId;
      if conf >= MinConfidence && obj == PersonClass {
        counter := counter + 1;
        var xmin := Scale(box.xMin, width);
        var ymin := Scale(box.yMin, height);
        var xmax := Scale(box.xMax, width);
        var ymax := Scale(box.yMax, height);
        assert Rect(xmin, ymin, xmax, ymax) == ToRect(box, width, height);
        frame.rectangles := frame.rectangles + [Rect(xmin, ymin, xmax, ymax)];
      }
      i := i + 1;
    }
    assert result[..i] == result;
  }

  /** Filtering one more row appends it when it is accepted. */
  lemma AcceptedSnoc(rows: seq<Row>, x: Row, threshold: real)
    ensures Accepted(rows + [x], threshold) ==
            Accepted(rows, threshold) + (if Accepts(x, threshold) then [x] else [])
  {
    assert (rows + [x])[..|rows|] == rows;
  }

  /** Drawing one more row adds its rectangle at the end, if it is accepted. */
  lemma BoxesSnoc(rows: seq<Row>, x: Row, width: int, height: int)
    ensures Boxes(rows + [x], width, height) ==
            Boxes(rows, width, height) + (if Accepts(x, MinConfidence) then [ToRect(x, width, height)] else [])
  {
    assert (rows + [x])[..|rows|] == rows;
  }

  // ----- What the filter promises -------------------------------------------------

  /** Filtering a concatenation filters each part: the filter keeps row order. */
  lemma {:induction false} AcceptedAppend(a: seq<Row>, b: seq<Row>, threshold: real)
    ensures Accepted(a + b, threshold) == Accepted(a, threshold) + Accepted(b, threshold)
    decreases |b|
  {
    if b == [] {
      assert a + b == a;
    } else {
      var init, last := b[..|b| - 1], b[|b| - 1];
      assert (a + b)[..|a + b| - 1] == a + init;
      assert (a + b)[|a + b| - 1] == last;
      AcceptedAppend(a, init, threshold);
    }
  }

  /** The accepted rows are exactly the rows that pass the test, each kept as
      often as it occurs. */
  lemma {:induction false} AcceptedAreThePassingRows(rows: seq<Row>, threshold: real)
    ensures forall x :: x in Accepted(rows, threshold) <==> x in rows && Accepts(x, threshold)
    ensures multiset(Accepted(rows, threshold)) <= multiset(rows)
    ensures forall x :: multiset(Accepted(rows, threshold))[x] ==
                        if Accepts(x, threshold) then multiset(rows)[x] else 0
  {
    if rows != [] {
      var n := |rows| - 1;
      assert rows == rows[..n] + [rows[n]];
      AcceptedAreThePassingRows(rows[..n], threshold);
    }
  }

  /** The rows whose positions pass the test: an independent account of the count. */
  function AcceptedPositions(rows: seq<Row>, threshold: real): set<int> {
    set k | 0 <= k < |rows| && Accepts(rows[k], threshold)
  }

  /** The count is the number of positions holding a row of class 1 with
      enough confidence. */
  lemma {:induction false} CountIsAcceptedPositions(rows: seq<Row>, threshold: real)
    ensures |Accepted(rows, threshold)| == |AcceptedPositions(rows, threshold)|
  {
    if rows != [] {
      var n := |rows| - 1;
      var init := rows[..n];
      CountIsAcceptedPositions(init, threshold);
      var before := AcceptedPositions(init, threshold);
      var after := AcceptedPositions(rows, threshold);
      assert n !in before;
      if Accepts(rows[n], threshold) {
        assert after == before + {n};
      } else {
        assert after == before;
      }
    }
  }

  /** The count does not depend on the order of the rows. */
  lemma {:induction false} CountIgnoresOrder(rows: seq<Row>, other: seq<Row>, threshold: real)
    requires multiset(rows) == multiset(other)
    ensures |Accepted(rows, threshold)| == |Accepted(other, threshold)|
    decreases |rows|
  {
    if rows == [] {
      assert |other| == |multiset(other)| == 0;
    } else {
      var n := |rows| - 1;
      var x := rows[n];
      assert rows == rows[..n] + [x] + [];
      assert x in multiset(other);
      var j :| 0 <= j < |other| && other[j] == x;
      assert other == other[..j] + [x] + other[j + 1..];
      RemoveOne(rows[..n], x, [], threshold);
      RemoveOne(other[..j], x, other[j + 1..], threshold);
      assert rows[..n] + [] == rows[..n];
      CountIgnoresOrder(rows[..n], other[..j] + other[j + 1..], threshold);
    }
  }

  /** Taking one row out of a sequence takes it out of the multiset and,
      if it was accepted, one off the count. */
  lemma RemoveOne(a: seq<Row>, x: Row, b: seq<Row>, threshold: real)
    ensures multiset(a + b) == multiset(a + [x] + b) - multiset{x}
    ensures |Accepted(a + [x] + b, threshold)| ==
            |Accepted(a + b, threshold)| + (if Accepts(x, threshold) then 1 else 0)
  {
    assert multiset(a + [x] + b) == multiset(a) + multiset{x} + multiset(b);
    assert multiset(a + b) == multiset(a) + multiset(b);
    AcceptedAppend(a + [x], b, threshold);
    AcceptedAppend(a, [x], threshold);
    AcceptedAppend(a, b, threshold);
    assert [x][..0] == [];
  }

  /** Raising the confidence threshold never raises the count. */
  lemma {:induction false} CountFallsWithThreshold(rows: seq<Row>, low: real, high: real)
    requires low <= high
    ensures |Accepted(rows, high)| <= |Accepted(rows, low)|
  {
    if rows != [] {
      CountFallsWithThreshold(rows[..|rows| - 1], low, high);
    }
  }

  /** The k-th rectangle drawn is the k-th accepted row's, scaled and truncated. */
  lemma {:induction false} BoxesFollowRows(rows: seq<Row>, width: int, height: int, k: nat)
    requires k < |Accepted(rows, MinConfidence)|
    ensures Boxes(rows, width, height)[k] == ToRect(Accepted(rows, MinConfidence)[k], width, height)
  {
    var init := rows[..|rows| - 1];
    if k < |Accepted(init, MinConfidence)| {
      BoxesFollowRows(init, width, height, k);
    }
  }
}
