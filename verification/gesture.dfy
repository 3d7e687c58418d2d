/** The gesture classifier of the virtual steering wheel: from the wrist
    pixel points found in one camera frame to one motion command, plus the
    arrow drawn over the frame as feedback.

    Pixel coordinates follow the image convention: x grows to the right,
    y grows downwards. */
module Gesture {

  import opened Wrappers
  import opened Commands

  datatype Point = Point(x: int, y: int)

  /** Minimum vertical difference, in pixels, between the two wrists before
      a lean counts as a turn rather than forward motion. */
  const Deadband: int := 65

  /** Length, in pixels, of the feedback arrow. */
  const ArrowLength: int := 100

  // ---------------------------------------------------------------------
  // Wrist extraction
  // ---------------------------------------------------------------------

  /** The wrist points of one frame, in detection order. A hand whose wrist
      projects outside the frame has no pixel coordinate and is skipped. */
  function ExtractWrists(hands: seq<Option<Point>>): (co: seq<Point>)
    ensures |co| == OnScreen(hands)
    ensures forall p :: p in co <==> Some(p) in hands
    ensures |co| == |hands| <==> forall i :: 0 <= i < |hands| ==> hands[i].Some?
  {
    if |hands| == 0 then []
    else
      match hands[0]
      case None => ExtractWrists(hands[1..])
      case Some(p) => [p] + ExtractWrists(hands[1..])
  }

  /** How many of the detected hands have their wrist on screen. */
  function OnScreen(hands: seq<Option<Point>>): (n: nat)
    ensures n <= |hands|
    decreases |hands|
  {
    if |hands| == 0 then 0
    else (if hands[0].Some? then 1 else 0) + OnScreen(hands[1..])
  }

  /** Extraction works hand by hand, so it keeps detection order: the points
      of a concatenation are the points of the parts, concatenated. */
  lemma {:induction false} ExtractWristsAppend(a: seq<Option<Point>>, b: seq<Option<Point>>)
    ensures ExtractWrists(a + b) == ExtractWrists(a) + ExtractWrists(b)
    decreases |a|
  {
    if |a| == 0 {
      assert a + b == b;
    } else {
      assert (a + b)[1..] == a[1..] + b;
      ExtractWristsAppend(a[1..], b);
    }
  }

  /** When every hand is on screen, the points are exactly the hands'
      wrists, position by position. */
  lemma {:induction false} ExtractWristsAllPresent(hands: seq<Option<Point>>)
    requires forall i :: 0 <= i < |hands| ==> hands[i].Some?
    ensures |ExtractWrists(hands)| == |hands|
    ensures forall i :: 0 <= i < |hands| ==> ExtractWrists(hands)[i] == hands[i].value
    decreases |hands|
  {
    if |hands| > 0 {
      ExtractWristsAllPresent(hands[1..]);
    }
  }

  /** An on-screen hand's wrist lands in the extracted points right after
      the on-screen wrists of the hands detected before it. */
  lemma ExtractWristsIndex(hands: seq<Option<Point>>, i: nat)
    requires i < |hands| && hands[i].Some?
    ensures OnScreen(hands[..i]) < OnScreen(hands)
    ensures ExtractWrists(hands)[OnScreen(hands[..i])] == hands[i].value
  {
    var before, from := hands[..i], hands[i..];
    assert hands == before + from;
    ExtractWristsAppend(before, from);
    assert from[0] == hands[i];
    assert ExtractWrists(from) == [hands[i].value] + ExtractWrists(from[1..]);
  }

  /** Counting on-screen wrists is additive over concatenation. */
  lemma {:induction false} OnScreenAppend(a: seq<Option<Point>>, b: seq<Option<Point>>)
    ensures OnScreen(a + b) == OnScreen(a) + OnScreen(b)
    decreases |a|
  {
    if |a| > 0 {
      assert (a + b)[1..] == a[1..] + b;
      OnScreenAppend(a[1..], b);
    } else {
      assert a + b == b;
    }
  }

  /** With exactly two hands on screen, at detection positions i < j, the
      extracted points are those two wrists in detection order. */
  lemma ExtractWristsPair(hands: seq<Option<Point>>, i: nat, j: nat)
    requires i < j < |hands| && hands[i].Some? && hands[j].Some?
    requires OnScreen(hands) == 2
    ensures ExtractWrists(hands) == [hands[i].value, hands[j].value]
  {
    var ki, kj := OnScreen(hands[..i]), OnScreen(hands[..j]);
    assert ki < kj by {
      var mid := hands[i..j];
      assert hands[..j] == hands[..i] + mid;
      OnScreenAppend(hands[..i], mid);
      assert mid[0] == hands[i];
    }
    ExtractWristsIndex(hands, i);
    ExtractWristsIndex(hands, j);
    assert ki == 0 && kj == 1;
    var co := ExtractWrists(hands);
    assert |co| == 2;
    assert co == [co[0], co[1]];
  }

  // ---------------------------------------------------------------------
  // Classification
  // ---------------------------------------------------------------------

  /** Reference reading of the two-hand rules: look at the point that lies
      strictly further right. If it is lower than the other by more than the
      deadband the wheel leans left; if it is higher by more than the
      deadband the wheel leans right; otherwise (including two points in the
      same column) drive forward. */
  function Leaning(a: Point, b: Point): (r: Command)
    ensures r == Forward || r == Left || r == Right
  {
    if a.x == b.x then Forward
    else
      var right := if a.x > b.x then a else b;
      var other := if a.x > b.x then b else a;
      if right.y - other.y > Deadband then Left
      else if other.y - right.y > Deadband then Right
      else Forward
  }

  /** The four ordered two-hand rules, first match wins, FORWARD otherwise.
      p0 is the first detected hand and p1 the second. */
  function ClassifyPair(p0: Point, p1: Point): (r: Command)
    ensures r == Leaning(p0, p1)
    ensures r == Left <==>
      (p0.x > p1.x && p0.y - p1.y > Deadband) || (p1.x > p0.x && p1.y - p0.y > Deadband)
    ensures r == Right <==>
      (p0.x > p1.x && p1.y - p0.y > Deadband) || (p1.x > p0.x && p0.y - p1.y > Deadband)
    ensures r == Forward <==>
      p0.x == p1.x || (-Deadband <= p0.y - p1.y <= Deadband)
  {
    if p0.x > p1.x && p0.y > p1.y && p0.y - p1.y > Deadband then Left
    else if p1.x > p0.x && p1.y > p0.y && p1.y - p0.y > Deadband then Left
    else if p0.x > p1.x && p1.y > p0.y && p1.y - p0.y > Deadband then Right
    else if p1.x > p0.x && p0.y > p1.y && p0.y - p1.y > Deadband then Right
    else Forward
  }

  /** The command for one frame's wrist points: two points steer, one point
      backs up, and no point (or an unexpected number) stops. */
  function Classify(co: seq<Point>): (r: Command)
    ensures r == Backward <==> |co| == 1
    ensures r == Stop <==> |co| != 1 && |co| != 2
    ensures |co| == 2 ==> r == Leaning(co[0], co[1])
  {
    if |co| == 2 then ClassifyPair(co[0], co[1])
    else if |co| == 1 then Backward
    else Stop
  }

  /** Exactly one command per frame, and it never depends on which hand was
      detected first: rule 1 swaps into rule 2 and rule 3 into rule 4. */
  lemma ClassifyOrderIndependent(a: Point, b: Point)
    ensures Classify([a, b]) == Classify([b, a])
  {
  }

  /** More generally, the command depends only on the multiset of points,
      never on the order the hands were detected in. */
  lemma ClassifyPermutationInvariant(co: seq<Point>, co': seq<Point>)
    requires multiset(co) == multiset(co')
    ensures Classify(co) == Classify(co')
  {
    assert |co| == |multiset(co)| == |multiset(co')| == |co'|;
    if |co| == 2 {
      assert co == [co[0], co[1]];
      assert co' == [co'[0], co'[1]];
      assert co'[0] in multiset(co);
      assert co'[1] in multiset(co);
      if co'[0] == co[0] {
        assert multiset([co[1]]) == multiset(co) - multiset{co[0]};
        assert multiset([co'[1]]) == multiset(co') - multiset{co'[0]};
        assert co'[1] in multiset([co[1]]);
        assert co' == co;
      } else {
        assert co'[0] == co[1];
        assert multiset([co[0]]) == multiset(co) - multiset{co[1]};
        assert multiset([co'[1]]) == multiset(co') - multiset{co'[0]};
        assert co'[1] in multiset([co[0]]);
        assert co' == [co[1], co[0]];
        ClassifyOrderIndependent(co[0], co[1]);
      }
    }
  }

  /** Reflect a point about the vertical line x = w/2. With w = 0 this is
      plain negation of x; with w = W - 1 for a frame W pixels wide it is
      the left-right flip of the displayed image. */
  function Mirror(p: Point, w: int): (q: Point)
    ensures q.y == p.y && q.x + p.x == w
  {
    Point(w - p.x, p.y)
  }

  function MirrorAll(co: seq<Point>, w: int): (m: seq<Point>)
    ensures |m| == |co|
    ensures forall i :: 0 <= i < |co| ==> m[i] == Mirror(co[i], w)
  {
    seq(|co|, i requires 0 <= i < |co| => Mirror(co[i], w))
  }

  /** Mirroring every x coordinate swaps LEFT and RIGHT and leaves FORWARD,
      BACKWARD and STOP unchanged. */
  lemma MirrorSwapsTurns(co: seq<Point>, w: int)
    ensures Classify(MirrorAll(co, w)) == Opposite(Classify(co))
  {
  }

  /** Two points in the same pixel column always mean FORWARD, however far
      apart vertically. */
  lemma SameColumnIsForward(a: Point, b: Point)
    requires a.x == b.x
    ensures Classify([a, b]) == Forward
  {
  }

  /** The deadband is strict: with the second point to the right, a vertical
      difference of exactly 65 pixels is FORWARD and 66 pixels is a turn. */
  lemma DeadbandBoundary(a: Point, dx: int)
    requires dx > 0
    ensures Classify([a, Point(a.x + dx, a.y + Deadband)]) == Forward
    ensures Classify([a, Point(a.x + dx, a.y - Deadband)]) == Forward
    ensures Classify([a, Point(a.x + dx, a.y + Deadband + 1)]) == Left
    ensures Classify([a, Point(a.x + dx, a.y - Deadband - 1)]) == Right
  {
  }

  /** Worked examples: one hand backs up, no hand stops, and the second
      hand 100 pixels to the right and 80 pixels lower turns LEFT. */
  lemma ClassifyExamples()
    ensures Classify([Point(100, 100)]) == Backward
    ensures Classify([]) == Stop
    ensures Classify([Point(100, 100), Point(200, 180)]) == Left
    ensures Classify([Point(100, 100), Point(200, 180), Point(300, 300)]) == Stop
  {
  }

  // ---------------------------------------------------------------------
  // Rendering hints
  // ---------------------------------------------------------------------

  /** Python's int((a + b) / 2): float division, then truncation toward
      zero. */
  function Midpoint(a: int, b: int): (m: int)
    ensures a <= b ==> a <= m <= b
    ensures b <= a ==> b <= m <= a
    ensures -1 <= 2 * m - (a + b) <= 1
    ensures a + b >= 0 ==> 2 * m <= a + b
    ensures a + b <= 0 ==> 2 * m >= a + b
  {
    var s := a + b;
    if s >= 0 then s / 2 else -((-s) / 2)
  }

  /** Centre of the steering wheel drawn between two wrists. */
  function Center(p0: Point, p1: Point): Point
  {
    Point(Midpoint(p0.x, p1.x), Midpoint(p0.y, p1.y))
  }

  datatype Arrow = Arrow(tail: Point, head: Point)

  /** What the frame shows for its command: a caption and, unless stopping, an
      arrow. */
  datatype Hint = Hint(caption: string, arrow: Option<Arrow>)

  /** The feedback overlay of a frame. Two hands draw from the centre of the
      wheel: sideways for a turn, upwards for FORWARD; one hand draws
      downwards from its wrist; otherwise only the STOP caption. */
  function Render(co: seq<Point>): (h: Hint)
    ensures h.arrow.None? <==> Classify(co) == Stop
    ensures h.arrow.Some? ==> var t := h.arrow.value.tail; var d := h.arrow.value.head;
      match Classify(co)
      case Left => d == Point(t.x - ArrowLength, t.y)
      case Right => d == Point(t.x + ArrowLength, t.y)
      case Forward => d == Point(t.x, t.y - ArrowLength)
      case Backward => d == Point(t.x, t.y + ArrowLength) && t == co[0]
      case Stop => false
    ensures |co| == 2 ==> h.arrow.Some? && h.arrow.value.tail == Center(co[0], co[1])
  {
    if |co| == 2 then
      var c := Center(co[0], co[1]);
      match ClassifyPair(co[0], co[1])
      case Left => Hint("Turn Left", Some(Arrow(c, Point(c.x - ArrowLength, c.y))))
      case Right => Hint("Turn Right", Some(Arrow(c, Point(c.x + ArrowLength, c.y))))
      case _ => Hint("Forward", Some(Arrow(c, Point(c.x, c.y - ArrowLength))))
    else if |co| == 1 then
      Hint("Backward", Some(Arrow(co[0], Point(co[0].x, co[0].y + ArrowLength))))
    else
      Hint("STOP", None)
  }

  /** The arrow sits between the two wrists: its tail lies in the bounding
      box of the two points. */
  lemma ArrowStartsBetweenWrists(a: Point, b: Point)
    ensures var t := Render([a, b]).arrow.value.tail;
      (a.x <= t.x <= b.x || b.x <= t.x <= a.x) && (a.y <= t.y <= b.y || b.y <= t.y <= a.y)
  {
  }
}
