/**
 * The contour tracer (`gcode_from_outline`): walks a glyph outline contour by
 * contour and point by point, and asks the motion emitter for a pen-up move to
 * the first point of every contour and a pen-down move to each later point.
 * Outlines are FreeType's: points in 26.6 fixed point (1/64 units) and, for
 * each contour, the index of its last point.
 */
module Tracer {
  import opened Motion
  import opened Buffer

  /** A point of an outline, in 1/64 units. */
  datatype Point = Point(x: int, y: int)

  /** The points of an outline and, per contour, the index of its last point. */
  datatype Outline = Outline(points: seq<Point>, contours: seq<int>)

  /**
   * Every point index the tracer reads is a valid index: each contour end is
   * below the point count, and at least -1, so that the next contour's start
   * is not negative. The tracer itself checks neither.
   */
  predicate InBounds(o: Outline) {
    forall i :: 0 <= i < |o.contours| ==> -1 <= o.contours[i] < |o.points|
  }

  /** Contour ends never decrease (FreeType's outlines have increasing ends). */
  predicate Monotone(o: Outline) {
    forall i, k :: 0 <= i <= k < |o.contours| ==> o.contours[i] <= o.contours[k]
  }

  /** Contour i starts right after the end of contour i - 1, and contour 0 at 0. */
  function ContourStart(o: Outline, i: nat): (s: int)
    requires i < |o.contours|
    ensures InBounds(o) ==> 0 <= s <= |o.points|
  {
    if i == 0 then 0 else o.contours[i - 1] + 1
  }

  /** Whether point j is the first point of one of the first n contours. */
  ghost predicate StartsContour(o: Outline, n: nat, j: int)
    requires n <= |o.contours|
  {
    exists i :: 0 <= i < n && ContourStart(o, i) == j
  }

  /** The move to point j, relative to the origin (ox, oy), in a contour starting at first. */
  function PointMove(o: Outline, j: int, first: int, ox: int, oy: int): Move
    requires 0 <= j < |o.points|
  {
    Move(64 * ox + o.points[j].x, 64 * oy + o.points[j].y, j != first)
  }

  /** The moves to points first, ..., k - 1 of the contour that starts at first. */
  function RangeMoves(o: Outline, first: int, k: int, ox: int, oy: int): seq<Move>
    requires k <= first || (0 <= first && k <= |o.points|)
    decreases k - first
  {
    if k <= first then [] else RangeMoves(o, first, k - 1, ox, oy) + [PointMove(o, k - 1, first, ox, oy)]
  }

  /** The moves of contour i: its points from its start to its end index. */
  function ContourMoves(o: Outline, i: nat, ox: int, oy: int): seq<Move>
    requires InBounds(o) && i < |o.contours|
  {
    RangeMoves(o, ContourStart(o, i), o.contours[i] + 1, ox, oy)
  }

  /** The moves of the first n contours, in contour order. */
  function ContoursMoves(o: Outline, n: nat, ox: int, oy: int): seq<Move>
    requires InBounds(o) && n <= |o.contours|
  {
    if n == 0 then [] else ContoursMoves(o, n - 1, ox, oy) + ContourMoves(o, n - 1, ox, oy)
  }

  /** The moves that trace a whole outline with its origin at (ox, oy). */
  function OutlineMoves(o: Outline, ox: int, oy: int): seq<Move>
    requires InBounds(o)
  {
    ContoursMoves(o, |o.contours|, ox, oy)
  }

  /**
   * A contour's moves visit its points in index order, each at the origin plus
   * the point: a pen-up move to the first point and pen-down moves to the
   * rest; a contour whose end is before its start has no moves.
   */
  lemma {:induction false} RangeMovesAt(o: Outline, first: int, k: int, ox: int, oy: int)
    requires k <= first || (0 <= first && k <= |o.points|)
    ensures |RangeMoves(o, first, k, ox, oy)| == if k <= first then 0 else k - first
    ensures forall t :: 0 <= t < |RangeMoves(o, first, k, ox, oy)| ==>
      RangeMoves(o, first, k, ox, oy)[t]
        == Move(64 * ox + o.points[first + t].x, 64 * oy + o.points[first + t].y, t > 0)
  {
    if k > first {
      RangeMovesAt(o, first, k - 1, ox, oy);
    }
  }

  /**
   * For an outline whose contour ends never decrease, the trace of the first n
   * contours visits points 0 to the n-th end, in order, each exactly once, at
   * the origin plus the point; the pen is up exactly at contour starts.
   */
  lemma {:induction false} ContoursMovesAt(o: Outline, n: nat, ox: int, oy: int)
    requires InBounds(o) && Monotone(o) && n <= |o.contours|
    ensures |ContoursMoves(o, n, ox, oy)| == if n == 0 then 0 else o.contours[n - 1] + 1
    ensures forall j :: 0 <= j < |ContoursMoves(o, n, ox, oy)| ==>
      ContoursMoves(o, n, ox, oy)[j]
        == Move(64 * ox + o.points[j].x, 64 * oy + o.points[j].y, !StartsContour(o, n, j))
  {
    if n > 0 {
      var before := ContoursMoves(o, n - 1, ox, oy);
      var s := ContourStart(o, n - 1);
      var last := ContourMoves(o, n - 1, ox, oy);
      ContoursMovesAt(o, n - 1, ox, oy);
      RangeMovesAt(o, s, o.contours[n - 1] + 1, ox, oy);
      assert |before| == s;
      var all := ContoursMoves(o, n, ox, oy);
      assert all == before + last;
      forall j | 0 <= j < |all|
        ensures all[j] == Move(64 * ox + o.points[j].x, 64 * oy + o.points[j].y, !StartsContour(o, n, j))
      {
        hide *;
        StartsContourStep(o, n, j);
        if j < s {
          assert all[j] == before[j];
        } else {
          assert all[j] == last[j - s];
        }
      }
    }
  }

  /** The contour starts among the first n are those among the first n - 1 and the start of contour n - 1, which is the greatest. */
  lemma StartsContourStep(o: Outline, n: nat, j: int)
    requires InBounds(o) && Monotone(o) && 0 < n <= |o.contours|
    ensures StartsContour(o, n, j) <==> StartsContour(o, n - 1, j) || j == ContourStart(o, n - 1)
    ensures StartsContour(o, n - 1, j) ==> j <= ContourStart(o, n - 1)
  {
    if StartsContour(o, n - 1, j) {
      var i :| 0 <= i < n - 1 && ContourStart(o, i) == j;
      assert 0 <= i < n && ContourStart(o, i) == j;
      if i > 0 {
        assert o.contours[i - 1] <= o.contours[n - 2];
      }
    }
    if StartsContour(o, n, j) && j != ContourStart(o, n - 1) {
      var i :| 0 <= i < n && ContourStart(o, i) == j;
      assert 0 <= i < n - 1 && ContourStart(o, i) == j;
    }
    if j == ContourStart(o, n - 1) {
      assert 0 <= n - 1 < n && ContourStart(o, n - 1) == j;
    }
  }

  /**
   * `gcode_from_outline`: for every contour in order, a pen-up move to its
   * first point and a pen-down move to each later point, each at the origin
   * plus the point.
   */
  method TraceOutline(o: Outline, startx: int, starty: int, buf: CommandBuffer)
    requires InBounds(o) && buf.Valid()
    modifies buf
    ensures buf.Valid()
    ensures buf.text == old(buf.text) + MovesText(OutlineMoves(o, startx, starty))
  {
    hide MoveText;
    var i := 0;
    while i < |o.contours|
      invariant 0 <= i <= |o.contours|
      invariant buf.Valid()
      invariant buf.text == old(buf.text) + MovesText(ContoursMoves(o, i, startx, starty))
    {
      var startIdx := if i == 0 then 0 else o.contours[i - 1] + 1;
      var endIdx := o.contours[i];
      ghost var before := buf.text;
      TraceContour(o, startIdx, endIdx, startx, starty, buf);
      ContourStep(o, i, startIdx, endIdx, startx, starty, old(buf.text), before, buf.text);
      i := i + 1;
    }
  }

  /** One point of the inner loop: the text grows by the move to point j. */
  lemma TraceStep(o: Outline, first: int, j: int, penDown: bool, ox: int, oy: int, start: string, before: string, after: string)
    requires 0 <= first <= j < |o.points| && penDown == (j != first)
    requires before == start + MovesText(RangeMoves(o, first, j, ox, oy))
    requires after == before + MoveText(Move(64 * ox + o.points[j].x, 64 * oy + o.points[j].y, penDown))
    ensures after == start + MovesText(RangeMoves(o, first, j + 1, ox, oy))
  {
    var traced, move := RangeMoves(o, first, j, ox, oy), PointMove(o, j, first, ox, oy);
    assert RangeMoves(o, first, j + 1, ox, oy) == traced + [move];
    MovesTextSnoc(traced, move);
    AppendAssociates(start, MovesText(traced), MoveText(move));
  }

  /** One contour of the outer loop: the text grows by the moves of contour i. */
  lemma ContourStep(o: Outline, i: nat, first: int, last: int, ox: int, oy: int, start: string, before: string, after: string)
    requires InBounds(o) && i < |o.contours|
    requires first == ContourStart(o, i) && last == o.contours[i]
    requires before == start + MovesText(ContoursMoves(o, i, ox, oy))
    requires after == before + MovesText(RangeMoves(o, first, last + 1, ox, oy))
    ensures after == start + MovesText(ContoursMoves(o, i + 1, ox, oy))
  {
    var done, contour := ContoursMoves(o, i, ox, oy), ContourMoves(o, i, ox, oy);
    MovesTextAppend(done, contour);
    AppendAssociates(start, MovesText(done), MovesText(contour));
  }

  /** The inner loop of `gcode_from_outline`: the points startIdx to endIdx of one contour. */
  method TraceContour(o: Outline, startIdx: int, endIdx: int, startx: int, starty: int, buf: CommandBuffer)
    requires endIdx < startIdx || (0 <= startIdx && endIdx < |o.points|)
    requires buf.Valid()
    modifies buf
    ensures buf.Valid()
    ensures buf.text == old(buf.text) + MovesText(RangeMoves(o, startIdx, endIdx + 1, startx, starty))
  {
    hide MoveText;
    var j := startIdx;
    while j <= endIdx
      invariant startIdx <= j && (j <= endIdx + 1 || j == startIdx)
      invariant buf.Valid()
      invariant buf.text == old(buf.text) + MovesText(RangeMoves(o, startIdx, j, startx, starty))
    {
      var point := o.points[j];
      ghost var before := buf.text;
      if j == startIdx {
        AddMovement(64 * startx + point.x, 64 * starty + point.y, false, buf);
        TraceStep(o, startIdx, j, false, startx, starty, old(buf.text), before, buf.text);
      } else {
        AddMovement(64 * startx + point.x, 64 * starty + point.y, true, buf);
        TraceStep(o, startIdx, j, true, startx, starty, old(buf.text), before, buf.text);
      }
      j := j + 1;
    }
    assert j == endIdx + 1 || RangeMoves(o, startIdx, endIdx + 1, startx, starty) == [];
  }
}
