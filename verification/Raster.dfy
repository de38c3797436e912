/** The integer line rasteriser of the chart widgets. */
module Raster {
  import opened Arith

  datatype Pixel = Pixel(x: int, y: int)

  function Distance(a: int, b: int): (d: nat) {
    if a < b then b - a else a - b
  }

  function Sign(a: int, b: int): int {
    if a < b then 1 else -1
  }

  /** How far the pixel `i` columns and `j` rows from the start is off the ideal line, scaled by
    * the line's length.
    */
  function Deviation(i: int, j: int, dx: int, dy: int): int {
    j * dx - i * dy
  }

  /** Twice the deviation is at most the longer distance: half a pixel. */
  predicate HalfPixel(i: int, j: int, dx: int, dy: int) {
    -Max(dx, dy) <= 2 * Deviation(i, j, dx, dy) <= Max(dx, dy)
  }

  /** `p` is `i` columns and `j` rows from the start, within half a pixel of the ideal line. */
  ghost predicate OnLine(p: Pixel, x0: int, y0: int, x1: int, y1: int, i: int, j: int) {
    var dx, dy := Distance(x0, x1), Distance(y0, y1);
    && 0 <= i <= dx && 0 <= j <= dy && HalfPixel(i, j, dx, dy)
    && p == Pixel(x0 + Sign(x0, x1) * i, y0 + Sign(y0, y1) * j)
  }

  ghost predicate NearLine(p: Pixel, x0: int, y0: int, x1: int, y1: int) {
    exists i, j :: OnLine(p, x0, y0, x1, y1, i, j)
  }

  /** Twice the area between a pixel and the line: the distance from the line times its length. */
  function Cross(p: Pixel, x0: int, y0: int, x1: int, y1: int): int {
    (p.y - y0) * (x1 - x0) - (p.x - x0) * (y1 - y0)
  }

  predicate Between(a: int, x: int, b: int) {
    a <= x <= b || b <= x <= a
  }

  /** That is, within the box of the end points, and off the line by at most half of the longer distance
    * once scaled by the length.
    */
  lemma NearLineIs(p: Pixel, x0: int, y0: int, x1: int, y1: int)
    ensures NearLine(p, x0, y0, x1, y1) <==>
            && Between(x0, p.x, x1) && Between(y0, p.y, y1)
            && -Max(Distance(x0, x1), Distance(y0, y1)) <= 2 * Cross(p, x0, y0, x1, y1) <= Max(Distance(x0, x1), Distance(y0, y1))
  {
    var dx, dy := Distance(x0, x1), Distance(y0, y1);
    var i, j := Distance(x0, p.x), Distance(y0, p.y);
    if Between(x0, p.x, x1) && Between(y0, p.y, y1) {
      CrossIs(p, x0, y0, x1, y1);
      if -Max(dx, dy) <= 2 * Cross(p, x0, y0, x1, y1) <= Max(dx, dy) {
        assert OnLine(p, x0, y0, x1, y1, i, j);
      }
    }
    if NearLine(p, x0, y0, x1, y1) {
      var i', j' :| OnLine(p, x0, y0, x1, y1, i', j');
      assert i' == i && j' == j && Between(x0, p.x, x1) && Between(y0, p.y, y1);
      CrossIs(p, x0, y0, x1, y1);
    }
  }

  /** Up to its sign it is the deviation of the columns and rows counted from the start. */
  lemma CrossIs(p: Pixel, x0: int, y0: int, x1: int, y1: int)
    requires Between(x0, p.x, x1) && Between(y0, p.y, y1)
    ensures var d := Deviation(Distance(x0, p.x), Distance(y0, p.y), Distance(x0, x1), Distance(y0, y1));
            Cross(p, x0, y0, x1, y1) == d || Cross(p, x0, y0, x1, y1) == -d
  {
    var a, b, c, d := p.x - x0, p.y - y0, x1 - x0, y1 - y0;
    if c >= 0 && d >= 0 {
    } else if c >= 0 {
      assert b * c == -(-b * c) && a * d == -(a * -d);
    } else if d >= 0 {
      assert b * c == -(b * -c) && a * d == -(-a * d);
    } else {
      assert b * c == -b * -c && a * d == -a * -d;
    }
  }

  /** Two different pixels that touch. */
  predicate Adjacent(p: Pixel, q: Pixel) {
    p != q && -1 <= q.x - p.x <= 1 && -1 <= q.y - p.y <= 1
  }

  /** Moving along one axis changes the deviation by the other distance. */
  lemma DeviationMoves(i: int, j: int, dx: int, dy: int)
    ensures Deviation(i + 1, j, dx, dy) == Deviation(i, j, dx, dy) - dy
    ensures Deviation(i, j + 1, dx, dy) == Deviation(i, j, dx, dy) + dx
    ensures Deviation(i + 1, j + 1, dx, dy) == Deviation(i, j, dx, dy) + dx - dy
  {
  }

  /** The deviation at the end of one axis is the distance left on the other. */
  lemma DeviationAtEnds(i: int, j: int, dx: int, dy: int)
    ensures Deviation(dx, j, dx, dy) == -((dy - j) * dx)
    ensures Deviation(i, dy, dx, dy) == (dx - i) * dy
    ensures j < dy && dx >= 0 ==> (dy - j) * dx >= dx
    ensures i < dx && dy >= 0 ==> (dx - i) * dy >= dy
  {
    if j < dy && dx >= 0 {
      MulMonotone(1, dy - j, dx);
    }
    if i < dx && dy >= 0 {
      MulMonotone(1, dx - i, dy);
    }
  }

  lemma DeviationOnDiagonal(i: int, j: int, d: int)
    ensures Deviation(i, j, d, d) == (j - i) * d
    ensures i < j && d >= 0 ==> (j - i) * d >= d
    ensures j < i && d >= 0 ==> (j - i) * d <= -d
  {
    if i < j && d >= 0 {
      MulMonotone(1, j - i, d);
    }
    if j < i && d >= 0 {
      MulMonotone(1, i - j, d);
      assert (i - j) * d == -((j - i) * d);
    }
  }

  /** The steps along the longer axis tell the end point from every other. */
  lemma EndReached(i: int, j: int, dx: int, dy: int)
    requires 0 <= i <= dx && 0 <= j <= dy && HalfPixel(i, j, dx, dy)
    ensures (if dx >= dy then i == dx else j == dy) <==> i == dx && j == dy
  {
    hide Deviation;
    DeviationAtEnds(i, j, dx, dy);
  }

  /** Twice the error term is half the longer distance about that of the line's start; on a line
    * along an axis it does not change.
    */
  predicate Spread(e2: int, dx: int, dy: int) {
    var d := 2 * (dx - dy);
    if dx == 0 || dy == 0 then e2 == d else d - Max(dx, dy) <= e2 <= d + Max(dx, dy)
  }

  /** One step of the loop: the longer axis always moves, neither runs past its end, and the
    * pixel stays within half a pixel of the line.
    */
  lemma StepStays(i: int, j: int, dx: int, dy: int, err: int)
    requires 0 <= i <= dx && 0 <= j <= dy && HalfPixel(i, j, dx, dy) && !(i == dx && j == dy)
    requires err == dx - dy + Deviation(i, j, dx, dy)
    ensures dx >= dy ==> 2 * err > -dy
    ensures dx <= dy ==> 2 * err < dx
    ensures 2 * err > -dy ==> i < dx
    ensures 2 * err < dx ==> j < dy
    ensures HalfPixel(if 2 * err > -dy then i + 1 else i, if 2 * err < dx then j + 1 else j, dx, dy)
    ensures Spread(2 * err, dx, dy)
  {
    hide Deviation;
    DeviationMoves(i, j, dx, dy);
    DeviationAtEnds(i, j, dx, dy);
    if dx == dy {
      DeviationOnDiagonal(i, j, dx);
    }
  }

  /** The pixels so far: a path from the start, near the line, to a neighbour of `next`. */
  ghost predicate PathOk(pixels: seq<Pixel>, next: Pixel, x0: int, y0: int, x1: int, y1: int) {
    && (if pixels == [] then next == Pixel(x0, y0)
        else pixels[0] == Pixel(x0, y0) && Adjacent(pixels[|pixels| - 1], next))
    && (forall k :: 0 <= k < |pixels| - 1 ==> Adjacent(pixels[k], pixels[k + 1]))
    && forall k :: 0 <= k < |pixels| ==> NearLine(pixels[k], x0, y0, x1, y1)
  }

  lemma PathMore(pixels: seq<Pixel>, p: Pixel, next: Pixel, x0: int, y0: int, x1: int, y1: int, i: int, j: int)
    requires PathOk(pixels, p, x0, y0, x1, y1) && OnLine(p, x0, y0, x1, y1, i, j) && Adjacent(p, next)
    ensures PathOk(pixels + [p], next, x0, y0, x1, y1)
  {
  }

  lemma PathDone(pixels: seq<Pixel>, p: Pixel, x0: int, y0: int, x1: int, y1: int, i: int, j: int)
    requires PathOk(pixels, p, x0, y0, x1, y1) && OnLine(p, x0, y0, x1, y1, i, j)
    ensures (pixels + [p])[0] == Pixel(x0, y0)
    ensures forall k :: 0 <= k < |pixels| ==> Adjacent((pixels + [p])[k], (pixels + [p])[k + 1])
    ensures forall k :: 0 <= k <= |pixels| ==> NearLine((pixels + [p])[k], x0, y0, x1, y1)
  {
  }

  /** The pixel after one step. */
  lemma NextPixel(p: Pixel, x0: int, y0: int, x1: int, y1: int, i: int, j: int, stepX: bool, stepY: bool, q: Pixel)
    requires OnLine(p, x0, y0, x1, y1, i, j) && (stepX || stepY)
    requires (stepX ==> i < Distance(x0, x1)) && (stepY ==> j < Distance(y0, y1))
    requires HalfPixel(if stepX then i + 1 else i, if stepY then j + 1 else j, Distance(x0, x1), Distance(y0, y1))
    requires q == Pixel(if stepX then p.x + Sign(x0, x1) else p.x, if stepY then p.y + Sign(y0, y1) else p.y)
    ensures OnLine(q, x0, y0, x1, y1, if stepX then i + 1 else i, if stepY then j + 1 else j) && Adjacent(p, q)
  {
  }

  /** The end point is where both distances are used up. */
  lemma AtEnd(p: Pixel, x0: int, y0: int, x1: int, y1: int, i: int, j: int)
    requires OnLine(p, x0, y0, x1, y1, i, j)
    ensures p == Pixel(x1, y1) <==> i == Distance(x0, x1) && j == Distance(y0, y1)
  {
  }

  /** Where the loop stands before it draws `p`, `i` columns and `j` rows from the start. */
  ghost predicate Drawing(pixels: seq<Pixel>, p: Pixel, err: int, x0: int, y0: int, x1: int, y1: int, i: int, j: int) {
    var dx, dy := Distance(x0, x1), Distance(y0, y1);
    && OnLine(p, x0, y0, x1, y1, i, j) && err == dx - dy + Deviation(i, j, dx, dy)
    && |pixels| == (if dx >= dy then i else j) && PathOk(pixels, p, x0, y0, x1, y1)
  }

  /** One turn of the loop that does not draw the end point. */
  lemma DrawStep(pixels: seq<Pixel>, p: Pixel, err: int, x0: int, y0: int, x1: int, y1: int, i: int, j: int, q: Pixel, err': int)
    requires Drawing(pixels, p, err, x0, y0, x1, y1, i, j) && p != Pixel(x1, y1)
    requires var dx, dy := Distance(x0, x1), Distance(y0, y1);
             var stepX, stepY := 2 * err + dy > 0, 2 * err < dx;
             && err' == err - (if stepX then dy else 0) + (if stepY then dx else 0)
             && q == Pixel(if stepX then p.x + Sign(x0, x1) else p.x, if stepY then p.y + Sign(y0, y1) else p.y)
    ensures var dx, dy := Distance(x0, x1), Distance(y0, y1);
            && Drawing(pixels + [p], q, err', x0, y0, x1, y1, if 2 * err + dy > 0 then i + 1 else i, if 2 * err < dx then j + 1 else j)
            && |pixels| < Max(dx, dy) && Spread(2 * err, dx, dy) && Spread(2 * err', dx, dy)
  {
    hide PathOk, Deviation, NearLine, Adjacent;
    var dx, dy := Distance(x0, x1), Distance(y0, y1);
    AtEnd(p, x0, y0, x1, y1, i, j);
    EndReached(i, j, dx, dy);
    StepStays(i, j, dx, dy, err);
    DeviationMoves(i, j, dx, dy);
    NextPixel(p, x0, y0, x1, y1, i, j, 2 * err + dy > 0, 2 * err < dx, q);
    PathMore(pixels, p, q, x0, y0, x1, y1, i, j);
  }

  /** The pixels of a whole line. */
  ghost predicate Line(pixels: seq<Pixel>, x0: int, y0: int, x1: int, y1: int) {
    && |pixels| == Max(Distance(x0, x1), Distance(y0, y1)) + 1
    && pixels[0] == Pixel(x0, y0) && pixels[|pixels| - 1] == Pixel(x1, y1)
    && (forall k :: 0 <= k < |pixels| - 1 ==> Adjacent(pixels[k], pixels[k + 1]))
    && forall k :: 0 <= k < |pixels| ==> NearLine(pixels[k], x0, y0, x1, y1)
  }

  lemma DrawEnd(pixels: seq<Pixel>, p: Pixel, err: int, x0: int, y0: int, x1: int, y1: int, i: int, j: int)
    requires Drawing(pixels, p, err, x0, y0, x1, y1, i, j) && p == Pixel(x1, y1)
    ensures Line(pixels + [p], x0, y0, x1, y1)
  {
    hide NearLine, Adjacent, Deviation;
    AtEnd(p, x0, y0, x1, y1, i, j);
    EndReached(i, j, Distance(x0, x1), Distance(y0, y1));
    PathDone(pixels, p, x0, y0, x1, y1, i, j);
  }

  lemma DrawStart(x0: int, y0: int, x1: int, y1: int, err: int)
    requires err == Distance(x0, x1) - Distance(y0, y1)
    ensures Drawing([], Pixel(x0, y0), err, x0, y0, x1, y1, 0, 0)
  {
  }

  predicate Int32(n: int) {
    -0x8000_0000 <= n <= 0x7FFF_FFFF
  }

  /** The largest value the loop can compute: the double of the error term on a flat line. */
  function High(dx: nat, dy: nat): int {
    if dx < dy then dy else if dy == 0 then 2 * dx else 3 * dx - 2 * dy
  }

  /** ... and the smallest: that double on a steep line, or the error term between its two changes. */
  function Low(dx: nat, dy: nat): int {
    if dx == 0 then -2 * dy else if dx < dy && 4 * dx < 3 * dy then 2 * dx - 3 * dy else -(3 * dy / 2)
  }

  ghost predicate Bounded(values: seq<int>, dx: nat, dy: nat) {
    forall k :: 0 <= k < |values| ==> Low(dx, dy) <= values[k] <= High(dx, dy)
  }

  lemma BoundedMore(values: seq<int>, dx: nat, dy: nat, more: seq<int>)
    requires Bounded(values, dx, dy) && Bounded(more, dx, dy)
    ensures Bounded(values + more, dx, dy)
  {
  }

  /** The values start with the distances and, unless the line is one pixel, the double of their difference. */
  ghost predicate Opening(values: seq<int>, dx: nat, dy: nat) {
    && |values| >= 3 && values[0] == dx && values[1] == dy && values[2] == dx - dy
    && (dx + dy > 0 ==> |values| >= 4 && values[3] == 2 * (dx - dy))
  }

  predicate AllInt32(values: seq<int>) {
    forall k :: 0 <= k < |values| ==> Int32(values[k])
  }

  /** The values of a line with these distances fit 32 bits. */
  predicate InRange(dx: nat, dy: nat) {
    -0x8000_0000 <= Low(dx, dy) && High(dx, dy) <= 0x7FFF_FFFF
  }

  /** A line whose distances are in range is drawn without overflow: every value computed and
    * every coordinate fits 32 bits.
    */
  lemma NothingOverflows(pixels: seq<Pixel>, values: seq<int>, x0: int, y0: int, x1: int, y1: int)
    requires Line(pixels, x0, y0, x1, y1) && Bounded(values, Distance(x0, x1), Distance(y0, y1))
    requires Int32(x0) && Int32(y0) && Int32(x1) && Int32(y1) && InRange(Distance(x0, x1), Distance(y0, y1))
    ensures AllInt32(values)
    ensures forall k :: 0 <= k < |pixels| ==> Int32(pixels[k].x) && Int32(pixels[k].y)
  {
    hide HalfPixel;
    forall k | 0 <= k < |pixels|
      ensures Int32(pixels[k].x) && Int32(pixels[k].y)
    {
      assert NearLine(pixels[k], x0, y0, x1, y1);
      var i, j :| OnLine(pixels[k], x0, y0, x1, y1, i, j);
    }
  }

  /** A horizontal or vertical line overflows exactly when it is out of range: from 2^30 columns or
    * more than 2^30 rows on.
    */
  lemma AxisOverflows(values: seq<int>, dx: nat, dy: nat)
    requires Bounded(values, dx, dy) && Opening(values, dx, dy) && (dx == 0 || dy == 0)
    ensures AllInt32(values) <==> InRange(dx, dy)
    ensures InRange(dx, dy) <==> dx < 0x4000_0000 && dy <= 0x4000_0000
  {
    if dx + dy > 0 && AllInt32(values) {
      assert Int32(values[3]) && Int32(values[1]);
    }
  }

  /** Any line overflows whose distances differ by 2^30 or more columns, or more than 2^30 rows; one
    * across the whole range does.
    */
  lemma FarOverflows(values: seq<int>, dx: nat, dy: nat)
    requires Opening(values, dx, dy)
    ensures dx - dy >= 0x4000_0000 || dy - dx > 0x4000_0000 || Max(dx, dy) > 0x7FFF_FFFF ==> !AllInt32(values)
    ensures Int32(-0x8000_0000) && Int32(0x7FFF_FFFF) && Distance(-0x8000_0000, 0x7FFF_FFFF) > 0x7FFF_FFFF
  {
    if AllInt32(values) {
      assert Int32(values[0]) && Int32(values[1]);
      if dx + dy > 0 {
        assert Int32(values[3]);
      }
    }
  }

  /** Draw a line: the pixels drawn, in order. From the first end point to the second, in
    * `max(dx, dy) + 1` pixels, each touching the one before and within half a pixel of the line.
    * `values` collects the distances and every value of the error term and of its double.
    */
  method EmitLine(x0: int, y0: int, x1: int, y1: int) returns (pixels: seq<Pixel>, ghost values: seq<int>)
    ensures Line(pixels, x0, y0, x1, y1)
    ensures Bounded(values, Distance(x0, x1), Distance(y0, y1)) && Opening(values, Distance(x0, x1), Distance(y0, y1))
  {
    hide Drawing, Line, Bounded, Spread, High, Low;
    var x, y := x0, y0;
    var dx := x1 - x0;
    if dx < 0 {
      dx := -dx;
    }
    var dy := y1 - y0;
    if dy < 0 {
      dy := -dy;
    }
    var sx := if x0 < x1 then 1 else -1;
    var sy := if y0 < y1 then 1 else -1;
    var err := dx - dy;
    pixels := [];
    values := [dx, dy, err];
    ghost var i, j := 0, 0;
    StartBounded(dx, dy);
    DrawStart(x0, y0, x1, y1, err);
    while true
      invariant Drawing(pixels, Pixel(x, y), err, x0, y0, x1, y1, i, j) && Bounded(values, dx, dy)
      invariant |values| == 3 ==> err == dx - dy && x == x0 && y == y0
      invariant |values| >= 3 && values[0] == dx && values[1] == dy && values[2] == dx - dy
      invariant |values| > 3 ==> values[3] == 2 * (dx - dy)
      decreases Max(dx, dy) - |pixels|
    {
      ghost var drawn, p, err0 := pixels, Pixel(x, y), err;
      pixels := pixels + [Pixel(x, y)];
      if x == x1 && y == y1 {
        DrawEnd(drawn, p, err, x0, y0, x1, y1, i, j);
        return;
      }
      var e2 := 2 * err;
      if e2 > -dy {
        err := err - dy;
        x := x + sx;
      }
      ghost var err1 := err;
      if e2 < dx {
        err := err + dx;
        y := y + sy;
      }
      DrawStep(drawn, p, err0, x0, y0, x1, y1, i, j, Pixel(x, y), err);
      StepBounded(e2, err1, err, dx, dy);
      BoundedMore(values, dx, dy, [e2, err1, err]);
      values := values + [e2, err1, err];
      i, j := if e2 > -dy then i + 1 else i, if e2 < dx then j + 1 else j;
    }
  }

  lemma StartBounded(dx: nat, dy: nat)
    ensures Bounded([dx, dy, dx - dy], dx, dy)
  {
  }

  /** The values of one turn lie between those of the turn's two positions. */
  lemma StepBounded(e2: int, err1: int, err: int, dx: int, dy: int)
    requires dx >= 0 && dy >= 0 && Spread(e2, dx, dy) && Spread(2 * err, dx, dy)
    requires 2 * err1 == e2 - (if e2 > -dy then 2 * dy else 0) && 2 * err == 2 * err1 + if e2 < dx then 2 * dx else 0
    ensures Bounded([e2, err1, err], dx, dy)
  {
  }
}
