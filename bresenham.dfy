/*
 * core::bresenham: the all-octant integer line walk, as the function
 * fullbresenham, the iterator class bresenham and the single step
 * bresenham_next. Coordinates and the error term are unbounded integers,
 * where the source's 32-bit int arithmetic overflows for far-apart points.
 */
module Bresenham {
  import Common

  datatype Point = Point(x: int, y: int)

  function Abs(v: int): (r: int)
    ensures r >= 0 && (r == v || r == -v)
  {
    if v < 0 then -v else v
  }

  /** The constants of a walk from p0 to p1: dx = |x1 - x0|,
      dy = -|y1 - y0|, and the step signs. */
  datatype Stepper = Stepper(dx: int, dy: int, sx: int, sy: int)

  function Setup(p0: Point, p1: Point): (s: Stepper)
    ensures s.dx >= 0 && s.dy <= 0 && (s.sx == 1 || s.sx == -1) && (s.sy == 1 || s.sy == -1)
  {
    Stepper(Abs(p1.x - p0.x), -Abs(p1.y - p0.y),
            if p0.x < p1.x then 1 else -1, if p0.y < p1.y then 1 else -1)
  }

  /** A position of the walk and its error term. */
  datatype Cursor = Cursor(p: Point, err: int)

  /** The cursor a walk starts with: err = dx + dy. */
  function Start(p0: Point, p1: Point): Cursor
  {
    var s := Setup(p0, p1);
    Cursor(p0, s.dx + s.dy)
  }

  /** One step of the loop body: e2 = 2 err; x moves when e2 >= dy, y moves
      when e2 <= dx, both tests on the same e2. */
  function Step(s: Stepper, c: Cursor): Cursor
  {
    var e2 := 2 * c.err;
    var c1 := if e2 >= s.dy then Cursor(Point(c.p.x + s.sx, c.p.y), c.err + s.dy) else c;
    if e2 <= s.dx then Cursor(Point(c1.p.x, c1.p.y + s.sy), c1.err + s.dx) else c1
  }

  /** Steps taken along x and along y from p0 toward p1. */
  function Du(p0: Point, p1: Point, p: Point): int
  {
    if p0.x < p1.x then p.x - p0.x else p0.x - p.x
  }

  function Dv(p0: Point, p1: Point, p: Point): int
  {
    if p0.y < p1.y then p.y - p0.y else p0.y - p.y
  }

  /** A cursor on the walk from p0 to p1: u of the a = |x1 - x0| steps along
      x and v of the b = |y1 - y0| steps along y are taken, and the error
      term is a (v + 1) - b (u + 1). */
  ghost predicate OnTrack(p0: Point, p1: Point, c: Cursor)
  {
    var a := Abs(p1.x - p0.x);
    var b := Abs(p1.y - p0.y);
    var u := Du(p0, p1, c.p);
    var v := Dv(p0, p1, c.p);
    0 <= u <= a && 0 <= v <= b && c.err == a * (v + 1) - b * (u + 1)
  }

  /** The steps still to take. */
  ghost function Remaining(p0: Point, p1: Point, c: Cursor): int
  {
    Abs(p1.x - p0.x) - Du(p0, p1, c.p) + Abs(p1.y - p0.y) - Dv(p0, p1, c.p)
  }

  /** The error term on the track: once one coordinate is done its test
      fails, one of the two tests always passes, and each update keeps the
      error term's form. */
  lemma ErrArith(a: int, b: int, u: int, v: int, err: int)
    requires 0 <= u <= a && 0 <= v <= b && (u < a || v < b) && err == a * (v + 1) - b * (u + 1)
    ensures 2 * err >= -b ==> u < a
    ensures 2 * err <= a ==> v < b
    ensures 2 * err >= -b || 2 * err <= a
    ensures err - b == a * (v + 1) - b * (u + 2)
    ensures err + a == a * (v + 2) - b * (u + 1)
    ensures err - b + a == a * (v + 2) - b * (u + 2)
  {
    MulSucc(a, v + 1);
    MulSucc(b, u + 1);
    if u == a {
      MulMono(a, v + 1, b);
      MulSucc(b, a);
      assert err <= -b;
    }
    if v == b {
      MulMono(b, u + 1, a);
      MulSucc(a, b);
      assert err >= a;
    }
  }

  lemma MulSucc(a: int, n: int)
    ensures a * (n + 1) == a * n + a
  {
  }

  lemma MulMono(a: int, x: int, y: int)
    requires 0 <= a && x <= y
    ensures a * x <= a * y
  {
    assert a * y - a * x == a * (y - x);
  }

  /** On the track, the cursor is at p1 exactly when every step is taken. */
  lemma AtEnd(p0: Point, p1: Point, c: Cursor)
    requires OnTrack(p0, p1, c)
    ensures c.p == p1 <==> Remaining(p0, p1, c) == 0
  {
  }

  lemma StartOnTrack(p0: Point, p1: Point)
    ensures OnTrack(p0, p1, Start(p0, p1))
  {
  }

  /** Away from p1 a step stays on the track, takes one or two steps (never
      past p1), and moves x by 0 or sx and y by 0 or sy. */
  lemma StepOnTrack(p0: Point, p1: Point, c: Cursor)
    requires OnTrack(p0, p1, c) && c.p != p1
    ensures var s := Setup(p0, p1);
            var n := Step(s, c);
            OnTrack(p0, p1, n) && 0 <= Remaining(p0, p1, n) < Remaining(p0, p1, c) &&
            (n.p.x == c.p.x || n.p.x == c.p.x + s.sx) && (n.p.y == c.p.y || n.p.y == c.p.y + s.sy) &&
            n.p != c.p
  {
    var s := Setup(p0, p1);
    var a := Abs(p1.x - p0.x);
    var b := Abs(p1.y - p0.y);
    var u := Du(p0, p1, c.p);
    var v := Dv(p0, p1, c.p);
    assert s.dx == a && s.dy == -b;
    AtEnd(p0, p1, c);
    ErrArith(a, b, u, v, c.err);
  }

  /** The points of the walk from cursor c on, up to and including p1. */
  ghost function Walk(p0: Point, p1: Point, c: Cursor): (w: seq<Cursor>)
    requires OnTrack(p0, p1, c)
    ensures |w| > 0 && w[0] == c
    decreases Remaining(p0, p1, c)
  {
    if c.p == p1 then [c]
    else
      StepOnTrack(p0, p1, c);
      [c] + Walk(p0, p1, Step(Setup(p0, p1), c))
  }

  function Points(w: seq<Cursor>): (r: seq<Point>)
    ensures |r| == |w| && forall k :: 0 <= k < |w| ==> r[k] == w[k].p
  {
    seq(|w|, k requires 0 <= k < |w| => w[k].p)
  }

  /** The points of a walk away from p1: the cursor's point, then the
      points of the walk from the next cursor. */
  lemma WalkStep(p0: Point, p1: Point, c: Cursor)
    requires OnTrack(p0, p1, c) && c.p != p1
    ensures OnTrack(p0, p1, Step(Setup(p0, p1), c))
    ensures Remaining(p0, p1, Step(Setup(p0, p1), c)) < Remaining(p0, p1, c)
    ensures Points(Walk(p0, p1, c)) == [c.p] + Points(Walk(p0, p1, Step(Setup(p0, p1), c)))
  {
    StepOnTrack(p0, p1, c);
    var w := Walk(p0, p1, Step(Setup(p0, p1), c));
    assert Walk(p0, p1, c) == [c] + w;
  }

  /** The line fullbresenham returns. */
  ghost function Line(p0: Point, p1: Point): (r: seq<Point>)
    ensures |r| > 0 && r[0] == p0
  {
    StartOnTrack(p0, p1);
    Points(Walk(p0, p1, Start(p0, p1)))
  }

  /** Every cursor of a walk is on the track, each one is the step of the
      one before, and the last is at p1 while no earlier one is. */
  lemma {:induction false} WalkProps(p0: Point, p1: Point, c: Cursor)
    requires OnTrack(p0, p1, c)
    ensures var w := Walk(p0, p1, c);
            w[|w| - 1].p == p1 &&
            (forall k :: 0 <= k < |w| ==> OnTrack(p0, p1, w[k])) &&
            (forall k :: 0 <= k < |w| - 1 ==> w[k].p != p1 && w[k + 1] == Step(Setup(p0, p1), w[k]))
    decreases Remaining(p0, p1, c)
  {
    if c.p != p1 {
      StepOnTrack(p0, p1, c);
      WalkProps(p0, p1, Step(Setup(p0, p1), c));
    }
  }

  /** fullbresenham's first point is the start and its last the end. */
  lemma LineEnds(p0: Point, p1: Point)
    ensures var L := Line(p0, p1); |L| > 0 && L[0] == p0 && L[|L| - 1] == p1
  {
    StartOnTrack(p0, p1);
    WalkProps(p0, p1, Start(p0, p1));
  }

  /** Every step of fullbresenham moves x by 0 or sx and y by 0 or sy and
      does move, so consecutive points are 8-neighbours. */
  lemma LineSteps(p0: Point, p1: Point)
    ensures var L := Line(p0, p1); var s := Setup(p0, p1);
            forall k :: 0 <= k < |L| - 1 ==>
              (L[k + 1].x == L[k].x || L[k + 1].x == L[k].x + s.sx) &&
              (L[k + 1].y == L[k].y || L[k + 1].y == L[k].y + s.sy) && L[k + 1] != L[k]
  {
    StartOnTrack(p0, p1);
    var w := Walk(p0, p1, Start(p0, p1));
    WalkProps(p0, p1, Start(p0, p1));
    forall k | 0 <= k < |w| - 1
      ensures var s := Setup(p0, p1);
              (w[k + 1].p.x == w[k].p.x || w[k + 1].p.x == w[k].p.x + s.sx) &&
              (w[k + 1].p.y == w[k].p.y || w[k + 1].p.y == w[k].p.y + s.sy) && w[k + 1].p != w[k].p
    {
      StepOnTrack(p0, p1, w[k]);
    }
  }

  /** fullbresenham never leaves the box spanned by the two ends. */
  lemma LineInBox(p0: Point, p1: Point)
    ensures var L := Line(p0, p1);
            forall k :: 0 <= k < |L| ==>
              0 <= Du(p0, p1, L[k]) <= Abs(p1.x - p0.x) && 0 <= Dv(p0, p1, L[k]) <= Abs(p1.y - p0.y)
  {
    StartOnTrack(p0, p1);
    WalkProps(p0, p1, Start(p0, p1));
  }

  /** A line from a point to itself is that one point. */
  lemma LineToItself(p: Point)
    ensures Line(p, p) == [p]
  {
    StartOnTrack(p, p);
  }

  /** The loop body: e2 = 2 err; x moves by sx when e2 >= dy and y by sy
      when e2 <= dx. */
  method Advance(dx: int, dy: int, sx: int, sy: int, x: int, y: int, err: int) returns (x': int, y': int, err': int)
    ensures Cursor(Point(x', y'), err') == Step(Stepper(dx, dy, sx, sy), Cursor(Point(x, y), err))
  {
    x', y', err' := x, y, err;
    var e2 := 2 * err;
    if e2 >= dy {
      err' := err' + dy;
      x' := x' + sx;
    }
    if e2 <= dx {
      err' := err' + dx;
      y' := y' + sy;
    }
  }

  /** fullbresenham(x0, y0, x1, y1): the points pushed by the loop, which
      steps x0, y0 and err in place until it reaches (x1, y1). */
  method FullBresenham(x0: int, y0: int, x1: int, y1: int) returns (result: seq<Point>)
    ensures result == Line(Point(x0, y0), Point(x1, y1))
  {
    ghost var p0, p1 := Point(x0, y0), Point(x1, y1);
    var dx := Abs(x1 - x0);
    var sx := if x0 < x1 then 1 else -1;
    var dy := -Abs(y1 - y0);
    var sy := if y0 < y1 then 1 else -1;
    var err := dx + dy;
    var x, y := x0, y0;
    result := [];
    StartOnTrack(p0, p1);
    ghost var s := Stepper(dx, dy, sx, sy);
    assert s == Setup(p0, p1);
    while true
      invariant OnTrack(p0, p1, Cursor(Point(x, y), err))
      invariant result + Points(Walk(p0, p1, Cursor(Point(x, y), err))) == Line(p0, p1)
      decreases Remaining(p0, p1, Cursor(Point(x, y), err))
    {
      ghost var c := Cursor(Point(x, y), err);
      ghost var before := result;
      result := result + [Point(x, y)];
      if x == x1 && y == y1 {
        assert Walk(p0, p1, c) == [c];
        assert Points([c]) == [c.p];
        return;
      }
      WalkStep(p0, p1, c);
      x, y, err := Advance(dx, dy, sx, sy, x, y, err);
      Common.Associative(before, [c.p], Points(Walk(p0, p1, Cursor(Point(x, y), err))));
    }
  }

  /** bresenham_next(x0, y0, x1, y1): the start itself when it is the end,
      otherwise the start moved by one step of the walk. */
  function BresenhamNext(x0: int, y0: int, x1: int, y1: int): (r: Point)
    ensures -1 <= r.x - x0 <= 1 && -1 <= r.y - y0 <= 1
    ensures x0 == x1 && y0 == y1 ==> r == Point(x0, y0)
  {
    var s := Setup(Point(x0, y0), Point(x1, y1));
    var e2 := 2 * (s.dx + s.dy);
    if x0 == x1 && y0 == y1 then Point(x0, y0)
    else Point(if e2 >= s.dy then x0 + s.sx else x0, if e2 <= s.dx then y0 + s.sy else y0)
  }

  /** bresenham_next is the second point of the line, or the start of a
      line of one point. */
  lemma BresenhamNextOnLine(x0: int, y0: int, x1: int, y1: int)
    ensures var L := Line(Point(x0, y0), Point(x1, y1));
            BresenhamNext(x0, y0, x1, y1) == if |L| == 1 then L[0] else L[1]
  {
    var p0, p1 := Point(x0, y0), Point(x1, y1);
    StartOnTrack(p0, p1);
    if p0 != p1 {
      StepOnTrack(p0, p1, Start(p0, p1));
      var w := Walk(p0, p1, Start(p0, p1));
      assert w[1] == Walk(p0, p1, Step(Setup(p0, p1), Start(p0, p1)))[0];
    }
  }

  /** The iterator class: curr is the point last returned (the start before
      any call), nxt and err the cursor of the point the next call returns.
      The ghost track is the walk from start to end, and count says how
      many of its points next() has returned. */
  class Iterator {
    const start: Point
    const end: Point
    const dx: int
    const dy: int
    const sx: int
    const sy: int
    var err: int
    var curr: Point
    var nxt: Point
    ghost const track: seq<Cursor>
    ghost var count: nat

    ghost predicate Valid()
      reads this
    {
      Setup(start, end) == Stepper(dx, dy, sx, sy) &&
      Line(start, end) == Points(track) &&
      |track| > 0 && track[|track| - 1].p == end &&
      (forall k :: 0 <= k < |track| - 1 ==> track[k].p != end && track[k + 1] == Step(Stepper(dx, dy, sx, sy), track[k])) &&
      count <= |track| &&
      (count == 0 ==> curr == start) &&
      (count > 0 ==> curr == track[count - 1].p) &&
      (count < |track| ==> Cursor(nxt, err) == track[count])
    }

    /** The points returned so far. */
    ghost function Returned(): seq<Point>
      reads this
      requires Valid()
    {
      Line(start, end)[..count]
    }

    constructor (x0: int, y0: int, x1: int, y1: int)
      ensures Valid() && start == Point(x0, y0) && end == Point(x1, y1)
      ensures curr == start && count == 0 && Returned() == []
    {
      start, end := Point(x0, y0), Point(x1, y1);
      dx := Abs(x1 - x0);
      sx := if x0 < x1 then 1 else -1;
      dy := -Abs(y1 - y0);
      sy := if y0 < y1 then 1 else -1;
      err := Abs(x1 - x0) - Abs(y1 - y0);
      curr, nxt := Point(x0, y0), Point(x0, y0);
      StartOnTrack(Point(x0, y0), Point(x1, y1));
      WalkProps(Point(x0, y0), Point(x1, y1), Start(Point(x0, y0), Point(x1, y1)));
      track := Walk(Point(x0, y0), Point(x1, y1), Start(Point(x0, y0), Point(x1, y1)));
      count := 0;
    }

    /** finished(): the point last returned is the end. Before any call that
        means a line of one point, which yields nothing; after a call it
        means the whole line has been returned. */
    predicate Finished()
      reads this
      requires Valid()
      ensures Finished() <==> (count == 0 && start == end) || (count > 0 && Returned() == Line(start, end))
    {
      assert count == |track| ==> Line(start, end)[..count] == Line(start, end);
      curr == end
    }

    /** next(): returns the next point of the line and steps nxt. */
    method Next() returns (r: Point)
      requires Valid() && !Finished()
      modifies this
      ensures Valid()
      ensures count == old(count) + 1 && r == Line(start, end)[old(count)] && r == curr
      ensures Returned() == old(Returned()) + [r]
    {
      assert count < |track|;
      ghost var c := track[count];
      curr := nxt;
      var e2 := 2 * err;
      if e2 >= dy {
        err := err + dy;
        nxt := nxt.(x := nxt.x + sx);
      }
      if e2 <= dx {
        err := err + dx;
        nxt := nxt.(y := nxt.y + sy);
      }
      count := count + 1;
      assert Cursor(nxt, err) == Step(Stepper(dx, dy, sx, sy), c);
      r := curr;
      assert Line(start, end)[..count] == Line(start, end)[..count - 1] + [r];
    }
  }
}
