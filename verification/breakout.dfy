/** The window breakout game: every brick, the bar and the ball are desktop
    windows. A window is a rectangle (its top-left corner and size) that can
    be decorated with a title bar and closed. The ball moves, bounces off the
    monitor's edges, and reflects off the bricks, which close when hit, and
    off the bar. */
module Breakout {
  import opened Basics

  const EnemyW: int := 100
  const EnemyH: int := 30
  const Gap: int := 10
  const MinPadding: int := 30
  const BallW: int := 60
  const BallH: int := 60
  const BarW: int := 200
  const BarH: int := 30
  const DecorationHeight: int := 29
  const EnemyRows: int := 5
  const BrickTop: int := 40
  const BarLift: int := 100

  // ------------------------------------------------------------- windows

  /** The fields of a window the game reads and writes; the GLFW handle and
      the fill colour are not modelled. */
  datatype Window = Window(width: int, height: int, pos: Vec2, decorated: bool, active: bool)

  /** `setPosition`. */
  function SetPosition(w: Window, p: Vec2): Window
  {
    w.(pos := p)
  }

  /** `move`: shift by `d`. */
  function Move(w: Window, d: Vec2): (r: Window)
    ensures r.pos.Sub(w.pos) == d
    ensures r == w.(pos := r.pos)
  {
    SetPosition(w, w.pos.Add(d))
  }

  /** `close`: the window is no longer active. */
  function Close(w: Window): Window
  {
    w.(active := false)
  }

  /** The `Window` constructor. A decorated window grows by the title bar's
      height and its `pos.y` is first raised by it, but the final
      `setPosition(pos)` uses the constructor's argument, so the window ends
      at the position it was given: its rectangle starts at the top of the
      title bar. */
  function MakeWindow(w: int, h: int, pos: Vec2, decorated: bool): (r: Window)
    ensures r.pos == pos && r.width == w && r.decorated == decorated && r.active
    ensures r.height == if decorated then h + DecorationHeight else h
  {
    var init := Window(w, h, pos, decorated, true);
    var adjusted := if decorated
                    then init.(pos := Vec2(pos.x, pos.y - DecorationHeight as real),
                               height := h + DecorationHeight)
                    else init;
    SetPosition(adjusted, pos)
  }

  // ----------------------------------------------------------- collisions

  datatype Collision = Left | Bottom | Top | Right | NoCollision

  /** The strict tests of `collide`: the rectangles are apart on some axis.
      Rectangles whose edges merely touch are not apart. */
  predicate Separated(a: Window, b: Window)
  {
    || a.pos.x + a.width as real < b.pos.x
    || a.pos.x > b.pos.x + b.width as real
    || a.pos.y + a.height as real < b.pos.y
    || a.pos.y > b.pos.y + b.height as real
  }

  /** The penetration `collide` computes on one axis for intervals starting
      at `l1` and `l2` with lengths `w1` and `w2`. */
  function AxisDepth(l1: real, w1: real, l2: real, w2: real): real
  {
    var d1 := Abs(l1 + w1 - l2);
    var d2 := Abs(l2 + w2 - l1);
    Min(Min(d1, d2), d1 + d2 - Max(w1, w2))
  }

  /** The length of the intersection of two intervals. */
  function Overlap(l1: real, w1: real, l2: real, w2: real): real
  {
    Min(l1 + w1, l2 + w2) - Max(l1, l2)
  }

  /** On intervals that meet, the depth `collide` computes is the length of
      their intersection, and it is never negative. */
  lemma AxisDepthIsOverlap(l1: real, w1: real, l2: real, w2: real)
    requires w1 >= 0.0 && w2 >= 0.0
    requires l1 + w1 >= l2 && l1 <= l2 + w2
    ensures AxisDepth(l1, w1, l2, w2) == Overlap(l1, w1, l2, w2) >= 0.0
  {
    var d1 := l1 + w1 - l2;
    var d2 := l2 + w2 - l1;
    assert Abs(d1) == d1 && Abs(d2) == d2;
    assert d1 + d2 - Max(w1, w2) == Min(w1, w2);
  }

  /** `collide(a, b)`: none exactly when the rectangles are apart; otherwise
      the axis of the smaller penetration decides (the vertical one when the
      horizontal depth is strictly larger), and the side is the one of the
      smaller distance, ties going to the top and to the left. */
  function Collide(a: Window, b: Window): (r: Collision)
    ensures r == NoCollision <==> Separated(a, b)
  {
    if Separated(a, b) then NoCollision
    else
      var dx := AxisDepth(a.pos.x, a.width as real, b.pos.x, b.width as real);
      var dy := AxisDepth(a.pos.y, a.height as real, b.pos.y, b.height as real);
      if dx > dy then
        var distT := a.pos.y + a.height as real - b.pos.y;
        var distB := b.pos.y + b.height as real - a.pos.y;
        if distT <= distB then Top else Bottom
      else
        var distL := a.pos.x + a.width as real - b.pos.x;
        var distR := b.pos.x + b.width as real - a.pos.x;
        if distL <= distR then Left else Right
  }

  predicate Sized(w: Window)
  {
    w.width >= 0 && w.height >= 0
  }

  /** For rectangles that meet, `collide` reports the top or bottom side
      exactly when they overlap more horizontally than vertically, and the
      side reported is the nearer one: for the top, `a`'s bottom edge is no
      further into `b` than `a`'s top edge is above `b`'s bottom, and so on. */
  lemma {:induction false} CollideByOverlap(a: Window, b: Window)
    requires Sized(a) && Sized(b) && !Separated(a, b)
    ensures var ox := Overlap(a.pos.x, a.width as real, b.pos.x, b.width as real);
      var oy := Overlap(a.pos.y, a.height as real, b.pos.y, b.height as real);
      var c := Collide(a, b);
      && ox >= 0.0 && oy >= 0.0
      && ((c == Top || c == Bottom) <==> ox > oy)
      && (c == Top ==> a.pos.y + a.height as real - b.pos.y <= b.pos.y + b.height as real - a.pos.y)
      && (c == Bottom ==> a.pos.y + a.height as real - b.pos.y > b.pos.y + b.height as real - a.pos.y)
      && (c == Left ==> a.pos.x + a.width as real - b.pos.x <= b.pos.x + b.width as real - a.pos.x)
      && (c == Right ==> a.pos.x + a.width as real - b.pos.x > b.pos.x + b.width as real - a.pos.x)
  {
    AxisDepthIsOverlap(a.pos.x, a.width as real, b.pos.x, b.width as real);
    AxisDepthIsOverlap(a.pos.y, a.height as real, b.pos.y, b.height as real);
  }

  /** The side of `b` as seen from `a` when the roles are swapped. */
  function Opposite(c: Collision): Collision
  {
    match c
    case Left => Right
    case Right => Left
    case Top => Bottom
    case Bottom => Top
    case NoCollision => NoCollision
  }

  /** Swapping the rectangles swaps the side, as long as neither distance
      comparison is a tie. */
  lemma {:induction false} CollideMirror(a: Window, b: Window)
    requires a.pos.x + a.width as real - b.pos.x != b.pos.x + b.width as real - a.pos.x
    requires a.pos.y + a.height as real - b.pos.y != b.pos.y + b.height as real - a.pos.y
    ensures Collide(b, a) == Opposite(Collide(a, b))
  {
    assert Separated(a, b) <==> Separated(b, a);
    assert AxisDepth(b.pos.x, b.width as real, a.pos.x, a.width as real)
        == AxisDepth(a.pos.x, a.width as real, b.pos.x, b.width as real);
    assert AxisDepth(b.pos.y, b.height as real, a.pos.y, a.height as real)
        == AxisDepth(a.pos.y, a.height as real, b.pos.y, b.height as real);
  }

  /** On a tie `collide` is not symmetric: a window against itself is hit
      on its left whichever way round. */
  lemma CollideTieNotMirrored()
    ensures var w := Window(10, 10, Vec2(0.0, 0.0), false, true);
      Collide(w, w) == Left && Opposite(Collide(w, w)) == Right
  {
    var w := Window(10, 10, Vec2(0.0, 0.0), false, true);
    assert !Separated(w, w);
    AxisDepthIsOverlap(0.0, 10.0, 0.0, 10.0);
    assert Overlap(0.0, 10.0, 0.0, 10.0) == 10.0;
  }

  // ----------------------------------------------------------- reflection

  /** `reflect` on values: the ball and the speed after the ball meets
      `obj`. The speed component across the side hit is turned away from
      `obj` and the ball is set flush against that side; nothing changes
      when they do not collide. */
  function Bounced(ball: Window, obj: Window, speed: Vec2): (r: (Window, Vec2))
    ensures r.0 == ball.(pos := r.0.pos)
    ensures Abs(r.1.x) == Abs(speed.x) && Abs(r.1.y) == Abs(speed.y)
    ensures match Collide(ball, obj)
      case NoCollision => r == (ball, speed)
      case Left =>
        && r.1 == Vec2(-Abs(speed.x), speed.y)
        && r.0.pos == Vec2(obj.pos.x - ball.width as real, ball.pos.y)
      case Right =>
        && r.1 == Vec2(Abs(speed.x), speed.y)
        && r.0.pos == Vec2(obj.pos.x + obj.width as real, ball.pos.y)
      case Top =>
        && r.1 == Vec2(speed.x, -Abs(speed.y))
        && r.0.pos == Vec2(ball.pos.x, obj.pos.y - ball.height as real)
      case Bottom =>
        && r.1 == Vec2(speed.x, Abs(speed.y))
        && r.0.pos == Vec2(ball.pos.x, obj.pos.y + obj.height as real)
  {
    match Collide(ball, obj)
    case Left => (SetPosition(ball, Vec2(obj.pos.x - ball.width as real, ball.pos.y)), speed.(x := -Abs(speed.x)))
    case Right => (SetPosition(ball, Vec2(obj.pos.x + obj.width as real, ball.pos.y)), speed.(x := Abs(speed.x)))
    case Top => (SetPosition(ball, Vec2(ball.pos.x, obj.pos.y - ball.height as real)), speed.(y := -Abs(speed.y)))
    case Bottom => (SetPosition(ball, Vec2(ball.pos.x, obj.pos.y + obj.height as real)), speed.(y := Abs(speed.y)))
    case NoCollision => (ball, speed)
  }

  /** After a hit the ball is flush against `obj`: the two still count as
      colliding, on the same side, and the speed already points away, so
      reflecting again changes nothing. */
  lemma {:induction false} BouncedIsStable(ball: Window, obj: Window, speed: Vec2)
    requires Sized(ball) && Sized(obj)
    requires Collide(ball, obj) != NoCollision
    ensures var (b, s) := Bounced(ball, obj, speed);
      && Collide(b, obj) == Collide(ball, obj)
      && Bounced(b, obj, s) == (b, s)
  {
    var (b, s) := Bounced(ball, obj, speed);
    CollideByOverlap(ball, obj);
    var ox := Overlap(ball.pos.x, ball.width as real, obj.pos.x, obj.width as real);
    var oy := Overlap(ball.pos.y, ball.height as real, obj.pos.y, obj.height as real);
    assert !Separated(b, obj);
    CollideByOverlap(b, obj);
    match Collide(ball, obj)
    case Left =>
      assert Overlap(b.pos.x, b.width as real, obj.pos.x, obj.width as real) == 0.0;
    case Right =>
      assert Overlap(b.pos.x, b.width as real, obj.pos.x, obj.width as real) == 0.0;
    case Top =>
      assert Overlap(b.pos.y, b.height as real, obj.pos.y, obj.height as real) == 0.0;
      assert Overlap(b.pos.x, b.width as real, obj.pos.x, obj.width as real) == ox > 0.0;
    case Bottom =>
      assert Overlap(b.pos.y, b.height as real, obj.pos.y, obj.height as real) == 0.0;
      assert Overlap(b.pos.x, b.width as real, obj.pos.x, obj.width as real) == ox > 0.0;
  }

  // --------------------------------------------------------- the monitor

  /** The wall step of the main loop: move by speed * dt, reverse each speed
      component whose coordinate left the monitor (below 0, or the far edge
      at or past the monitor's size), then clamp the ball onto the monitor
      with raylib's `Clamp`. */
  function WallStepped(ball: Window, speed: Vec2, monitorW: int, monitorH: int, dt: real): (r: (Window, Vec2))
    ensures r.0 == ball.(pos := r.0.pos)
    ensures Abs(r.1.x) == Abs(speed.x) && Abs(r.1.y) == Abs(speed.y)
    ensures monitorW >= ball.width ==> 0.0 <= r.0.pos.x <= (monitorW - ball.width) as real
    ensures monitorH >= ball.height ==> 0.0 <= r.0.pos.y <= (monitorH - ball.height) as real
  {
    var moved := Move(ball, speed.Scale(dt));
    var sx := if moved.pos.x < 0.0 || moved.pos.x + moved.width as real >= monitorW as real then -speed.x else speed.x;
    var sy := if moved.pos.y < 0.0 || moved.pos.y + moved.height as real >= monitorH as real then -speed.y else speed.y;
    var x := ClampReal(moved.pos.x, 0.0, (monitorW - moved.width) as real);
    var y := ClampReal(moved.pos.y, 0.0, (monitorH - moved.height) as real);
    (moved.(pos := Vec2(x, y)), Vec2(sx, sy))
  }

  /** A ball that stays strictly inside the monitor keeps its speed and is
      not clamped: it has simply moved. */
  lemma WallStepInside(ball: Window, speed: Vec2, monitorW: int, monitorH: int, dt: real)
    requires var p := ball.pos.Add(speed.Scale(dt));
      && 0.0 <= p.x && p.x + ball.width as real < monitorW as real
      && 0.0 <= p.y && p.y + ball.height as real < monitorH as real
    ensures WallStepped(ball, speed, monitorW, monitorH, dt) == (Move(ball, speed.Scale(dt)), speed)
  {
  }

  // ------------------------------------------------------------- bricks

  /** One brick of the sweep: an active brick the ball collides with
      reflects the ball and closes; an inactive brick is never tested. */
  function HitOne(ball: Window, speed: Vec2, brick: Window): (r: (Window, Vec2, Window))
    ensures r.2 == brick.(active := r.2.active)
    ensures r.2.active <==> brick.active && Collide(ball, brick) == NoCollision
    ensures (r.0, r.1) == if brick.active then Bounced(ball, brick, speed) else (ball, speed)
  {
    if brick.active then
      var (b, s) := Bounced(ball, brick, speed);
      (b, s, if Collide(ball, brick) != NoCollision then Close(brick) else brick)
    else (ball, speed, brick)
  }

  /** The inner loop over one row, left to right. */
  function SweepRow(ball: Window, speed: Vec2, row: seq<Window>): (r: (Window, Vec2, seq<Window>))
    ensures |r.2| == |row|
    ensures forall j :: 0 <= j < |row| ==> r.2[j] == row[j].(active := r.2[j].active)
    ensures forall j :: 0 <= j < |row| && r.2[j].active ==> row[j].active
    decreases |row|
  {
    if |row| == 0 then (ball, speed, [])
    else
      var (b, s, done) := SweepRow(ball, speed, row[..|row| - 1]);
      var (b', s', last) := HitOne(b, s, row[|row| - 1]);
      (b', s', done + [last])
  }

  /** The outer loop over the rows, top to bottom. */
  function SweepRows(ball: Window, speed: Vec2, rows: seq<seq<Window>>): (r: (Window, Vec2, seq<seq<Window>>))
    ensures |r.2| == |rows|
    ensures forall i :: 0 <= i < |rows| ==> |r.2[i]| == |rows[i]|
    ensures forall i, j :: 0 <= i < |rows| && 0 <= j < |rows[i]| ==>
      r.2[i][j] == rows[i][j].(active := r.2[i][j].active)
    ensures forall i, j :: 0 <= i < |rows| && 0 <= j < |rows[i]| && r.2[i][j].active ==> rows[i][j].active
    decreases |rows|
  {
    if |rows| == 0 then (ball, speed, [])
    else
      var (b, s, done) := SweepRows(ball, speed, rows[..|rows| - 1]);
      var (b', s', last) := SweepRow(b, s, rows[|rows| - 1]);
      (b', s', done + [last])
  }

  /** The sweep over one more brick is the sweep so far followed by that
      brick. */
  lemma SweepRowStep(ball: Window, speed: Vec2, row: seq<Window>, j: nat)
    requires j < |row|
    ensures var r := SweepRow(ball, speed, row[..j]);
      var h := HitOne(r.0, r.1, row[j]);
      SweepRow(ball, speed, row[..j + 1]) == (h.0, h.1, r.2 + [h.2])
  {
    assert row[..j + 1][..j] == row[..j];
  }

  function CountActive(row: seq<Window>): nat
  {
    if |row| == 0 then 0
    else CountActive(row[..|row| - 1]) + (if row[|row| - 1].active then 1 else 0)
  }

  function CountAllActive(rows: seq<seq<Window>>): nat
  {
    if |rows| == 0 then 0
    else CountAllActive(rows[..|rows| - 1]) + CountActive(rows[|rows| - 1])
  }

  /** A row in which no brick became active has no more active bricks. */
  lemma {:induction false} CountActiveMonotone(before: seq<Window>, after: seq<Window>)
    requires |after| == |before|
    requires forall j :: 0 <= j < |after| && after[j].active ==> before[j].active
    ensures CountActive(after) <= CountActive(before)
  {
    if |after| > 0 {
      CountActiveMonotone(before[..|before| - 1], after[..|after| - 1]);
    }
  }

  lemma {:induction false} CountAllActiveMonotone(before: seq<seq<Window>>, after: seq<seq<Window>>)
    requires |after| == |before|
    requires forall i :: 0 <= i < |after| ==> |after[i]| == |before[i]|
    requires forall i, j :: 0 <= i < |after| && 0 <= j < |after[i]| && after[i][j].active ==> before[i][j].active
    ensures CountAllActive(after) <= CountAllActive(before)
  {
    if |after| > 0 {
      var k := |after| - 1;
      CountAllActiveMonotone(before[..k], after[..k]);
      CountActiveMonotone(before[k], after[k]);
    }
  }

  /** A sweep over the bricks never raises the number of active bricks. */
  lemma SweepNeverReopens(ball: Window, speed: Vec2, rows: seq<seq<Window>>)
    ensures CountAllActive(SweepRows(ball, speed, rows).2) <= CountAllActive(rows)
  {
    CountAllActiveMonotone(rows, SweepRows(ball, speed, rows).2);
  }

  // ------------------------------------------------------------- layout

  /** `enemies_width_count`: as many bricks and gaps as fit once both
      minimum margins are taken off (the gap after the last brick is given
      back). */
  function Columns(monitorW: int): int
  {
    Trunc((monitorW + Gap - MinPadding * 2) as real / (EnemyW + Gap) as real)
  }

  lemma ColumnsFit(monitorW: int)
    requires monitorW >= MinPadding * 2 - Gap
    ensures var n := Columns(monitorW);
      && 0 <= n
      && (EnemyW + Gap) * n <= monitorW + Gap - MinPadding * 2 < (EnemyW + Gap) * (n + 1)
  {
    var m := monitorW + Gap - MinPadding * 2;
    TruncOfQuotient(m, EnemyW + Gap);
    assert Columns(monitorW) == m / 110;
  }

  /** `padding` as the program computes it: half of what is left after the
      bricks, their gaps, and one more gap. */
  function PaddingAsWritten(monitorW: int, n: int): int
  {
    Trunc((monitorW - (EnemyW + Gap) * n - Gap) as real / 2.0)
  }

  /** The left margin that centres the row: the row spans n bricks and
      n - 1 gaps. */
  function Padding(monitorW: int, n: int): int
  {
    Trunc((monitorW - (EnemyW + Gap) * n + Gap) as real / 2.0)
  }

  /** With the centring margin, both margins are at least the minimum and
      differ by at most one unit. */
  lemma {:induction false} PaddingCentres(monitorW: int)
    requires monitorW >= MinPadding * 2 - Gap
    ensures var n := Columns(monitorW);
      var left := Padding(monitorW, n);
      var right := monitorW - (left + (EnemyW + Gap) * n - Gap);
      && left >= MinPadding && right >= MinPadding
      && 0 <= right - left <= 1
  {
    var n := Columns(monitorW);
    ColumnsFit(monitorW);
    var free := monitorW - (EnemyW + Gap) * n + Gap;
    assert free >= MinPadding * 2;
    TruncOfQuotient(free, 2);
    assert Padding(monitorW, n) == free / 2;
  }

  /** The margin as written leaves the right margin two gaps wider than the
      left one, and on a 1920-wide monitor the left margin is below the
      minimum. */
  lemma {:induction false} PaddingAsWrittenOffCentre(monitorW: int)
    requires monitorW >= MinPadding * 2 - Gap
    ensures var n := Columns(monitorW);
      var left := PaddingAsWritten(monitorW, n);
      var right := monitorW - (left + (EnemyW + Gap) * n - Gap);
      2 * Gap <= right - left <= 2 * Gap + 1
  {
    var n := Columns(monitorW);
    ColumnsFit(monitorW);
    var free := monitorW - (EnemyW + Gap) * n - Gap;
    assert free >= MinPadding * 2 - 2 * Gap;
    TruncOfQuotient(free, 2);
    assert PaddingAsWritten(monitorW, n) == free / 2;
  }

  lemma PaddingAsWrittenOn1920()
    ensures Columns(1920) == 17
    ensures PaddingAsWritten(1920, 17) == 20 < MinPadding
    ensures Padding(1920, 17) == 30
  {
    TruncOfQuotient(1870, 110);
    TruncOfQuotient(40, 2);
    TruncOfQuotient(60, 2);
  }

  /** The brick at (row, col): a decorated window, so its rectangle is the
      title bar and the body together; rows are one such height and a gap
      apart. */
  function BrickAt(padding: int, row: int, col: int): Window
  {
    MakeWindow(EnemyW, EnemyH,
               Vec2((padding + (EnemyW + Gap) * col) as real,
                    (BrickTop + (EnemyH + DecorationHeight + Gap) * row) as real),
               true)
  }

  /** Distinct bricks of the layout are a gap apart: `collide` never
      reports a contact between two of them. */
  lemma {:induction false} BricksApart(padding: int, r1: int, c1: int, r2: int, c2: int)
    requires (r1, c1) != (r2, c2)
    ensures Collide(BrickAt(padding, r1, c1), BrickAt(padding, r2, c2)) == NoCollision
  {
    var a := BrickAt(padding, r1, c1);
    var b := BrickAt(padding, r2, c2);
    assert a.width == EnemyW && a.height == EnemyH + DecorationHeight;
    assert b.width == EnemyW && b.height == EnemyH + DecorationHeight;
    if c1 < c2 {
      assert (EnemyW + Gap) * c2 >= (EnemyW + Gap) * c1 + (EnemyW + Gap);
    } else if c2 < c1 {
      assert (EnemyW + Gap) * c1 >= (EnemyW + Gap) * c2 + (EnemyW + Gap);
    } else if r1 < r2 {
      assert (EnemyH + DecorationHeight + Gap) * r2 >= (EnemyH + DecorationHeight + Gap) * r1 + (EnemyH + DecorationHeight + Gap);
    } else {
      assert (EnemyH + DecorationHeight + Gap) * r1 >= (EnemyH + DecorationHeight + Gap) * r2 + (EnemyH + DecorationHeight + Gap);
    }
  }

  /** The bricks of a new game: five rows of `Columns` bricks, placed from
      the margin the program computes. A width whose brick count is
      negative is excluded; there `std::vector` refuses the size. */
  function Layout(monitorW: int): (rows: seq<seq<Window>>)
    requires Columns(monitorW) >= 0
    ensures |rows| == EnemyRows
    ensures forall r :: 0 <= r < EnemyRows ==> |rows[r]| == Columns(monitorW)
    ensures forall r, c :: 0 <= r < EnemyRows && 0 <= c < Columns(monitorW) ==>
      rows[r][c] == BrickAt(PaddingAsWritten(monitorW, Columns(monitorW)), r, c)
  {
    var n := Columns(monitorW);
    seq(EnemyRows, r => seq(n, c => BrickAt(PaddingAsWritten(monitorW, n), r, c)))
  }

  /** The layout the margin computation evidently intends: the same bricks
      shifted so that the row is centred, with both margins at least
      `MIN_PADDING`. */
  function CentredLayout(monitorW: int): (rows: seq<seq<Window>>)
    requires monitorW >= MinPadding * 2 - Gap
    ensures |rows| == EnemyRows
    ensures forall r :: 0 <= r < EnemyRows ==> |rows[r]| == Columns(monitorW)
    ensures forall r, c :: 0 <= r < EnemyRows && 0 <= c < Columns(monitorW) ==>
      && MinPadding as real <= rows[r][c].pos.x
      && rows[r][c].pos.x + EnemyW as real <= (monitorW - MinPadding) as real
  {
    ColumnsFit(monitorW);
    PaddingCentres(monitorW);
    var n := Columns(monitorW);
    var rows := seq(EnemyRows, r => seq(n, c => BrickAt(Padding(monitorW, n), r, c)));
    rows
  }

  /** The bar: centred, 100 units above the bottom, decorated. */
  function StartBar(monitorW: int, monitorH: int): Window
  {
    MakeWindow(BarW, BarH, Vec2((monitorW - BarW) as real / 2.0, (monitorH - BarH - BarLift) as real), true)
  }

  /** The ball: centred, resting on the bar, undecorated. */
  function StartBall(monitorW: int, monitorH: int): Window
  {
    var bar := StartBar(monitorW, monitorH);
    MakeWindow(BallW, BallH, Vec2((monitorW - BallW) as real / 2.0, bar.pos.y - BallH as real), false)
  }

  /** At the start the ball sits on the bar's top edge, which already
      counts as a collision on the bar's top. */
  lemma {:induction false} BallStartsOnBar(monitorW: int, monitorH: int)
    ensures Collide(StartBall(monitorW, monitorH), StartBar(monitorW, monitorH)) == Top
  {
    var ball := StartBall(monitorW, monitorH);
    var bar := StartBar(monitorW, monitorH);
    assert ball.pos.y + ball.height as real == bar.pos.y;
    assert ball.pos.x - bar.pos.x == 70.0;
    assert AxisDepth(ball.pos.x, 60.0, bar.pos.x, 200.0) == 60.0;
    assert AxisDepth(ball.pos.y, 60.0, bar.pos.y, 59.0) == 0.0;
  }

  // --------------------------------------------------------------- game

  /** One pass of the main loop on values: the wall step, the sweep over
      the bricks, then the reflection off the bar. */
  function Frame(ball: Window, speed: Vec2, bricks: seq<seq<Window>>, bar: Window,
                 monitorW: int, monitorH: int, dt: real): (r: (Window, Vec2, seq<seq<Window>>))
    ensures CountAllActive(r.2) <= CountAllActive(bricks)
  {
    var (b1, s1) := WallStepped(ball, speed, monitorW, monitorH, dt);
    var (b2, s2, bricks2) := SweepRows(b1, s1, bricks);
    SweepNeverReopens(b1, s1, bricks);
    var (b3, s3) := Bounced(b2, bar, s2);
    (b3, s3, bricks2)
  }

  /** The game's state: the ball and its speed, the bar, the bricks and the
      monitor size. */
  class Game {
    var ball: Window
    var ballSpeed: Vec2
    var bar: Window
    var bricks: seq<seq<Window>>
    const monitorW: int
    const monitorH: int

    /** The set-up of `main`; a width whose brick count is negative is
        excluded, since `std::vector` refuses that size. */
    constructor (w: int, h: int)
      requires Columns(w) >= 0
      ensures monitorW == w && monitorH == h
      ensures bricks == Layout(w)
      ensures bar == StartBar(w, h) && ball == StartBall(w, h)
      ensures ballSpeed == Vec2(450.0, 450.0)
    {
      monitorW, monitorH := w, h;
      var n := Columns(w);
      var padding := PaddingAsWritten(w, n);
      var rows: seq<seq<Window>> := [];
      for row := 0 to EnemyRows
        invariant |rows| == row
        invariant forall r :: 0 <= r < row ==> rows[r] == seq(n, c => BrickAt(padding, r, c))
      {
        var line: seq<Window> := [];
        for col := 0 to n
          invariant line == seq(col, c => BrickAt(padding, row, c))
        {
          line := line + [BrickAt(padding, row, col)];
        }
        rows := rows + [line];
      }
      bricks := rows;
      var theBar := StartBar(w, h);
      bar := theBar;
      ball := MakeWindow(BallW, BallH, Vec2((w - BallW) as real / 2.0, theBar.pos.y - BallH as real), false);
      ballSpeed := Vec2(450.0, 450.0);
    }

    /** `reflect(ball, obj, ball_speed)`: reports whether they collide and
        updates the ball and the speed as `Bounced` says. */
    method Reflect(obj: Window) returns (hit: bool)
      modifies this
      ensures hit <==> Collide(old(ball), obj) != NoCollision
      ensures (ball, ballSpeed) == Bounced(old(ball), obj, old(ballSpeed))
      ensures bar == old(bar) && bricks == old(bricks)
    {
      match Collide(ball, obj)
      case Left =>
        ballSpeed := ballSpeed.(x := -Abs(ballSpeed.x));
        ball := SetPosition(ball, Vec2(obj.pos.x - ball.width as real, ball.pos.y));
        hit := true;
      case Right =>
        ballSpeed := ballSpeed.(x := Abs(ballSpeed.x));
        ball := SetPosition(ball, Vec2(obj.pos.x + obj.width as real, ball.pos.y));
        hit := true;
      case Top =>
        ballSpeed := ballSpeed.(y := -Abs(ballSpeed.y));
        ball := SetPosition(ball, Vec2(ball.pos.x, obj.pos.y - ball.height as real));
        hit := true;
      case Bottom =>
        ballSpeed := ballSpeed.(y := Abs(ballSpeed.y));
        ball := SetPosition(ball, Vec2(ball.pos.x, obj.pos.y + obj.height as real));
        hit := true;
      case NoCollision =>
        hit := false;
    }

    /** Move the ball, bounce it off the monitor's edges and clamp it. */
    method WallStep(dt: real)
      modifies this
      ensures (ball, ballSpeed) == WallStepped(old(ball), old(ballSpeed), monitorW, monitorH, dt)
      ensures bar == old(bar) && bricks == old(bricks)
    {
      ball := Move(ball, ballSpeed.Scale(dt));
      if ball.pos.x < 0.0 || ball.pos.x + ball.width as real >= monitorW as real {
        ballSpeed := ballSpeed.(x := -ballSpeed.x);
      }
      if ball.pos.y < 0.0 || ball.pos.y + ball.height as real >= monitorH as real {
        ballSpeed := ballSpeed.(y := -ballSpeed.y);
      }
      ball := ball.(pos := ball.pos.(x := ClampReal(ball.pos.x, 0.0, (monitorW - ball.width) as real)));
      ball := ball.(pos := ball.pos.(y := ClampReal(ball.pos.y, 0.0, (monitorH - ball.height) as real)));
    }

    /** The brick loop: each active brick is reflected off and, when hit,
        closed, row by row and left to right. */
    method HitBricks()
      modifies this
      ensures (ball, ballSpeed, bricks) == SweepRows(old(ball), old(ballSpeed), old(bricks))
      ensures bar == old(bar)
    {
      for i := 0 to |bricks|
        invariant |bricks| == |old(bricks)| && bar == old(bar)
        invariant bricks[i..] == old(bricks)[i..]
        invariant (ball, ballSpeed, bricks[..i]) == SweepRows(old(ball), old(ballSpeed), old(bricks)[..i])
      {
        ghost var before := bricks;
        HitRow(i);
        assert old(bricks)[..i + 1][..i] == old(bricks)[..i];
        assert bricks[..i + 1] == bricks[..i] + [bricks[i]];
        assert bricks[i + 1..] == before[i + 1..];
      }
      assert bricks == bricks[..|bricks|];
      assert old(bricks) == old(bricks)[..|old(bricks)|];
    }

    /** The body of the inner loop: an active brick reflects the ball and
        is closed when the ball touched it. */
    method VisitBrick(i: nat, j: nat)
      requires i < |bricks| && j < |bricks[i]|
      modifies this
      ensures var h := HitOne(old(ball), old(ballSpeed), old(bricks)[i][j]);
        && (ball, ballSpeed) == (h.0, h.1)
        && bricks == old(bricks)[i := old(bricks)[i][j := h.2]]
      ensures bar == old(bar)
    {
      var brick := bricks[i][j];
      if brick.active {
        var hit := Reflect(brick);
        if hit {
          bricks := bricks[i := bricks[i][j := Close(brick)]];
        }
      }
      assert old(bricks)[i][j := brick] == old(bricks)[i];
    }

    /** The inner loop, over row `i`. */
    method HitRow(i: nat)
      requires i < |bricks|
      modifies this
      ensures var r := SweepRow(old(ball), old(ballSpeed), old(bricks)[i]);
        && (ball, ballSpeed) == (r.0, r.1)
        && bricks == old(bricks)[i := r.2]
      ensures bar == old(bar)
    {
      for j := 0 to |bricks[i]|
        invariant |bricks| == |old(bricks)| && bar == old(bar)
        invariant bricks == old(bricks)[i := bricks[i]]
        invariant |bricks[i]| == |old(bricks)[i]|
        invariant bricks[i][j..] == old(bricks)[i][j..]
        invariant (ball, ballSpeed, bricks[i][..j]) == SweepRow(old(ball), old(ballSpeed), old(bricks)[i][..j])
      {
        SweepRowStep(old(ball), old(ballSpeed), old(bricks)[i], j);
        ghost var h := HitOne(ball, ballSpeed, bricks[i][j]);
        ghost var row := bricks[i];
        ghost var done := row[..j];
        assert row[j + 1..] == old(bricks)[i][j + 1..] by {
          assert row[j + 1..] == row[j..][1..];
          assert old(bricks)[i][j + 1..] == old(bricks)[i][j..][1..];
        }
        VisitBrick(i, j);
        assert bricks[i][j + 1..] == row[j + 1..];
        assert bricks[i][..j] == done;
        assert bricks[i][..j + 1] == done + [h.2];
      }
      assert bricks[i] == bricks[i][..|bricks[i]|];
      assert old(bricks)[i] == old(bricks)[i][..|old(bricks)[i]|];
    }

    /** One pass of the main loop. */
    method Tick(dt: real)
      modifies this
      ensures (ball, ballSpeed, bricks) == Frame(old(ball), old(ballSpeed), old(bricks), bar, monitorW, monitorH, dt)
      ensures bar == old(bar)
    {
      WallStep(dt);
      HitBricks();
      var _ := Reflect(bar);
    }
  }
}
