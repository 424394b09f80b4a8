/** The grid raycaster shared, line for line, by the two raycasting demos:
    the 8x8 occupancy board, angle normalisation, the two grid marches of
    `cast_ray`, the fan of rays across the field of view, and the projection
    of each hit onto a screen column. The demos differ only in the cell size
    (100 and 80 world units) and the screen, which are parameters here. The
    tangent of the ray direction and the cosine and sine of the heading are
    supplied by the caller: trigonometry is not modelled. */
module Raycast {
  import opened Basics

  const BoardW: int := 8
  const BoardH: int := 8

  /** `board[x][y]`: 0 is empty, anything else a wall material. */
  const Board: seq<seq<int>> := [
    [1, 1, 1, 1, 1, 1, 1, 1],
    [1, 0, 0, 0, 0, 0, 0, 1],
    [1, 0, 2, 0, 0, 0, 1, 1],
    [1, 2, 2, 0, 0, 0, 0, 1],
    [1, 0, 0, 0, 0, 0, 0, 1],
    [1, 0, 0, 0, 1, 0, 0, 1],
    [1, 0, 1, 0, 0, 0, 0, 1],
    [1, 1, 1, 1, 1, 1, 1, 1]
  ]

  const TwoPi: real := 2.0 * PI

  /** `correct_cell`: exactly the coordinates at which `board` may be read. */
  predicate CorrectCell(x: int, y: int)
    ensures CorrectCell(x, y) <==> 0 <= x < |Board| && 0 <= y < |Board[x]|
  {
    (x >= 0 && x < BoardW) && (y >= 0 && y < BoardH)
  }

  // ---------------------------------------------------------------- angles

  function Turns(n: int): real
  {
    n as real * TwoPi
  }

  /** What `fix_angle` promises of its result `r` for the input `a`: `r` lies
      in [-PI, PI], differs from `a` by whole turns, is `a` itself when `a` is
      already in range, and reaches the bound -PI (resp. PI) only when `a`
      was below (resp. above) the range. */
  ghost predicate FixedAngle(a: real, r: real)
  {
    && -PI <= r <= PI
    && (a > PI ==> -PI < r)
    && (a < -PI ==> r < PI)
    && (-PI <= a <= PI ==> r == a)
    && exists n: int {:trigger Turns(n)} :: r == a + Turns(n)
  }

  /** `fix_angle`: subtract whole turns while above PI, then add them while
      below -PI. */
  method FixAngle(angle: real) returns (r: real)
    ensures FixedAngle(angle, r)
  {
    r := angle;
    ghost var n := 0;
    while r > PI
      invariant r == angle + Turns(n)
      invariant angle > PI ==> r > -PI
      invariant angle <= PI ==> r == angle
      decreases r.Floor
    {
      r := r - 2.0 * PI;
      n := n - 1;
    }
    while r < -PI
      invariant r == angle + Turns(n)
      invariant r <= PI
      invariant angle > PI ==> r > -PI
      invariant angle < -PI ==> r < PI
      invariant -PI <= angle <= PI ==> r == angle
      decreases (-r).Floor
    {
      r := r + 2.0 * PI;
      n := n + 1;
    }
  }

  lemma TurnsDifference(a: int, b: int)
    ensures Turns(a) - Turns(b) == Turns(a - b)
  {
  }

  /** Two angles within one closed turn of each other that differ by whole
      turns differ by at most one turn. */
  lemma {:induction false} TurnsWithinOne(m: int)
    requires -TwoPi <= Turns(m) <= TwoPi
    ensures -1 <= m <= 1
    ensures m == 1 ==> Turns(m) == TwoPi
    ensures m == -1 ==> Turns(m) == -TwoPi
  {
    TurnsOutside(m);
  }

  lemma TurnsOutside(m: int)
    ensures m >= 2 ==> Turns(m) >= 2.0 * TwoPi
    ensures m <= -2 ==> Turns(m) <= -2.0 * TwoPi
  {
    if m >= 2 {
      assert Turns(m) == 2.0 * TwoPi + (m - 2) as real * TwoPi;
    } else if m <= -2 {
      assert Turns(m) == -2.0 * TwoPi - (-m - 2) as real * TwoPi;
    }
  }

  /** The result of `fix_angle` is determined by its input. */
  lemma {:induction false} FixedAngleUnique(a: real, r1: real, r2: real)
    requires FixedAngle(a, r1) && FixedAngle(a, r2)
    ensures r1 == r2
  {
    var n1 :| r1 == a + Turns(n1);
    var n2 :| r2 == a + Turns(n2);
    TurnsDifference(n1, n2);
    TurnsWithinOne(n1 - n2);
  }

  /** Adding a full turn to the direction does not change the normalised
      angle, except at the bound: -PI stays -PI while -PI + 2PI = PI stays PI. */
  lemma {:induction false} FixedAnglePeriodic(a: real, r1: real, r2: real)
    requires FixedAngle(a, r1) && FixedAngle(a + TwoPi, r2)
    requires r1 != -PI
    ensures r1 == r2
  {
    var n1 :| r1 == a + Turns(n1);
    var n2 :| r2 == a + TwoPi + Turns(n2);
    assert r2 == a + Turns(n2 + 1);
    TurnsDifference(n2 + 1, n1);
    TurnsWithinOne(n2 + 1 - n1);
  }

  /** The exception above is real: -PI is normalised to itself, -PI + 2PI to
      PI. */
  lemma FixedAngleBoundary()
    ensures FixedAngle(-PI, -PI) && FixedAngle(-PI + TwoPi, PI)
  {
    assert -PI == -PI + Turns(0);
    assert PI == (-PI + TwoPi) + Turns(0);
  }

  // ---------------------------------------------------------------- probes

  /** `hit_t`: where a ray crosses a grid line, the cell it reports, whether
      the crossed line is horizontal, and the (normalised) ray angle. */
  datatype Hit = Hit(pos: Vec2, cellX: int, cellY: int, isHorizontal: bool, angle: real)

  /** A search ends on a probe whose cell is off the board or not empty. */
  predicate Stops(h: Hit)
  {
    !CorrectCell(h.cellX, h.cellY) || Board[h.cellX][h.cellY] != 0
  }

  predicate FacesEast(dir: real)
  {
    dir > -PI / 2.0 && dir < PI / 2.0
  }

  predicate FacesNorth(dir: real)
  {
    dir > -PI && dir < 0.0
  }

  /** The index of the grid line crossed by probe `k`: `shift` past the
      origin's cell, then `k` lines further in the direction of travel. */
  function GridLine(origin: real, cs: nat, shift: int, forward: bool, k: nat): int
    requires cs > 0
  {
    Trunc(origin / cs as real) + shift + (if forward then k as int else -(k as int))
  }

  /** Probe `k` of the vertical search: the crossing with the k-th vertical
      grid line in the ray's horizontal direction. */
  function ProbeV(cs: nat, pos: Vec2, dir: real, slope: real, k: nat): Hit
    requires cs > 0
  {
    var shift := if FacesEast(dir) then 1 else 0;
    var dx := GridLine(pos.x, cs, shift, FacesEast(dir), k) as real * cs as real - pos.x;
    var hit := Vec2(dx + pos.x, dx * slope + pos.y);
    Hit(hit, Trunc(hit.x / cs as real) + shift - 1, Trunc(hit.y / cs as real), false, dir)
  }

  /** Probe `k` of the horizontal search. The source divides by the slope;
      a zero slope is handled by `CastRay` before any horizontal probe. */
  function ProbeH(cs: nat, pos: Vec2, dir: real, slope: real, k: nat): Hit
    requires cs > 0 && slope != 0.0
  {
    var shift := if FacesNorth(dir) then 0 else 1;
    var dy := GridLine(pos.y, cs, shift, !FacesNorth(dir), k) as real * cs as real - pos.y;
    var hit := Vec2(dy / slope + pos.x, dy + pos.y);
    Hit(hit, Trunc(hit.x / cs as real), Trunc(hit.y / cs as real) + shift - 1, true, dir)
  }

  lemma WholeCells(line: int, cs: nat)
    requires cs > 0
    ensures Trunc((line as real * cs as real) / cs as real) == line
  {
    assert (line as real * cs as real) / cs as real == line as real;
  }

  /** Under exact arithmetic the k-th vertical probe reports column
      cell_x + k + 1 facing east and cell_x - k - 1 facing west. */
  lemma {:induction false} ProbeVColumn(cs: nat, pos: Vec2, dir: real, slope: real, k: nat)
    requires cs > 0
    ensures ProbeV(cs, pos, dir, slope, k).cellX ==
      if FacesEast(dir) then Trunc(pos.x / cs as real) + k + 1 else Trunc(pos.x / cs as real) - k - 1
  {
    var t := Trunc(pos.x / cs as real);
    var h := ProbeV(cs, pos, dir, slope, k);
    if FacesEast(dir) {
      var line := t + 1 + k;
      assert h.pos.x == line as real * cs as real;
      WholeCells(line, cs);
      assert h.cellX == line;
    } else {
      var line := t - k;
      assert h.pos.x == line as real * cs as real;
      WholeCells(line, cs);
      assert h.cellX == line - 1;
    }
  }

  /** Likewise the k-th horizontal probe reports row cell_y - k - 1 facing
      north (negative angles) and cell_y + k + 1 otherwise. */
  lemma {:induction false} ProbeHRow(cs: nat, pos: Vec2, dir: real, slope: real, k: nat)
    requires cs > 0 && slope != 0.0
    ensures ProbeH(cs, pos, dir, slope, k).cellY ==
      if FacesNorth(dir) then Trunc(pos.y / cs as real) - k - 1 else Trunc(pos.y / cs as real) + k + 1
  {
    var t := Trunc(pos.y / cs as real);
    var h := ProbeH(cs, pos, dir, slope, k);
    if FacesNorth(dir) {
      var line := t - k;
      assert h.pos.y == line as real * cs as real;
      WholeCells(line, cs);
      assert h.cellY == line - 1;
    } else {
      var line := t + 1 + k;
      assert h.pos.y == line as real * cs as real;
      WholeCells(line, cs);
      assert h.cellY == line;
    }
  }

  /** Probe `k` is where the search ends: it stops there and at no earlier
      probe. Such a `k` never exceeds the board width. */
  ghost predicate FirstStopV(cs: nat, pos: Vec2, dir: real, slope: real, k: nat)
    requires cs > 0
  {
    && k <= BoardW
    && Stops(ProbeV(cs, pos, dir, slope, k))
    && forall j: nat :: j < k ==> !Stops(ProbeV(cs, pos, dir, slope, j))
  }

  ghost predicate FirstStopH(cs: nat, pos: Vec2, dir: real, slope: real, k: nat)
    requires cs > 0 && slope != 0.0
  {
    && k <= BoardH
    && Stops(ProbeH(cs, pos, dir, slope, k))
    && forall j: nat :: j < k ==> !Stops(ProbeH(cs, pos, dir, slope, j))
  }

  /** Whatever the position, direction and slope, the vertical search stops
      within BoardW + 1 probes: once the column index leaves [0, BoardW)
      the probe is off the board. */
  lemma {:induction false} VerticalSearchEnds(cs: nat, pos: Vec2, dir: real, slope: real)
    requires cs > 0
    ensures exists k: nat :: k <= BoardW && Stops(ProbeV(cs, pos, dir, slope, k))
  {
    var c := Trunc(pos.x / cs as real);
    var k: nat;
    if FacesEast(dir) {
      k := if 0 <= c + 1 < BoardW then BoardW - 1 - c else 0;
    } else {
      k := if 0 <= c - 1 < BoardW then c else 0;
    }
    ProbeVColumn(cs, pos, dir, slope, k);
    assert Stops(ProbeV(cs, pos, dir, slope, k));
  }

  /** A vertical search that has not stopped at probes 0..k is still inside
      the board, so k < BoardW: the bound that makes the march terminate. */
  lemma {:induction false} OpenProbesBoundV(cs: nat, pos: Vec2, dir: real, slope: real, k: nat)
    requires cs > 0
    requires !Stops(ProbeV(cs, pos, dir, slope, 0)) && !Stops(ProbeV(cs, pos, dir, slope, k))
    ensures k < BoardW
  {
    ProbeVColumn(cs, pos, dir, slope, 0);
    ProbeVColumn(cs, pos, dir, slope, k);
  }

  lemma {:induction false} OpenProbesBoundH(cs: nat, pos: Vec2, dir: real, slope: real, k: nat)
    requires cs > 0 && slope != 0.0
    requires !Stops(ProbeH(cs, pos, dir, slope, 0)) && !Stops(ProbeH(cs, pos, dir, slope, k))
    ensures k < BoardH
  {
    ProbeHRow(cs, pos, dir, slope, 0);
    ProbeHRow(cs, pos, dir, slope, k);
  }

  /** The horizontal hit is taken only when it is strictly nearer to the
      origin than the vertical one; ties go to the vertical hit. */
  function Nearer(pos: Vec2, h: Hit, v: Hit): Hit
  {
    if h.pos.Sub(pos).LengthSq() < v.pos.Sub(pos).LengthSq() then h else v
  }

  /** What `cast_ray` returns for origin `pos` and direction `dir`, given the
      tangent function: the normalised angle, then the first stopping probe
      of each search and the nearer of the two. When the tangent is exactly
      zero the horizontal search divides by zero in the source and lands at
      infinity, so the vertical hit is returned. */
  ghost predicate IsRayHit(cs: nat, pos: Vec2, dir: real, tan: real -> real, r: Hit)
    requires cs > 0
  {
    && FixedAngle(dir, r.angle)
    && exists kv: nat :: ChosenHit(cs, pos, r.angle, tan(r.angle), kv, r)
  }

  /** The vertical search ends at probe `kv`, and `r` is its hit or, for a
      non-zero slope, the nearer of it and the horizontal search's hit. */
  ghost predicate ChosenHit(cs: nat, pos: Vec2, d: real, slope: real, kv: nat, r: Hit)
    requires cs > 0
  {
    && FirstStopV(cs, pos, d, slope, kv)
    && if slope == 0.0 then r == ProbeV(cs, pos, d, slope, kv)
       else exists kh: nat :: (FirstStopH(cs, pos, d, slope, kh) &&
              r == Nearer(pos, ProbeH(cs, pos, d, slope, kh), ProbeV(cs, pos, d, slope, kv)))
  }

  /** The vertical search of `cast_ray`: step from grid line to grid line
      until a probe stops, and report that probe and its index. */
  method SearchV(cs: nat, pos: Vec2, d: real, slope: real) returns (kv: nat, v: Hit)
    requires cs > 0
    ensures FirstStopV(cs, pos, d, slope, kv) && v == ProbeV(cs, pos, d, slope, kv)
  {
    kv := 0;
    v := ProbeV(cs, pos, d, slope, kv);
    while !Stops(v)
      invariant kv <= BoardW
      invariant v == ProbeV(cs, pos, d, slope, kv)
      invariant forall j: nat :: j < kv ==> !Stops(ProbeV(cs, pos, d, slope, j))
      decreases BoardW - kv
    {
      OpenProbesBoundV(cs, pos, d, slope, kv);
      kv := kv + 1;
      v := ProbeV(cs, pos, d, slope, kv);
    }
  }

  /** The horizontal search of `cast_ray`, likewise. */
  method SearchH(cs: nat, pos: Vec2, d: real, slope: real) returns (kh: nat, h: Hit)
    requires cs > 0 && slope != 0.0
    ensures FirstStopH(cs, pos, d, slope, kh) && h == ProbeH(cs, pos, d, slope, kh)
  {
    kh := 0;
    h := ProbeH(cs, pos, d, slope, kh);
    while !Stops(h)
      invariant kh <= BoardH
      invariant h == ProbeH(cs, pos, d, slope, kh)
      invariant forall j: nat :: j < kh ==> !Stops(ProbeH(cs, pos, d, slope, j))
      decreases BoardH - kh
    {
      OpenProbesBoundH(cs, pos, d, slope, kh);
      kh := kh + 1;
      h := ProbeH(cs, pos, d, slope, kh);
    }
  }

  /** `cast_ray`: both searches, then the nearer of their hits, the vertical
      one on a tie; with a zero slope only the vertical search counts. */
  method CastRay(cs: nat, pos: Vec2, dir: real, tan: real -> real) returns (hit: Hit)
    requires cs > 0
    ensures IsRayHit(cs, pos, dir, tan, hit)
    ensures Stops(hit) && -PI <= hit.angle <= PI
  {
    var d := FixAngle(dir);
    var slope := tan(d);

    var kv, v := SearchV(cs, pos, d, slope);

    if slope == 0.0 {
      hit := v;
      assert ChosenHit(cs, pos, d, slope, kv, hit);
      return;
    }

    var kh, h := SearchH(cs, pos, d, slope);

    if h.pos.Sub(pos).LengthSq() < v.pos.Sub(pos).LengthSq() {
      hit := h;
    } else {
      hit := v;
    }
    assert hit == Nearer(pos, ProbeH(cs, pos, d, slope, kh), ProbeV(cs, pos, d, slope, kv));
    assert ChosenHit(cs, pos, d, slope, kv, hit);
  }

  lemma {:induction false} FirstStopVUnique(cs: nat, pos: Vec2, dir: real, slope: real, k1: nat, k2: nat)
    requires cs > 0
    requires FirstStopV(cs, pos, dir, slope, k1) && FirstStopV(cs, pos, dir, slope, k2)
    ensures k1 == k2
  {
  }

  lemma {:induction false} FirstStopHUnique(cs: nat, pos: Vec2, dir: real, slope: real, k1: nat, k2: nat)
    requires cs > 0 && slope != 0.0
    requires FirstStopH(cs, pos, dir, slope, k1) && FirstStopH(cs, pos, dir, slope, k2)
    ensures k1 == k2
  {
  }

  /** The description of `cast_ray` fixes its result completely. */
  lemma {:induction false} RayHitUnique(cs: nat, pos: Vec2, dir: real, tan: real -> real, r1: Hit, r2: Hit)
    requires cs > 0
    requires IsRayHit(cs, pos, dir, tan, r1) && IsRayHit(cs, pos, dir, tan, r2)
    ensures r1 == r2
  {
    FixedAngleUnique(dir, r1.angle, r2.angle);
    var d := r1.angle;
    var slope := tan(d);
    var kv1: nat :| ChosenHit(cs, pos, d, slope, kv1, r1);
    var kv2: nat :| ChosenHit(cs, pos, d, slope, kv2, r2);
    FirstStopVUnique(cs, pos, d, slope, kv1, kv2);
    if slope != 0.0 {
      var kh1: nat :| FirstStopH(cs, pos, d, slope, kh1) &&
        r1 == Nearer(pos, ProbeH(cs, pos, d, slope, kh1), ProbeV(cs, pos, d, slope, kv1));
      var kh2: nat :| FirstStopH(cs, pos, d, slope, kh2) &&
        r2 == Nearer(pos, ProbeH(cs, pos, d, slope, kh2), ProbeV(cs, pos, d, slope, kv2));
      FirstStopHUnique(cs, pos, d, slope, kh1, kh2);
    }
  }

  // ------------------------------------------------------------------- fan

  /** The offset from the heading of ray `i` of the fan. */
  function FanAngle(fov: real, delta: real, i: nat): real
  {
    -fov / 2.0 + i as real * delta
  }

  /** With `delta = fov / n` and a positive field of view, ray `i` is still
      inside the field of view exactly when `i < n`; a field of view that is
      not positive fails the loop test at once. */
  lemma {:induction false} FanBound(fov: real, n: nat, i: nat)
    requires n > 0
    ensures fov > 0.0 ==> (FanAngle(fov, fov / n as real, i) < fov / 2.0 <==> i < n)
    ensures fov <= 0.0 ==> FanAngle(fov, fov / n as real, 0) >= fov / 2.0
  {
    var delta := fov / n as real;
    assert delta * n as real == fov;
    if fov > 0.0 {
      assert delta > 0.0;
      assert FanAngle(fov, delta, i) < fov / 2.0 <==> i as real * delta < n as real * delta;
      if i < n {
        assert (n - i) as real * delta > 0.0;
      } else {
        assert (i - n) as real * delta >= 0.0;
      }
    }
  }

  /** Rays are appended in increasing angle. */
  lemma FanIncreasing(fov: real, n: nat, i: nat, j: nat)
    requires n > 0 && fov > 0.0 && i < j
    ensures FanAngle(fov, fov / n as real, i) < FanAngle(fov, fov / n as real, j)
  {
    var delta := fov / n as real;
    assert delta > 0.0;
    assert (j - i) as real * delta > 0.0;
  }

  lemma FanStep(fov: real, delta: real, i: nat)
    ensures FanAngle(fov, delta, i + 1) == FanAngle(fov, delta, i) + delta
  {
    assert (i + 1) as real * delta == i as real * delta + delta;
  }

  /** The fan loop: cast at -fov/2 + i * delta while that is below fov/2. */
  method CastFan(cs: nat, pos: Vec2, rotation: real, fov: real, raysCount: nat, delta: real, tan: real -> real)
    returns (hits: seq<Hit>)
    requires cs > 0 && raysCount > 0 && delta == fov / raysCount as real
    ensures |hits| == if fov > 0.0 then raysCount else 0
    ensures forall i :: 0 <= i < |hits| ==> IsRayHit(cs, pos, rotation + FanAngle(fov, delta, i), tan, hits[i])
  {
    hits := [];
    var angle := -fov / 2.0;
    ghost var i: nat := 0;
    FanBound(fov, raysCount, 0);
    while angle < fov / 2.0
      invariant angle == FanAngle(fov, delta, i)
      invariant |hits| == i
      invariant i <= (if fov > 0.0 then raysCount else 0)
      invariant forall j :: 0 <= j < i ==> IsRayHit(cs, pos, rotation + FanAngle(fov, delta, j), tan, hits[j])
      decreases raysCount - i
    {
      FanBound(fov, raysCount, i);
      var hit := CastRay(cs, pos, rotation + angle, tan);
      hits := hits + [hit];
      FanStep(fov, delta, i);
      angle := angle + delta;
      i := i + 1;
    }
    FanBound(fov, raysCount, i);
  }

  // ------------------------------------------------------------ projection

  /** A wall column: its on-screen height and top edge; `Unbounded` when the
      projected distance is zero, where the source's division yields an
      infinite height. */
  datatype Slice = Slice(height: real, top: real) | Unbounded

  /** Distance along the view axis: the dot product of the hit's offset with
      the unit heading (cos rotation, sin rotation). */
  function ProjectedDistance(hit: Hit, player: Vec2, heading: Vec2): real
  {
    hit.pos.Sub(player).Dot(heading)
  }

  /** The column of one hit: height cell_size * screenHeight / dist,
      vertically centred on the screen. */
  function Project(hit: Hit, player: Vec2, heading: Vec2, cs: nat, screenH: real): (s: Slice)
    ensures s.Unbounded? <==> ProjectedDistance(hit, player, heading) == 0.0
    ensures s.Slice? ==> s.height * ProjectedDistance(hit, player, heading) == cs as real * screenH
    ensures s.Slice? ==> s.top + s.height / 2.0 == screenH / 2.0
  {
    var dist := ProjectedDistance(hit, player, heading);
    if dist == 0.0 then Unbounded
    else
      var h := (cs as real * screenH) / dist;
      Slice(h, (screenH - h) / 2.0)
  }

  /** For a ray along the heading itself, the projected distance is the
      Euclidean distance: no correction is applied at the centre. */
  lemma {:induction false} ProjectedDistanceOnAxis(hit: Hit, player: Vec2, heading: Vec2, t: real)
    requires heading.LengthSq() == 1.0 && t >= 0.0
    requires hit.pos == player.Add(heading.Scale(t))
    ensures ProjectedDistance(hit, player, heading) == t
    ensures hit.pos.Sub(player).LengthSq() == t * t
  {
    var off := hit.pos.Sub(player);
    assert off == Vec2(heading.x * t, heading.y * t);
    assert off.Dot(heading) == t * (heading.x * heading.x + heading.y * heading.y);
    assert off.LengthSq() == (t * t) * (heading.x * heading.x + heading.y * heading.y);
  }

  /** `board[hit.cell_pos.x][hit.cell_pos.y]`, read without a bounds check in
      the source: `None` stands for a read outside `board`. */
  function WallMaterial(hit: Hit): (m: Option<int>)
    ensures m.Some? <==> CorrectCell(hit.cellX, hit.cellY)
    ensures Stops(hit) && m.Some? ==> m.value != 0
  {
    if CorrectCell(hit.cellX, hit.cellY) then Some(Board[hit.cellX][hit.cellY]) else None
  }

  /** One drawn column: its left edge and its slice. */
  datatype Column = Column(x: real, slice: Slice)

  /** The column loop: each hit is drawn `rectW` to the right of the previous
      one, starting at `originX`. */
  method LayoutColumns(hits: seq<Hit>, player: Vec2, heading: Vec2, cs: nat, screenH: real,
                       originX: real, rectW: real)
    returns (cols: seq<Column>)
    ensures |cols| == |hits|
    ensures forall i :: 0 <= i < |hits| ==>
      cols[i] == Column(originX + i as real * rectW, Project(hits[i], player, heading, cs, screenH))
  {
    cols := [];
    var rectX := 0.0;
    for i := 0 to |hits|
      invariant |cols| == i
      invariant rectX == i as real * rectW
      invariant forall j :: 0 <= j < i ==>
        cols[j] == Column(originX + j as real * rectW, Project(hits[j], player, heading, cs, screenH))
    {
      cols := cols + [Column(originX + rectX, Project(hits[i], player, heading, cs, screenH))];
      rectX := rectX + rectW;
    }
  }

  /** `rect_w = (screenWidth / fov) * delta_angle` with `delta_angle = fov / n`:
      n columns of that width fill the screen width exactly. */
  lemma {:induction false} ColumnsFillScreen(screenW: real, fov: real, n: nat)
    requires n > 0 && fov != 0.0
    ensures (screenW / fov) * (fov / n as real) * n as real == screenW
  {
    assert (fov / n as real) * n as real == fov;
    assert (screenW / fov) * fov == screenW;
  }
}
