/** The textured raycasting demo: a 640x640 top-down view beside a 640x640
    projected view, 8x8 cells of 80 units, 32 rays whose field of view the
    player widens and narrows, and wall columns textured by where the ray
    met the wall. */
module RaycasterFloor {
  import opened Basics
  import opened Raycast

  const ScreenWidth: int := 640
  const ScreenHeight: int := 640
  const CellSize: nat := ScreenWidth / BoardW

  /** `sample_point`: the position of `p` inside its cell, as a fraction of
      the cell size, by subtracting the truncated quotient. */
  function SamplePoint(p: Vec2): (r: Vec2)
    ensures p.x >= 0.0 ==> 0.0 <= r.x < 1.0
    ensures p.y >= 0.0 ==> 0.0 <= r.y < 1.0
    ensures p.x < 0.0 ==> -1.0 < r.x <= 0.0
    ensures p.y < 0.0 ==> -1.0 < r.y <= 0.0
    ensures r.x + Trunc(p.x / CellSize as real) as real == p.x / CellSize as real
    ensures r.y + Trunc(p.y / CellSize as real) as real == p.y / CellSize as real
  {
    var cell := Vec2(p.x / CellSize as real, p.y / CellSize as real);
    Vec2(cell.x - Trunc(cell.x) as real, cell.y - Trunc(cell.y) as real)
  }

  /** The hit's offset inside the cell it reports, along the wall: along x
      for a horizontal grid line and along y for a vertical one. */
  function OffsetInCell(hit: Hit): real
  {
    if hit.isHorizontal then hit.pos.x - hit.cellX as real * CellSize as real
    else hit.pos.y - hit.cellY as real * CellSize as real
  }

  /** The texture column of a wall slice: the offset inside the cell scaled
      to the texture width. When the hit lies in the cell it reports, along
      the wall, the column is inside the texture. */
  function TextureColumn(hit: Hit, width: nat): (col: int)
    requires width > 0
    ensures 0.0 <= OffsetInCell(hit) < CellSize as real ==> 0 <= col < width
  {
    var along := OffsetInCell(hit);
    ScaledBelow(along, width);
    Trunc(along / CellSize as real * width as real)
  }

  lemma ScaledBelow(p: real, width: nat)
    requires width > 0
    ensures 0.0 <= p < CellSize as real ==>
      0.0 <= p / CellSize as real * width as real < width as real
  {
    if 0.0 <= p < CellSize as real {
      assert CellSize as real == 80.0;
      var f := p / CellSize as real;
      assert f * CellSize as real == p;
      assert 0.0 <= f < 1.0;
      assert f * width as real < 1.0 * width as real;
    }
  }

  /** Every probe of the horizontal search meets its grid line inside the
      column it reports, so at a non-negative x its texture column is in
      range. */
  lemma {:induction false} ProbeHTextureInRange(pos: Vec2, dir: real, slope: real, k: nat, width: nat)
    requires width > 0 && slope != 0.0
    requires ProbeH(CellSize, pos, dir, slope, k).pos.x >= 0.0
    ensures 0 <= TextureColumn(ProbeH(CellSize, pos, dir, slope, k), width) < width
  {
    var h := ProbeH(CellSize, pos, dir, slope, k);
    assert h.isHorizontal && h.cellX == Trunc(h.pos.x / CellSize as real);
    InsideCell(h.pos.x);
  }

  /** Likewise every probe of the vertical search, along y. */
  lemma {:induction false} ProbeVTextureInRange(pos: Vec2, dir: real, slope: real, k: nat, width: nat)
    requires width > 0
    requires ProbeV(CellSize, pos, dir, slope, k).pos.y >= 0.0
    ensures 0 <= TextureColumn(ProbeV(CellSize, pos, dir, slope, k), width) < width
  {
    var v := ProbeV(CellSize, pos, dir, slope, k);
    assert !v.isHorizontal && v.cellY == Trunc(v.pos.y / CellSize as real);
    InsideCell(v.pos.y);
  }

  lemma InsideCell(a: real)
    requires a >= 0.0
    ensures 0.0 <= a - Trunc(a / CellSize as real) as real * CellSize as real < CellSize as real
  {
    var cs := CellSize as real;
    assert cs == 80.0;
    var t := Trunc(a / cs);
    assert t as real <= a / cs < t as real + 1.0;
    assert (a / cs) * cs == a;
    assert t as real * cs <= (a / cs) * cs;
    assert (a / cs) * cs < (t as real + 1.0) * cs;
  }

  /** The player's view settings (`player.fov`, `player.rays_count`) and the
      two values derived from them in `main` (`delta_angle`, `rect_w`). */
  class View {
    var fov: real
    const raysCount: nat
    var deltaAngle: real
    const rectW: real

    /** `delta_angle` follows `fov`; `rect_w`, computed once, depends only on
        the ray count, so the columns keep filling the screen however the
        field of view changes. */
    ghost predicate Valid()
      reads this
    {
      && raysCount == 32
      && deltaAngle == fov / raysCount as real
      && rectW * raysCount as real == ScreenWidth as real
    }

    constructor ()
      ensures Valid()
      ensures fov == 60.0 * DEG2RAD && rectW == 20.0
    {
      fov := 60.0 * DEG2RAD;
      raysCount := 32;
      deltaAngle := 60.0 * DEG2RAD / 32.0;
      rectW := (ScreenWidth as real / (60.0 * DEG2RAD)) * (60.0 * DEG2RAD / 32.0);
      new;
      ColumnsFillScreen(ScreenWidth as real, fov, raysCount);
    }

    /** KEY_E: one degree wider, and `delta_angle` recomputed. */
    method Widen()
      requires Valid()
      modifies this
      ensures Valid()
      ensures fov == old(fov) + DEG2RAD
    {
      fov := fov + 1.0 * DEG2RAD;
      deltaAngle := fov / raysCount as real;
    }

    /** KEY_Q: one degree narrower, and `delta_angle` recomputed. */
    method Narrow()
      requires Valid()
      modifies this
      ensures Valid()
      ensures fov == old(fov) - DEG2RAD
    {
      fov := fov - 1.0 * DEG2RAD;
      deltaAngle := fov / raysCount as real;
    }

    /** The fan of the frame: 32 hits while the field of view is positive,
        none once it has been narrowed to zero or below. */
    method CastRays(pos: Vec2, rotation: real, tan: real -> real) returns (hits: seq<Hit>)
      requires Valid()
      ensures |hits| == if fov > 0.0 then raysCount else 0
      ensures forall i :: 0 <= i < |hits| ==>
        IsRayHit(CellSize, pos, rotation + FanAngle(fov, deltaAngle, i), tan, hits[i])
    {
      hits := CastFan(CellSize, pos, rotation, fov, raysCount, deltaAngle, tan);
    }

    /** The wall columns, drawn in the right half of the window, `rect_w`
        apart, each with the texture column of its hit. */
    method DrawWalls(hits: seq<Hit>, playerPos: Vec2, heading: Vec2, texWidth: nat)
      returns (cols: seq<Column>, texCols: seq<int>)
      requires Valid() && texWidth > 0
      ensures |cols| == |hits| && |texCols| == |hits|
      ensures forall i :: 0 <= i < |hits| ==>
        && cols[i].x == ScreenWidth as real + i as real * rectW
        && cols[i].slice == Project(hits[i], playerPos, heading, CellSize, ScreenHeight as real)
        && texCols[i] == TextureColumn(hits[i], texWidth)
    {
      cols := LayoutColumns(hits, playerPos, heading, CellSize, ScreenHeight as real, ScreenWidth as real, rectW);
      texCols := [];
      for i := 0 to |hits|
        invariant |texCols| == i
        invariant forall j :: 0 <= j < i ==> texCols[j] == TextureColumn(hits[j], texWidth)
      {
        texCols := texCols + [TextureColumn(hits[i], texWidth)];
      }
    }
  }
}
