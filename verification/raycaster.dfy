/** The first raycasting demo: a 1440x900 screen, an 800-unit world cut into
    8x8 cells of 100 units, and a fan of 1440 rays over 85 degrees, one
    screen column per ray. */
module Raycaster {
  import opened Basics
  import opened Raycast

  const ScreenWidth: int := 1440
  const ScreenHeight: int := 900
  const WorldSize: int := 800
  /** The world divided among the board's 8 columns: 100 units. */
  const CellSize: nat := WorldSize / BoardW

  /** `RenderConfig`: the hits of the current frame and the fan's fixed
      parameters. */
  class RenderConfig {
    var hits: seq<Hit>
    const fov: real
    const raysCount: nat
    const deltaAngle: real
    const rectW: real

    ghost predicate Valid()
      reads this
    {
      && fov > 0.0 && raysCount > 0
      && deltaAngle == fov / raysCount as real
      && rectW == (ScreenWidth as real / fov) * deltaAngle
    }

    /** The configuration `main` sets up; a column is exactly one pixel wide,
        so the 1440 columns span the screen. */
    constructor ()
      ensures Valid()
      ensures fov == 85.0 * DEG2RAD && raysCount == 1440 && hits == []
      ensures rectW == 1.0 && rectW * raysCount as real == ScreenWidth as real
    {
      hits := [];
      fov := 85.0 * DEG2RAD;
      raysCount := 1440;
      deltaAngle := 85.0 * DEG2RAD / 1440.0;
      rectW := (ScreenWidth as real / (85.0 * DEG2RAD)) * (85.0 * DEG2RAD / 1440.0);
      new;
      ColumnsFillScreen(ScreenWidth as real, fov, raysCount);
    }

    /** The per-frame fan: clear `hits`, then push one ray per step of
        `deltaAngle` from -fov/2 while below fov/2, around `rotation`. */
    method CastRays(pos: Vec2, rotation: real, tan: real -> real)
      requires Valid()
      modifies this
      ensures Valid()
      ensures |hits| == raysCount
      ensures forall i :: 0 <= i < |hits| ==>
        IsRayHit(CellSize, pos, rotation + FanAngle(fov, deltaAngle, i), tan, hits[i])
    {
      hits := [];
      var fan := CastFan(CellSize, pos, rotation, fov, raysCount, deltaAngle, tan);
      hits := hits + fan;
    }

    /** `DrawRaycastView`: hit `i` becomes the column at x = i, centred
        vertically with height cell_size * screenHeight / dist. */
    method DrawRaycastView(playerPos: Vec2, heading: Vec2) returns (cols: seq<Column>)
      requires Valid() && rectW == 1.0
      ensures |cols| == |hits|
      ensures forall i :: 0 <= i < |hits| ==>
        cols[i].x == i as real && cols[i].slice == Project(hits[i], playerPos, heading, CellSize, ScreenHeight as real)
    {
      cols := LayoutColumns(hits, playerPos, heading, CellSize, ScreenHeight as real, 0.0, rectW);
    }
  }
}
