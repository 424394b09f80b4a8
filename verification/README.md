# Creative-coding demos: a Dafny model

This project models the computational core of five small graphics demos.
Each demo is a single C++ file.

- **Ant colony.** A 400x300 pheromone field with a home marker and a food
  marker per cell, each in [0, 255]. A periodic decay pass lowers every
  positive marker by one. Each ant has a two-state goal and three cooldown
  timers. On every frame an ant wanders, marks its cell, steers towards the
  most attractive of three look-ahead points, moves, bounces off the window
  edges, and switches goal at a food source or at the colony.
  - Modules `AntsField` (`ants_field.dfy`) and `AntsAgent` (`ants_agent.dfy`).
  - The field is an `array2<Cell>`. The ant is a class whose fields
    `Ant.Update` changes in place. Each stage of the update is specified by
    a function on the ant's value (`AntData`), and `Step` composes those
    functions.
- **Breakout.** The bricks, the bar and the ball are desktop windows. The
  demo covers rectangle collision with side classification, the reflection
  of the ball, the wall bounce with clamping, the brick sweep that closes
  the bricks it hits, and the brick layout.
  - Module `Breakout` (`breakout.dfy`).
  - A window is a value. The game is a class whose methods are proved
    against value-level functions (`Bounced`, `WallStepped`, `SweepRows`,
    `Frame`).
- **Grid raycasters.** Two demos share the same code on an 8x8 board:
  `correct_cell`, `fix_angle`, the two grid marches of `cast_ray`, the fan
  of rays, and the projection of each hit onto a screen column.
  - Module `Raycast` (`raycast.dfy`) holds the shared code, parameterised
    by the cell size.
  - Module `Raycaster` (`raycaster.dfy`) is the 1440x900 demo, with cells of
    100 units.
  - Module `RaycasterFloor` (`raycaster_floor.dfy`) is the 640x640 textured
    demo, with cells of 80 units. It adds `sample_point`, the texture-column
    choice, and the field of view the player widens and narrows.
- **Mandelbrot viewer.** The affine map from screen to plane, the
  normalisation of a dragged rectangle, the aspect-locked selection, and
  the zoom that `set_viewport` performs.
  - Module `Mandelbrot` (`mandelbrot.dfy`).

Module `Basics` (`basics.dfy`) holds the shared vocabulary:
- the vector type, over exact reals;
- C's truncating float-to-int conversion and integer division;
- `std::clamp` and raylib's `Clamp`.

The modelling choices that matter most:

- **Floating point as exact reals.** Floating-point values are modelled as
  exact reals.
  - Trigonometry, `Vector2Rotate`, `Vector2Normalize` and `rand()` are
    supplied by the caller: function-valued parameters, or a `roll`
    parameter.
  - Lengths are compared through their squares. The square root is
    monotone, so comparing squares decides the same way.
- **`calculate_attractiveness` is modelled as written.** It indexes the
  field by `int(point.x)`, `int(point.y)`. Those are screen coordinates,
  not divided by the cell size. `find_attractive_cell2` does divide them
  when it returns a cell.
- **`find_attractive_cell2` never reads outside the field.** Its return
  statements index the field without a bounds check. The model proves the
  index is always in range, so no precondition is needed:
  - a chosen point scores at least EPS, which is above 0;
  - so its 3x3 window reaches into the grid;
  - so half of its truncated coordinates is inside the grid
    (`ScoredPointCellInGrid`).
- **`find_attractive_cell` keeps the minimum, as written.** It keeps the
  cell with the *smallest* marker-over-distance value (`value < min_val`).
  The demo never calls it.
  - Its own cell lies at distance 0, where `marker / 0` is +infinity. That
    never compares below the running minimum, so the model excludes that
    cell from the candidates.
  - Values are compared through their squares.
- **The colony wins over a food source.** The colony test runs after the
  food-source scan, so an ant in both circles ends up searching for food.
- **`fix_angle` at its boundary.**
  - The two loops subtract 2π while the angle is above π and add 2π while
    it is below -π, so the result lies in [-π, π].
  - An input of -π is left at -π, while -π + 2π = π is left at π: the two
    bounds are distinct results for the same direction.
  - `FixedAnglePeriodic` proves that adding 2π to the input leaves the
    result unchanged except where the result is -π. `FixedAngleBoundary`
    exhibits that exception.
- **A zero slope in `cast_ray`.** With `tan(dir) == 0` the horizontal march
  divides by zero. Under IEEE arithmetic its hit lies at infinity and loses
  the distance comparison. The model returns the vertical hit without
  running the horizontal march.

## Model

| member | source | states |
|---|---|---|
| Basics.Trunc | Projects/raycaster/main.cpp:136-137 | a float converted to `int` truncates toward zero: the result is within one of the input, on the side of zero |
| Basics.TruncDiv | Projects/ants-colony/main.cpp:174 | C integer division by a positive divisor truncates toward zero: the quotient lies between 0 and the dividend |
| Basics.TruncOfQuotient | Projects/breakout/main.cpp:89-91 | dividing two integers in floating point and truncating gives C's integer quotient |
| Basics.ClampInt | Projects/ants-colony/main.cpp:279-280 | `std::clamp` lands in [lo, hi]: v when inside, lo below, hi above |
| Basics.ClampReal | Projects/breakout/main.cpp:148-149 | raylib `Clamp` never exceeds hi, is at least lo when lo <= hi, leaves an in-range value alone, gives lo below the range and hi above it, and gives hi when the bounds cross |
| Mandelbrot.ScreenCorners | Projects/mandelbrot-shader/main.cpp:21-32 | screen (0, 0) maps to (left, bottom) and the far screen corner maps to (right, top) |
| Mandelbrot.ScreenToLocalMonotone | Projects/mandelbrot-shader/main.cpp:21-32 | for a non-mirrored viewport the map keeps the order of points on each axis |
| Mandelbrot.FixRect | Projects/mandelbrot-shader/main.cpp:34-49 | the result has non-negative width and height, equal to the input's absolute extents, and covers the same interval on each axis |
| Mandelbrot.FixRectIdempotent | Projects/mandelbrot-shader/main.cpp:38-47 | a rectangle with non-negative extents is unchanged, and fixing twice equals fixing once |
| Mandelbrot.Zoom | Projects/mandelbrot-shader/main.cpp:54-66 | the new (left, bottom) and (right, top) are the images of the rectangle's two corners |
| Mandelbrot.ZoomFullScreen | Projects/mandelbrot-shader/main.cpp:51-67 | zooming onto the full-screen rectangle leaves the viewport unchanged, which makes it a reset |
| Mandelbrot.ZoomKeepsOrientation | Projects/mandelbrot-shader/main.cpp:54-66 | a rectangle with positive extents keeps left < right and bottom < top |
| Mandelbrot.Context.constructor | Projects/mandelbrot-shader/main.cpp:88-92 | the context starts at the window size with the home viewport, and the full-screen `set_viewport` keeps it there |
| Mandelbrot.Context.SetViewport | Projects/mandelbrot-shader/main.cpp:51-67 | the viewport becomes the zoom of the old one onto the rectangle, and is unchanged for the full screen |
| Mandelbrot.Context.Reset | Projects/mandelbrot-shader/main.cpp:161-164 | SPACE leaves exactly the home viewport |
| Mandelbrot.Context.Release | Projects/mandelbrot-shader/main.cpp:191-193 | the release zooms onto the fixed selection; a selection with non-zero width and height keeps an oriented viewport oriented |
| Mandelbrot.CopySign | Projects/mandelbrot-shader/main.cpp:188 | the result has the magnitude of m and the sign of s, with zero counted as positive |
| Mandelbrot.DragSelection | Projects/mandelbrot-shader/main.cpp:184-189 | the width follows the mouse, \|height\| * aspect == \|width\|, and the height keeps the direction of the drag |
| Raycast.CorrectCell | Projects/raycaster/main.cpp:118-122 | holds exactly at the coordinates where `board` can be read |
| Raycast.FixAngle | Projects/raycaster/main.cpp:124-130 | the result lies in [-π, π], differs from the input by whole turns, is the input when already in range, and reaches a bound only from outside the range |
| Raycast.FixedAngleUnique | Projects/raycaster/main.cpp:124-130 | those properties determine the result uniquely |
| Raycast.FixedAnglePeriodic | Projects/raycaster/main.cpp:124-130 | adding 2π to the input does not change the result, unless the result is -π |
| Raycast.FixedAngleBoundary | Projects/raycaster/main.cpp:127-128 | -π normalises to -π, but -π + 2π normalises to π |
| Raycast.ProbeVColumn | Projects/raycaster/main.cpp:145-159 | the k-th vertical probe reports column cell_x + k + 1 facing east and cell_x - k - 1 facing west |
| Raycast.ProbeHRow | Projects/raycaster/main.cpp:175-192 | the k-th horizontal probe reports row cell_y - k - 1 facing north and cell_y + k + 1 otherwise |
| Raycast.VerticalSearchEnds | Projects/raycaster/main.cpp:142-171 | for every position, direction and slope, some probe among the first board_w + 1 stops the vertical search |
| Raycast.OpenProbesBoundV | Projects/raycaster/main.cpp:142-171 | a probe that does not stop the vertical search has index below board_w |
| Raycast.OpenProbesBoundH | Projects/raycaster/main.cpp:174-203 | a probe that does not stop the horizontal search has index below board_h |
| Raycast.FirstStopVUnique | Projects/raycaster/main.cpp:167-170 | the vertical search ends at a unique probe |
| Raycast.FirstStopHUnique | Projects/raycaster/main.cpp:199-202 | the horizontal search ends at a unique probe |
| Raycast.SearchV | Projects/raycaster/main.cpp:141-170 | the vertical loop ends at the first probe that leaves the board or meets a wall, and returns that probe |
| Raycast.SearchH | Projects/raycaster/main.cpp:172-201 | the horizontal loop ends at the first probe that leaves the board or meets a wall, and returns that probe |
| Raycast.CastRay | Projects/raycaster/main.cpp:132-211 | the hit is the nearer of the two first-stopping probes, ties going to the vertical one; its angle is `fix_angle(dir)`; its cell is off the board or a wall |
| Raycast.RayHitUnique | Projects/raycaster/main.cpp:132-211 | the description of `cast_ray` fixes its result completely |
| Raycast.FanBound | Projects/raycaster/main.cpp:332 | with delta = fov / n, ray i is inside the field of view exactly when i < n; a non-positive field of view casts nothing |
| Raycast.FanIncreasing | Projects/raycaster/main.cpp:332 | the rays are appended in increasing angle |
| Raycast.FanStep | Projects/raycaster/main.cpp:332 | each loop step advances the angle by delta |
| Raycast.CastFan | Projects/raycaster/main.cpp:331-335 | the fan holds n hits (none when fov <= 0), and hit i is `cast_ray` at heading + (-fov/2 + i * delta) |
| Raycast.Project | Projects/raycaster/main.cpp:219-224 | height * dist == cell_size * screenHeight and the column is vertically centred; a zero distance gives an unbounded column |
| Raycast.ProjectedDistanceOnAxis | Projects/raycaster/main.cpp:219-221 | along the heading itself, the dot-product distance equals the Euclidean distance |
| Raycast.WallMaterial | Projects/raycaster/main.cpp:226 | the board read is defined exactly on board cells, and a stopping hit on the board reads a wall |
| Raycast.LayoutColumns | Projects/raycaster/main.cpp:216-262 | column i sits at rect_x = i * rect_w and carries the projection of hit i |
| Raycast.ColumnsFillScreen | Projects/raycaster/main.cpp:287-288 | n columns of rect_w = (screenWidth / fov) * (fov / n) span the screen width exactly |
| Raycaster.RenderConfig.constructor | Projects/raycaster/main.cpp:284-289 | fov is 85°, there are 1440 rays, and rect_w is 1, so the columns fill the 1440-wide screen |
| Raycaster.RenderConfig.CastRays | Projects/raycaster/main.cpp:331-335 | `hits` is cleared and refilled with one `cast_ray` hit per fan angle |
| Raycaster.RenderConfig.DrawRaycastView | Projects/raycaster/main.cpp:213-263 | hit i becomes the column at x = i with its projected slice |
| RaycasterFloor.SamplePoint | Projects/raycaster_floor/main.cpp:157-164 | each component is the fractional part of p / cell_size, in [0, 1) for non-negative p and in (-1, 0] for negative p |
| RaycasterFloor.TextureColumn | Projects/raycaster_floor/main.cpp:316-324 | the column is inside the texture whenever the hit lies, along the wall (x for a horizontal hit, y otherwise), in the cell it reports |
| RaycasterFloor.ProbeHTextureInRange | Projects/raycaster_floor/main.cpp:316-324 | every horizontal probe at non-negative x yields a texture column inside the texture |
| RaycasterFloor.ProbeVTextureInRange | Projects/raycaster_floor/main.cpp:316-324 | every vertical probe at non-negative y yields a texture column inside the texture |
| RaycasterFloor.View.constructor | Projects/raycaster_floor/main.cpp:175-179 | fov is 60°, there are 32 rays, delta_angle = fov / 32, and rect_w is 20 |
| RaycasterFloor.View.Widen | Projects/raycaster_floor/main.cpp:211-215 | KEY_E adds one degree, and delta_angle = fov / rays_count is re-established |
| RaycasterFloor.View.Narrow | Projects/raycaster_floor/main.cpp:216-220 | KEY_Q removes one degree, and delta_angle = fov / rays_count is re-established |
| RaycasterFloor.View.CastRays | Projects/raycaster_floor/main.cpp:293-298 | 32 hits while fov > 0 and none otherwise; hit i is `cast_ray` at the i-th fan angle |
| RaycasterFloor.View.DrawWalls | Projects/raycaster_floor/main.cpp:300-324 | column i sits at screenWidth + i * rect_w with the projected slice and texture column of hit i |
| AntsField.NewField | Projects/ants-colony/main.cpp:400-410 | every cell of the new 400x300 field holds its own coordinates and zero markers |
| AntsField.Decayed | Projects/ants-colony/main.cpp:480-481 | a positive marker loses exactly one, a zero marker stays zero, and the coordinates are untouched |
| AntsField.DecayedNMarkers | Projects/ants-colony/main.cpp:474-483 | after n passes each marker is max(marker - n, 0) |
| AntsField.FadesOut | Projects/ants-colony/main.cpp:480-481 | 255 passes or more clear both markers, and a further pass changes nothing |
| AntsField.Decay | Projects/ants-colony/main.cpp:474-483 | every cell of the grid is replaced by its decayed self |
| AntsField.FadeTick | Projects/ants-colony/main.cpp:470-486 | when the timer runs out the field decays and the timer rearms to 0.05; otherwise the field is unchanged and the timer is decremented |
| AntsField.ClampedCell | Projects/ants-colony/main.cpp:276-280 | the ant's clamped cell is always in the grid |
| AntsField.Marked | Projects/ants-colony/main.cpp:297-311 | an ant going home sets the food marker to 255, a searching ant sets the home marker; the other channel and the coordinates are kept |
| AntsField.MarkFeedsOtherState | Projects/ants-colony/main.cpp:297-311 | a mark gives the other state's scent 255 and leaves the marking state's own scent unchanged |
| AntsField.Deposit | Projects/ants-colony/main.cpp:291-312 | only the clamped cell changes, to its marked self, and the coordinate labels are kept |
| AntsField.RowUpToMembers | Projects/ants-colony/main.cpp:100-108 | the inner loop lists exactly the in-grid cells of its row within the offsets scanned so far |
| AntsField.WindowUpToMembers | Projects/ants-colony/main.cpp:98-109 | the nested loops list exactly the in-grid cells within the scanned offsets |
| AntsField.WindowMembers | Projects/ants-colony/main.cpp:98-109 | a cell is in the window exactly when it is in the grid and within `half` of the centre on both axes |
| AntsField.WindowInGrid | Projects/ants-colony/main.cpp:105 | every listed neighbour is in the grid |
| AntsField.ScentSum | Projects/ants-colony/main.cpp:113-117 | the channel sum over a list of cells lies in [0, 255 * count] |
| AntsField.ScentSumPositive | Projects/ants-colony/main.cpp:113-117 | the sum is positive exactly when some listed cell carries the marker |
| AntsField.Attractiveness | Projects/ants-colony/main.cpp:84-139 | the score lies in [0, 255]: 0 for an empty window, otherwise the channel mean over the in-grid cells of the 3x3 window |
| AntsField.AttractivenessPositive | Projects/ants-colony/main.cpp:119-130 | the score is positive exactly when some in-grid cell of the window carries the state's marker |
| AntsField.MeanBounds | Projects/ants-colony/main.cpp:119-130 | a mean of values in [0, 255] lies in [0, 255] and is positive exactly when the sum is |
| AntsField.ScoredPointNearGrid | Projects/ants-colony/main.cpp:91-109 | a positive score puts the truncated point at most one cell outside the grid |
| AntsField.ChooseLookAhead | Projects/ants-colony/main.cpp:168-183 | nothing exactly when all three scores are below EPS in magnitude; otherwise the centre when it is at least both others, else the left when it beats the right, else the right |
| AntsField.PickIsBest | Projects/ants-colony/main.cpp:168-183 | the picked score is the largest of the three and is at least EPS |
| AntsField.HalfInRange | Projects/ants-colony/main.cpp:174 | halving, with C division, a coordinate at most one cell outside the doubled grid lands in the grid |
| AntsField.ScoredPointCellInGrid | Projects/ants-colony/main.cpp:174-182 | the cell `int(p) / cell_radius` of a positively scored point is in the grid, so the unchecked index is safe |
| AntsField.AttractiveCell2 | Projects/ants-colony/main.cpp:143-184 | a returned cell is always in the grid |
| AntsField.AttractiveCell2Choice | Projects/ants-colony/main.cpp:164-183 | nothing exactly when all three scores are below EPS; otherwise the cell of a look-ahead point whose score is the best of the three and at least EPS |
| AntsField.AbsInt | Projects/ants-colony/main.cpp:225-226 | `std::abs` on int returns n or -n, never negative |
| AntsField.ValueSqBelowStart | Projects/ants-colony/main.cpp:219 | every candidate's value is below the initial `min_val` of 1e9 |
| AntsField.FindAttractiveCell | Projects/ants-colony/main.cpp:186-261 | nothing exactly when no cell of the 11x11 window is a candidate; otherwise the first candidate of least value, within 5 cells of the ant's cell, with a positive marker |
| AntsField.ScanNeighbours | Projects/ants-colony/main.cpp:219-258 | nothing exactly when no neighbour is a candidate; otherwise a neighbour of least value, strictly below every earlier candidate |
| AntsField.CollectWindow | Projects/ants-colony/main.cpp:201-216 | the neighbour list is exactly the window of in-grid cells, rows outer and columns inner |
| AntsAgent.AtSourceSome | Projects/ants-colony/main.cpp:340-348 | the source scan succeeds exactly when the ant lies in some source's circle |
| AntsAgent.TickStaysInPeriod | Projects/ants-colony/main.cpp:282-295 | with dt >= 0, a cooldown in (0, base] is still in (0, base] after the decrement and possible rearm |
| AntsAgent.AttractionEveryFrame | Projects/ants-colony/main.cpp:314-332 | an attraction cooldown at its base of 0 fires on every frame and returns to 0 |
| AntsAgent.WanderAngle | Projects/ants-colony/main.cpp:284 | the wander turn lies between -10° and +9° |
| AntsAgent.TargetInCell | Projects/ants-colony/main.cpp:322-323 | the centre of a grid cell maps back to that cell |
| AntsAgent.Steering | Projects/ants-colony/main.cpp:316-330 | the new heading is towards the centre of the picked cell (normalised unless nearly zero), or unchanged when no cell is picked |
| AntsAgent.Bounce | Projects/ants-colony/main.cpp:337-338 | each heading component is negated exactly when its coordinate is at or beyond an edge; magnitudes are kept |
| AntsAgent.Spawned | Projects/ants-colony/main.cpp:373-384 | a new ant starts with every cooldown within its period |
| AntsAgent.StepTimers | Projects/ants-colony/main.cpp:265-332 | after a frame each cooldown is its decrement, or its base if that reached 0; the speed is kept; with dt >= 0 the cooldowns stay within their periods |
| AntsAgent.StepGoal | Projects/ants-colony/main.cpp:340-350 | in the colony the ant searches for food; otherwise in any food source it goes home; otherwise it keeps its goal |
| AntsAgent.AttractionTargetsCell | Projects/ants-colony/main.cpp:316-323 | the point the ant steers to lies in the cell that attracted it |
| AntsAgent.Ant.constructor | Projects/ants-colony/main.cpp:373-384 | the ant starts at the colony, searching for food, at speed 60, with every cooldown at its base |
| AntsAgent.Ant.Update | Projects/ants-colony/main.cpp:263-351 | the ant takes the value `Step` gives and keeps its cooldowns within their periods; when the marker cooldown fires only the clamped cell of the old position is marked, and no other cell changes |
| AntsAgent.Ant.Countdown | Projects/ants-colony/main.cpp:265-267 | all three cooldowns are decremented by dt |
| AntsAgent.Ant.Wander | Projects/ants-colony/main.cpp:282-289 | once the wander cooldown runs out it is rearmed and the heading is rotated and normalised |
| AntsAgent.Ant.Mark | Projects/ants-colony/main.cpp:291-312 | once the marker cooldown runs out it is rearmed and the ant's clamped cell is marked; otherwise the field is unchanged |
| AntsAgent.Ant.Attract | Projects/ants-colony/main.cpp:314-333 | once the attraction cooldown runs out the heading turns towards the picked cell and the cooldown is rearmed |
| AntsAgent.Ant.Move | Projects/ants-colony/main.cpp:335-338 | the ant advances by speed * dt along its heading, then bounces off the edges |
| AntsAgent.Ant.UpdateGoal | Projects/ants-colony/main.cpp:340-350 | the source scan stops at the first source containing the ant, and the colony, tested last, wins |
| Breakout.Move | Projects/breakout/okna.hpp:61-63 | the window is shifted by exactly d, and nothing else changes |
| Breakout.MakeWindow | Projects/breakout/okna.hpp:19-53 | the window is active at the given position, and decoration adds the title bar's height |
| Breakout.AxisDepthIsOverlap | Projects/breakout/main.cpp:33-39 | on meeting intervals the depth `collide` computes is their intersection length, never negative |
| Breakout.Collide | Projects/breakout/main.cpp:28-53 | no collision exactly when the rectangles are strictly apart on some axis, so touching edges collide |
| Breakout.CollideByOverlap | Projects/breakout/main.cpp:33-49 | top or bottom exactly when the horizontal overlap exceeds the vertical one, and the reported side is the one of the smaller distance |
| Breakout.CollideMirror | Projects/breakout/main.cpp:28-53 | without ties in the distance comparisons, swapping the windows gives the opposite side |
| Breakout.CollideTieNotMirrored | Projects/breakout/main.cpp:29 | on a tie `collide` is not symmetric: a window against itself is hit on the left both ways round |
| Breakout.Bounced | Projects/breakout/main.cpp:55-80 | with no collision nothing changes; otherwise the speed component across the side hit points away from the object and the ball is set flush against that side |
| Breakout.BouncedIsStable | Projects/breakout/main.cpp:55-80 | after a hit the ball still collides on the same side, and reflecting again changes nothing |
| Breakout.WallStepped | Projects/breakout/main.cpp:143-149 | after the wall step the ball lies within [0, monitor - size] on both axes, and the speed magnitudes are kept |
| Breakout.WallStepInside | Projects/breakout/main.cpp:143-149 | a ball that stays strictly inside the monitor just moves, with its speed unchanged |
| Breakout.HitOne | Projects/breakout/main.cpp:153-156 | an active brick that collides closes and reflects the ball; an inactive brick is not tested |
| Breakout.SweepRow | Projects/breakout/main.cpp:152-157 | the row sweep changes only `active` flags, and never reactivates a brick |
| Breakout.SweepRows | Projects/breakout/main.cpp:151-158 | the full sweep changes only `active` flags, and never reactivates a brick |
| Breakout.SweepRowStep | Projects/breakout/main.cpp:152-157 | sweeping one more brick is the sweep so far followed by that brick |
| Breakout.CountAllActiveMonotone | Projects/breakout/main.cpp:151-158 | if no brick becomes active, the number of active bricks does not grow |
| Breakout.SweepNeverReopens | Projects/breakout/main.cpp:151-158 | the brick sweep never increases the number of active bricks |
| Breakout.ColumnsFit | Projects/breakout/main.cpp:89-91 | the brick count is the largest n with 110n <= W + GAP - 2 * MIN_PADDING |
| Breakout.PaddingCentres | Projects/breakout/main.cpp:92-93 | with the centring margin both margins are at least MIN_PADDING and differ by at most one |
| Breakout.PaddingAsWrittenOffCentre | Projects/breakout/main.cpp:92-93 | the margin as written leaves the right margin 20 or 21 units wider than the left one |
| Breakout.PaddingAsWrittenOn1920 | Projects/breakout/main.cpp:92-93 | on a 1920-wide monitor there are 17 bricks per row; the margin as written is 20, below MIN_PADDING, where the centring one is 30 |
| Breakout.BricksApart | Projects/breakout/main.cpp:111-116 | two distinct bricks of the layout never collide |
| Breakout.Layout | Projects/breakout/main.cpp:92-118 | there are 5 rows of `Columns(W)` bricks; brick (r, c) is a decorated 100x30 window at (padding + 110c, 40 + 69r), with padding the program's own (W - 110n - GAP) / 2 |
| Breakout.CentredLayout | Projects/breakout/main.cpp:89-93 | the layout with the intended margin: every brick lies within MIN_PADDING of both monitor edges |
| Breakout.BallStartsOnBar | Projects/breakout/main.cpp:120-127 | the ball starts resting on the bar, which already counts as a collision on the bar's top |
| Breakout.Frame | Projects/breakout/main.cpp:142-159 | one pass of the main loop never increases the number of active bricks |
| Breakout.Game.constructor | Projects/breakout/main.cpp:87-127 | the bricks are `Layout(W)`, with the margin as the program computes it; the bar and the ball are placed, and the speed is (450, 450) |
| Breakout.Game.Reflect | Projects/breakout/main.cpp:55-80 | reports whether the ball collides with the object, and updates the ball and the speed as `Bounced` does |
| Breakout.Game.WallStep | Projects/breakout/main.cpp:143-149 | the ball and the speed become `WallStepped` of the old ones |
| Breakout.Game.HitBricks | Projects/breakout/main.cpp:151-158 | the ball, the speed and the bricks become `SweepRows` of the old ones |
| Breakout.Game.VisitBrick | Projects/breakout/main.cpp:152-155 | the ball and the speed become `HitOne` of the brick, and only that brick changes, closed exactly when it was active and the ball collided with it |
| Breakout.Game.HitRow | Projects/breakout/main.cpp:152-157 | row i and the ball become the row sweep, and the other rows are unchanged |
| Breakout.Game.Tick | Projects/breakout/main.cpp:142-159 | the state becomes `Frame` of the old one: the wall step, the brick sweep, then the reflection off the bar |

## Findings

| source | as written | input that shows it | evidently intended | confidence | as-written member | corrected member |
|---|---|---|---|---|---|---|
| Projects/breakout/main.cpp:92-93 | padding = (W - 110n - GAP) / 2 subtracts one gap too many: a row of n bricks is only 110n - GAP wide | W = 1920: n = 17, left margin 20 (below MIN_PADDING = 30), right margin 40 | padding = (W - 110n + GAP) / 2, giving both margins 30 | not executed | Breakout.PaddingAsWrittenOn1920 | Breakout.CentredLayout |

`Breakout.PaddingAsWrittenOffCentre` shows that the off-centre margin occurs
for every width. `Breakout.Padding`, with `Breakout.PaddingCentres`, is the
corrected margin, and `Breakout.CentredLayout` is the layout built on it. The
game itself (`Breakout.Layout`, `Breakout.Game.constructor`) places the
bricks with the margin as written, as the program does. `Breakout.BricksApart`
holds for either margin.

## Left out

- Drawing, windowing, input and timing (raylib, GLFW, GL, shaders) are not
  modelled. Frame time, mouse positions and key presses become parameters
  or method calls.
- The okna `Window` handle, its fill colour, `fill`, `sync`,
  `updateSize` and the `Clock` are left out. Only the fields that
  `setPosition`, `move`, `close` and the constructor update are kept.
- Breakout's main loop runs while `bar.active`, and nothing closes the bar.
  `Breakout.Game.Tick` models one pass; the loop around it is not modelled.
- `Breakout.Game.constructor` and `Breakout.Layout` require a width whose
  brick count is not negative, that is, a width above -60. For a negative
  count the `std::vector` constructor refuses the size. Widths from -59 to 49
  give zero bricks and are modelled.
- `abs` on a float in `collide` and `reflect` is taken to be the
  floating-point overload.
- Trigonometry (`tan`, `cos`, `sin`), `sqrt`, `Vector2Rotate`,
  `Vector2Normalize` and `rand()` are parameters. Nothing is proved about
  their values: for example, that a normalised heading has length 1.
- Floating-point rounding, `float`/`double` widths and IEEE infinities are
  not modelled; the model works over exact reals. Where the source divides
  by zero, the model states the outcome explicitly: `Slice.Unbounded`, the
  zero-slope case of `Raycast.CastRay`, and the excluded own cell in
  `AntsField.FindAttractiveCell`.
- `double_to_ds` in the Mandelbrot viewer is not modelled, because it
  depends on IEEE rounding. The shader upload is not modelled either.
- The floor and ceiling drawing of the textured raycaster is not modelled.
  The active block computes every floor sample through `tan`, a normalised
  ray and float steps of `pix_h`. Texture pixel fetches, wall colours and
  shading are not modelled either.
- `check_collision` and player movement in both raycasters, and the
  top-down map, are not modelled. They rely on float rotation and read
  `board` unchecked.
- The `fresh`, `order` and distance fields of `cell_t`, the ant's
  `cell_count`, food-source charges and colony size are not modelled.
  Nothing reads them.
- `print_cell` and the `std::cout` output are not modelled.
- The ant colony's frame loop over 1000 ants and the drawing of the
  look-ahead points (disabled with `&& false`) are not modelled.
  `AntsAgent.Ant.Update` models one ant in one frame.
- AntsAgent.Ant.Update: the combined motion fact (the new position is the
  old one plus the attracted heading times speed * dt) is not stated as a
  separate lemma. It follows from the definition of `AntsAgent.Step`.
