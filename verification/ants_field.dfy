/** The pheromone field of the ant colony: a 400x300 grid of cells, each with
    a home marker and a food marker in [0, 255], the periodic decay of the
    markers, and the queries ants use to decide where to go. */
module AntsField {
  import opened Basics

  const WindowsWidth: int := 800
  const WindowsHeight: int := 600
  /** Screen pixels per cell along each axis. */
  const CellRadius: int := 2
  const Cols: int := WindowsWidth / CellRadius
  const Rows: int := WindowsHeight / CellRadius

  const MarkerFadeoutBase: real := 0.05
  const Eps: real := 0.00001

  /** A `uint8_t` marker. */
  type Marker = m: int | 0 <= m <= 255

  /** `cell_t`, without the bookkeeping fields nothing reads. */
  datatype Cell = Cell(x: int, y: int, home: Marker, food: Marker)

  /** `ant_state_t`. */
  datatype AntState = GoingHome | SearchingFood

  /** The marker an ant follows: home marks on the way home, food marks while
      searching. */
  function Scent(c: Cell, state: AntState): Marker
  {
    match state
    case GoingHome => c.home
    case SearchingFood => c.food
  }

  predicate InGrid(x: int, y: int)
  {
    0 <= x < Cols && 0 <= y < Rows
  }

  /** `field_t` is indexed `field[x][y]`, x across and y down. */
  predicate IsField(field: array2<Cell>)
  {
    field.Length0 == Cols && field.Length1 == Rows
  }

  /** Every cell knows its own coordinates. */
  ghost predicate Labelled(field: array2<Cell>)
    reads field
  {
    && IsField(field)
    && forall x, y :: 0 <= x < field.Length0 && 0 <= y < field.Length1 ==>
         field[x, y].x == x && field[x, y].y == y
  }

  const Blank: Cell := Cell(0, 0, 0, 0)

  /** The field `main` builds: value-initialised cells, then a pass (rows
      outer, columns inner) that labels each cell and clears its markers. */
  method NewField() returns (field: array2<Cell>)
    ensures fresh(field) && IsField(field) && Labelled(field)
    ensures forall x, y :: InGrid(x, y) ==> field[x, y] == Cell(x, y, 0, 0)
  {
    field := new Cell[Cols, Rows]((_, _) => Blank);
    for y := 0 to Rows
      invariant forall x', y' :: InGrid(x', y') ==>
        field[x', y'] == if y' < y then Cell(x', y', 0, 0) else Blank
    {
      for x := 0 to Cols
        invariant forall x', y' :: InGrid(x', y') ==>
          field[x', y'] == if y' < y || (y' == y && x' < x) then Cell(x', y', 0, 0) else Blank
      {
        field[x, y] := Cell(x, y, 0, 0);
      }
    }
  }

  // ---------------------------------------------------------------- decay

  /** One decay step of a cell: each positive marker loses one. */
  function Decayed(c: Cell): (d: Cell)
    ensures d.x == c.x && d.y == c.y
    ensures c.home > 0 ==> d.home == c.home - 1
    ensures c.home == 0 ==> d.home == 0
    ensures c.food > 0 ==> d.food == c.food - 1
    ensures c.food == 0 ==> d.food == 0
  {
    var home := if c.home > 0 then c.home - 1 else c.home;
    var food := if c.food > 0 then c.food - 1 else c.food;
    c.(home := home, food := food)
  }

  /** `n` decay passes over a cell nothing deposits into. */
  function DecayedN(c: Cell, n: nat): Cell
  {
    if n == 0 then c else Decayed(DecayedN(c, n - 1))
  }

  function Floor0(m: int): int
  {
    if m < 0 then 0 else m
  }

  /** After `n` passes each marker has lost `n`, down to 0. */
  lemma {:induction false} DecayedNMarkers(c: Cell, n: nat)
    ensures DecayedN(c, n).home == Floor0(c.home - n)
    ensures DecayedN(c, n).food == Floor0(c.food - n)
    ensures DecayedN(c, n).x == c.x && DecayedN(c, n).y == c.y
  {
    if n > 0 {
      DecayedNMarkers(c, n - 1);
    }
  }

  /** 255 passes clear any cell, and a cleared cell stays cleared. */
  lemma FadesOut(c: Cell, n: nat)
    requires n >= 255
    ensures DecayedN(c, n).home == 0 && DecayedN(c, n).food == 0
    ensures Decayed(DecayedN(c, n)) == DecayedN(c, n)
  {
    DecayedNMarkers(c, n);
  }

  /** The decay pass (rows outer, columns inner) over the whole field. */
  method Decay(field: array2<Cell>)
    requires IsField(field)
    modifies field
    ensures forall x, y :: InGrid(x, y) ==> field[x, y] == Decayed(old(field[x, y]))
  {
    for y := 0 to Rows
      invariant forall x', y' :: InGrid(x', y') ==>
        field[x', y'] == if y' < y then Decayed(old(field[x', y'])) else old(field[x', y'])
    {
      for x := 0 to Cols
        invariant forall x', y' :: InGrid(x', y') ==>
          field[x', y'] == if y' < y || (y' == y && x' < x) then Decayed(old(field[x', y'])) else old(field[x', y'])
      {
        field[x, y] := Decayed(field[x, y]);
      }
    }
  }

  /** The fade-out timer of the main loop: count `dt` down, and when it runs
      out run the decay pass and rearm it. */
  method FadeTick(field: array2<Cell>, timeout: real, dt: real) returns (next: real)
    requires IsField(field)
    modifies field
    ensures timeout - dt <= 0.0 ==>
      && next == MarkerFadeoutBase
      && forall x, y :: InGrid(x, y) ==> field[x, y] == Decayed(old(field[x, y]))
    ensures timeout - dt > 0.0 ==> next == timeout - dt && unchanged(field)
  {
    next := timeout - dt;
    if next <= 0.0 {
      Decay(field);
      next := MarkerFadeoutBase;
    }
  }

  // -------------------------------------------------------------- deposit

  /** The ant's cell: screen position over the cell size, truncated and
      clamped into the grid. */
  function ClampedCell(p: Vec2): (c: (int, int))
    ensures InGrid(c.0, c.1)
  {
    (ClampInt(Trunc(p.x / CellRadius as real), 0, Cols - 1),
     ClampInt(Trunc(p.y / CellRadius as real), 0, Rows - 1))
  }

  /** The cell after an ant in `state` marks it: an ant going home leaves
      food marks, a searching ant leaves home marks. */
  function Marked(c: Cell, state: AntState): (d: Cell)
    ensures d.x == c.x && d.y == c.y
    ensures state == GoingHome ==> d.food == 255 && d.home == c.home
    ensures state == SearchingFood ==> d.home == 255 && d.food == c.food
  {
    match state
    case GoingHome => c.(food := 255)
    case SearchingFood => c.(home := 255)
  }

  /** A mark never weakens the scent an ant in the other state follows. */
  lemma MarkFeedsOtherState(c: Cell, state: AntState, other: AntState)
    requires other != state
    ensures Scent(Marked(c, state), other) == 255
    ensures Scent(Marked(c, state), state) == Scent(c, state)
  {
  }

  /** The deposit: 255 into one channel of the ant's clamped cell, and
      nothing else anywhere. */
  method Deposit(field: array2<Cell>, p: Vec2, state: AntState)
    requires Labelled(field)
    modifies field
    ensures Labelled(field)
    ensures var (r, c) := ClampedCell(p);
      && field[r, c] == Marked(old(field[r, c]), state)
      && forall x, y :: InGrid(x, y) && (x, y) != (r, c) ==> field[x, y] == old(field[x, y])
  {
    var (row, col) := ClampedCell(p);
    field[row, col] := Marked(field[row, col], state);
  }

  // ------------------------------------------------------------ windows

  /** The in-grid cells (x, col + j) for j in [-half, upTo), in scan order. */
  function RowUpTo(x: int, col: int, half: int, upTo: int): seq<(int, int)>
    requires 0 <= half && -half <= upTo
    decreases upTo + half
  {
    if upTo == -half then []
    else
      var y := col + upTo - 1;
      RowUpTo(x, col, half, upTo - 1) + (if InGrid(x, y) then [(x, y)] else [])
  }

  /** The in-grid cells of rows row + i for i in [-half, upTo), each row
      scanned in full: the neighbour list the nested loops build. */
  function WindowUpTo(row: int, col: int, half: int, upTo: int): seq<(int, int)>
    requires 0 <= half && -half <= upTo
    decreases upTo + half
  {
    if upTo == -half then []
    else WindowUpTo(row, col, half, upTo - 1) + RowUpTo(row + upTo - 1, col, half, half + 1)
  }

  /** The whole (2 half + 1)-square window around (row, col), cut to the grid. */
  function Window(row: int, col: int, half: int): seq<(int, int)>
    requires 0 <= half
  {
    WindowUpTo(row, col, half, half + 1)
  }

  lemma {:induction false} RowUpToMembers(x: int, col: int, half: int, upTo: int, q: (int, int))
    requires 0 <= half && -half <= upTo
    ensures q in RowUpTo(x, col, half, upTo) <==>
      InGrid(q.0, q.1) && q.0 == x && -half <= q.1 - col < upTo
    decreases upTo + half
  {
    if upTo != -half {
      var y := col + upTo - 1;
      var earlier := RowUpTo(x, col, half, upTo - 1);
      var last := if InGrid(x, y) then [(x, y)] else [];
      assert RowUpTo(x, col, half, upTo) == earlier + last;
      assert q in earlier + last <==> q in earlier || q in last;
      RowUpToMembers(x, col, half, upTo - 1, q);
    }
  }

  /** A cell is in the window exactly when it is in the grid and within
      `half` of (row, col) along both axes. */
  lemma {:induction false} WindowUpToMembers(row: int, col: int, half: int, upTo: int, q: (int, int))
    requires 0 <= half && -half <= upTo
    ensures q in WindowUpTo(row, col, half, upTo) <==>
      InGrid(q.0, q.1) && -half <= q.0 - row < upTo && -half <= q.1 - col <= half
    decreases upTo + half
  {
    if upTo != -half {
      var earlier := WindowUpTo(row, col, half, upTo - 1);
      var last := RowUpTo(row + upTo - 1, col, half, half + 1);
      assert WindowUpTo(row, col, half, upTo) == earlier + last;
      assert q in earlier + last <==> q in earlier || q in last;
      WindowUpToMembers(row, col, half, upTo - 1, q);
      RowUpToMembers(row + upTo - 1, col, half, half + 1, q);
    }
  }

  lemma WindowMembers(row: int, col: int, half: int, q: (int, int))
    requires 0 <= half
    ensures q in Window(row, col, half) <==>
      InGrid(q.0, q.1) && -half <= q.0 - row <= half && -half <= q.1 - col <= half
  {
    WindowUpToMembers(row, col, half, half + 1, q);
  }

  lemma WindowInGrid(row: int, col: int, half: int)
    requires 0 <= half
    ensures forall q :: q in Window(row, col, half) ==> InGrid(q.0, q.1)
  {
    forall q | q in Window(row, col, half)
      ensures InGrid(q.0, q.1)
    {
      WindowMembers(row, col, half, q);
    }
  }

  // ------------------------------------------------------- attractiveness

  /** The sum of one channel over a list of cells. */
  function ScentSum(field: array2<Cell>, cells: seq<(int, int)>, state: AntState): (s: real)
    reads field
    requires IsField(field)
    requires forall q :: q in cells ==> InGrid(q.0, q.1)
    ensures 0.0 <= s <= 255.0 * |cells| as real
  {
    if |cells| == 0 then 0.0
    else
      var q := cells[0];
      assert q in cells;
      assert InGrid(q.0, q.1);
      assert 0 <= q.0 < field.Length0 && 0 <= q.1 < field.Length1;
      Scent(field[q.0, q.1], state) as real + ScentSum(field, cells[1..], state)
  }

  /** The sum is positive exactly when some listed cell carries the marker. */
  lemma {:induction false} ScentSumPositive(field: array2<Cell>, cells: seq<(int, int)>, state: AntState)
    requires IsField(field)
    requires forall q :: q in cells ==> InGrid(q.0, q.1)
    ensures ScentSum(field, cells, state) > 0.0 <==>
      exists q :: q in cells && InGrid(q.0, q.1) && Scent(field[q.0, q.1], state) > 0
  {
    if |cells| > 0 {
      var q := cells[0];
      assert q in cells;
      ScentSumPositive(field, cells[1..], state);
      assert forall p :: p in cells <==> p == q || p in cells[1..];
    }
  }

  /** `square_half` of `calculate_attractiveness`: a 3x3 window. */
  const ScoreHalf: int := 1

  /** `calculate_attractiveness`: the mean of the state's channel over the
      3x3 window around (int(p.x), int(p.y)) cut to the grid, or 0 when no
      cell of the window is in the grid. The point is a screen position but
      is used as a cell index without dividing by the cell size. */
  function Attractiveness(p: Vec2, state: AntState, field: array2<Cell>): (a: real)
    reads field
    requires IsField(field)
    ensures 0.0 <= a <= 255.0
  {
    var cells := Window(Trunc(p.x), Trunc(p.y), ScoreHalf);
    WindowInGrid(Trunc(p.x), Trunc(p.y), ScoreHalf);
    if |cells| == 0 then 0.0
    else
      var s := ScentSum(field, cells, state);
      MeanBounds(s, |cells|);
      s / |cells| as real
  }

  /** A point scores above zero exactly when some cell of its window, in
      the grid, carries the state's marker. */
  lemma AttractivenessPositive(p: Vec2, state: AntState, field: array2<Cell>)
    requires IsField(field)
    ensures Attractiveness(p, state, field) > 0.0 <==>
      exists q :: q in Window(Trunc(p.x), Trunc(p.y), ScoreHalf) && InGrid(q.0, q.1) && Scent(field[q.0, q.1], state) > 0
  {
    var cells := Window(Trunc(p.x), Trunc(p.y), ScoreHalf);
    WindowInGrid(Trunc(p.x), Trunc(p.y), ScoreHalf);
    if |cells| > 0 {
      MeanBounds(ScentSum(field, cells, state), |cells|);
      ScentSumPositive(field, cells, state);
    }
  }

  lemma MeanBounds(s: real, n: int)
    requires n >= 1 && 0.0 <= s <= 255.0 * n as real
    ensures 0.0 <= s / n as real <= 255.0
    ensures s / n as real > 0.0 <==> s > 0.0
  {
    var m := s / n as real;
    assert m * n as real == s;
  }

  /** A positive score means the window reaches into the grid, which bounds
      the truncated point to one cell beyond the grid on each side. */
  lemma ScoredPointNearGrid(p: Vec2, state: AntState, field: array2<Cell>)
    requires IsField(field)
    requires Attractiveness(p, state, field) > 0.0
    ensures -1 <= Trunc(p.x) <= Cols && -1 <= Trunc(p.y) <= Rows
  {
    AttractivenessPositive(p, state, field);
    var q :| q in Window(Trunc(p.x), Trunc(p.y), ScoreHalf) && InGrid(q.0, q.1) && Scent(field[q.0, q.1], state) > 0;
    WindowMembers(Trunc(p.x), Trunc(p.y), ScoreHalf, q);
  }

  // ------------------------------------------------------ look-ahead pick

  datatype Pick = Center | Left | Right

  /** The decision of `find_attractive_cell2` among the three scores: none
      when all are below EPS in magnitude, otherwise the centre when it is
      at least both others, else the left when it beats the right, else the
      right. */
  function ChooseLookAhead(c: real, l: real, r: real): (pick: Option<Pick>)
    ensures pick.None? <==> Abs(c) < Eps && Abs(l) < Eps && Abs(r) < Eps
    ensures pick == Some(Center) ==> c >= l && c >= r
    ensures pick == Some(Left) ==> l > c && l > r
    ensures pick == Some(Right) ==> r > c && r >= l
  {
    if Abs(c) < Eps && Abs(l) < Eps && Abs(r) < Eps then None
    else if c >= Max(l, r) then Some(Center)
    else if l > r then Some(Left)
    else Some(Right)
  }

  /** The picked score is the largest of the three, and for non-negative
      scores it is at least EPS. */
  lemma PickIsBest(c: real, l: real, r: real)
    requires 0.0 <= c && 0.0 <= l && 0.0 <= r
    ensures match ChooseLookAhead(c, l, r)
      case None => Max(c, Max(l, r)) < Eps
      case Some(Center) => c == Max(c, Max(l, r)) && c >= Eps
      case Some(Left) => l == Max(c, Max(l, r)) && l >= Eps
      case Some(Right) => r == Max(c, Max(l, r)) && r >= Eps
  {
  }

  /** How far ahead the ant looks (`cell_radius * 20`) and how far to each
      side. */
  const LookAheadScale: real := 40.0
  const LookAheadAngle: real := 45.0 * DEG2RAD

  /** The centre, left and right look-ahead points. */
  function LookAhead(pos: Vec2, dir: Vec2, rotate: (Vec2, real) -> Vec2): (Vec2, Vec2, Vec2)
  {
    (pos.Add(dir.Scale(LookAheadScale)),
     pos.Add(rotate(dir, LookAheadAngle).Scale(LookAheadScale)),
     pos.Add(rotate(dir, -LookAheadAngle).Scale(LookAheadScale)))
  }

  /** The cell a look-ahead point designates: `int(p) / cell_radius` with C's
      integer division. */
  function CellOf(p: Vec2): (int, int)
  {
    (TruncDiv(Trunc(p.x), CellRadius), TruncDiv(Trunc(p.y), CellRadius))
  }

  lemma {:induction false} HalfInRange(n: int, bound: int)
    requires bound > 0
    requires -1 <= n <= 2 * bound
    ensures 0 <= TruncDiv(n, 2) <= bound
  {
    if n >= 0 {
      assert n == 2 * (n / 2) + n % 2;
    }
  }

  /** A scored point designates a cell of the grid, so the unchecked index
      in `find_attractive_cell2` is always in bounds. */
  lemma ScoredPointCellInGrid(p: Vec2, state: AntState, field: array2<Cell>)
    requires IsField(field)
    requires Attractiveness(p, state, field) > 0.0
    ensures InGrid(CellOf(p).0, CellOf(p).1)
  {
    ScoredPointNearGrid(p, state, field);
    HalfInRange(Trunc(p.x), Cols / 2);
    HalfInRange(Trunc(p.y), Rows / 2);
  }

  /** `find_attractive_cell2`: score the three look-ahead points and return
      the cell of the chosen one, or nothing. Every returned cell is in the
      grid. */
  function AttractiveCell2(pos: Vec2, dir: Vec2, state: AntState, field: array2<Cell>,
                           rotate: (Vec2, real) -> Vec2): (r: Option<(int, int)>)
    reads field
    requires IsField(field)
    ensures r.Some? ==> InGrid(r.value.0, r.value.1)
  {
    var (center, left, right) := LookAhead(pos, dir, rotate);
    var sc := Attractiveness(center, state, field);
    var sl := Attractiveness(left, state, field);
    var sr := Attractiveness(right, state, field);
    PickIsBest(sc, sl, sr);
    match ChooseLookAhead(sc, sl, sr)
    case None => None
    case Some(Center) =>
      ScoredPointCellInGrid(center, state, field);
      Some(CellOf(center))
    case Some(Left) =>
      ScoredPointCellInGrid(left, state, field);
      Some(CellOf(left))
    case Some(Right) =>
      ScoredPointCellInGrid(right, state, field);
      Some(CellOf(right))
  }

  /** Nothing is returned exactly when all three scores are below EPS;
      otherwise the result is the cell of a look-ahead point whose score is
      the best of the three and at least EPS. */
  lemma AttractiveCell2Choice(pos: Vec2, dir: Vec2, state: AntState, field: array2<Cell>,
                              rotate: (Vec2, real) -> Vec2)
    requires IsField(field)
    ensures var r := AttractiveCell2(pos, dir, state, field, rotate);
      var (c, l, rt) := LookAhead(pos, dir, rotate);
      var (sc, sl, sr) := (Attractiveness(c, state, field), Attractiveness(l, state, field), Attractiveness(rt, state, field));
      && (r.None? <==> sc < Eps && sl < Eps && sr < Eps)
      && (r.Some? ==> exists p :: (p in [c, l, rt] && r.value == CellOf(p) &&
            Attractiveness(p, state, field) >= Eps &&
            Attractiveness(p, state, field) == Max(sc, Max(sl, sr))))
  {
    var (center, left, right) := LookAhead(pos, dir, rotate);
    var sc := Attractiveness(center, state, field);
    var sl := Attractiveness(left, state, field);
    var sr := Attractiveness(right, state, field);
    PickIsBest(sc, sl, sr);
    assert center in [center, left, right];
    assert left in [center, left, right];
    assert right in [center, left, right];
  }

  // ------------------------------------------------ nearest-marker search

  /** The squared distance, in cells, from the ant's cell to the cell at `q`,
      measured from the coordinates stored in that cell. */
  function DistSq(field: array2<Cell>, own: (int, int), q: (int, int)): int
    reads field
    requires IsField(field) && InGrid(q.0, q.1)
  {
    var c := field[q.0, q.1];
    var a, b := AbsInt(own.0 - c.x), AbsInt(own.1 - c.y);
    a * a + b * b
  }

  /** `std::abs` on `int`. */
  function AbsInt(n: int): (a: nat)
    ensures a == n || a == -n
  {
    if n < 0 then -n else n
  }

  /** A cell the search can pick: its marker is positive and it is not the
      ant's own cell. At distance 0 the source's `marker / distance` is
      +infinity, which never compares below the running minimum. */
  predicate Candidate(field: array2<Cell>, own: (int, int), state: AntState, q: (int, int))
    reads field
    requires IsField(field) && InGrid(q.0, q.1)
  {
    Scent(field[q.0, q.1], state) > 0 && DistSq(field, own, q) > 0
  }

  /** The square of `marker / distance`; squares of non-negative values
      compare as the values do. */
  function ValueSq(field: array2<Cell>, own: (int, int), state: AntState, q: (int, int)): real
    reads field
    requires IsField(field) && InGrid(q.0, q.1) && DistSq(field, own, q) > 0
  {
    var m := Scent(field[q.0, q.1], state);
    (m * m) as real / DistSq(field, own, q) as real
  }

  /** `min_val` starts at 1e9; its square. */
  const MinValSq: real := 1000000000.0 * 1000000000.0

  lemma ValueSqBelowStart(field: array2<Cell>, own: (int, int), state: AntState, q: (int, int))
    requires IsField(field) && InGrid(q.0, q.1) && Candidate(field, own, state, q)
    ensures ValueSq(field, own, state, q) < MinValSq
  {
    var m: int := Scent(field[q.0, q.1], state);
    SquareBound(m);
    QuotientBelow(m * m, DistSq(field, own, q));
  }

  lemma SquareBound(m: int)
    requires 0 <= m <= 255
    ensures m * m <= 255 * 255
  {
    assert m * m <= m * 255;
  }

  lemma QuotientBelow(n: int, d: int)
    requires 0 <= n <= 255 * 255 && d >= 1
    ensures n as real / d as real < MinValSq
  {
    var v := n as real / d as real;
    assert v * d as real == n as real;
    assert v <= n as real;
  }

  /** Among the first `upTo` cells of `cells`, the one at `k` is a candidate
      with the smallest value, strictly smaller than that of every earlier
      candidate: the minimum the scan keeps, ties going to the first. */
  ghost predicate FirstMinimum(field: array2<Cell>, own: (int, int), state: AntState,
                               cells: seq<(int, int)>, upTo: int, k: int)
    reads field
    requires IsField(field) && 0 <= upTo <= |cells|
    requires forall q :: q in cells ==> InGrid(q.0, q.1)
  {
    && 0 <= k < upTo
    && Candidate(field, own, state, cells[k])
    && forall j :: 0 <= j < upTo && Candidate(field, own, state, cells[j]) ==>
         && ValueSq(field, own, state, cells[k]) <= ValueSq(field, own, state, cells[j])
         && (j < k ==> ValueSq(field, own, state, cells[k]) < ValueSq(field, own, state, cells[j]))
  }

  /** What the scan computes for one neighbour: the cell is a candidate
      exactly when its marker and distance are positive, and then the value
      it compares is the cell's `ValueSq`. */
  lemma ScanValue(field: array2<Cell>, own: (int, int), state: AntState, q: (int, int), marker: int, distSq: int)
    requires IsField(field) && InGrid(q.0, q.1)
    requires marker == Scent(field[q.0, q.1], state)
    requires distSq == AbsInt(own.0 - field[q.0, q.1].x) * AbsInt(own.0 - field[q.0, q.1].x)
                     + AbsInt(own.1 - field[q.0, q.1].y) * AbsInt(own.1 - field[q.0, q.1].y)
    ensures Candidate(field, own, state, q) <==> marker > 0 && distSq > 0
    ensures Candidate(field, own, state, q) ==>
      ValueSq(field, own, state, q) == (marker * marker) as real / distSq as real
  {
  }

  /** The first candidate of the scan is its first minimum. */
  lemma TakeFirst(field: array2<Cell>, own: (int, int), state: AntState, cells: seq<(int, int)>, k: int)
    requires IsField(field) && 0 <= k < |cells|
    requires forall q :: q in cells ==> InGrid(q.0, q.1)
    requires forall j :: 0 <= j < k ==> !Candidate(field, own, state, cells[j])
    requires Candidate(field, own, state, cells[k])
    ensures FirstMinimum(field, own, state, cells, k + 1, k)
  {
  }

  /** A candidate strictly below the kept minimum replaces it. */
  lemma TakeSmaller(field: array2<Cell>, own: (int, int), state: AntState, cells: seq<(int, int)>,
                    k: int, best: int)
    requires IsField(field) && 0 <= k < |cells|
    requires forall q :: q in cells ==> InGrid(q.0, q.1)
    requires FirstMinimum(field, own, state, cells, k, best)
    requires Candidate(field, own, state, cells[k])
    requires ValueSq(field, own, state, cells[k]) < ValueSq(field, own, state, cells[best])
    ensures FirstMinimum(field, own, state, cells, k + 1, k)
  {
  }

  /** Any other cell leaves the kept minimum in place. */
  lemma KeepBest(field: array2<Cell>, own: (int, int), state: AntState, cells: seq<(int, int)>,
                 k: int, best: int)
    requires IsField(field) && 0 <= k < |cells|
    requires forall q :: q in cells ==> InGrid(q.0, q.1)
    requires FirstMinimum(field, own, state, cells, k, best)
    requires Candidate(field, own, state, cells[k]) ==>
      ValueSq(field, own, state, cells[best]) <= ValueSq(field, own, state, cells[k])
    ensures FirstMinimum(field, own, state, cells, k + 1, best)
  {
  }

  /** `square_half` of `find_attractive_cell`: an 11x11 window. */
  const ScanHalf: int := 5

  /** `find_attractive_cell`, which the demo never calls: build the list of
      the 11x11 window around the ant's clamped cell, then keep the
      candidate with the smallest marker-over-distance value. Nothing is
      found exactly when the window holds no candidate; otherwise the result
      is the first candidate of least value, inside the window, with a
      positive marker. */
  method FindAttractiveCell(pos: Vec2, state: AntState, field: array2<Cell>) returns (r: Option<(int, int)>)
    requires IsField(field)
    ensures var own := ClampedCell(pos);
      var cells := Window(own.0, own.1, ScanHalf);
      && (forall q :: q in cells ==> InGrid(q.0, q.1))
      && (r.None? <==> forall k :: 0 <= k < |cells| ==> !Candidate(field, own, state, cells[k]))
      && (r.Some? ==> exists k :: FirstMinimum(field, own, state, cells, |cells|, k) && r.value == cells[k])
    ensures r.Some? ==> var own := ClampedCell(pos);
      && InGrid(r.value.0, r.value.1)
      && -ScanHalf <= r.value.0 - own.0 <= ScanHalf && -ScanHalf <= r.value.1 - own.1 <= ScanHalf
      && Scent(field[r.value.0, r.value.1], state) > 0
  {
    var own := ClampedCell(pos);
    var (row, col) := own;
    var neighbours := CollectWindow(row, col, ScanHalf);
    WindowInGrid(row, col, ScanHalf);

    r := ScanNeighbours(field, own, state, neighbours);
    if r.Some? {
      WindowMembers(row, col, ScanHalf, r.value);
    }
  }

  /** The scan of `find_attractive_cell` over its neighbour list: keep the
      candidate whose value is strictly below the running minimum, which
      starts at `min_val`. */
  method ScanNeighbours(field: array2<Cell>, own: (int, int), state: AntState, neighbours: seq<(int, int)>)
    returns (r: Option<(int, int)>)
    requires IsField(field)
    requires forall q :: q in neighbours ==> InGrid(q.0, q.1)
    ensures r.None? <==> forall k :: 0 <= k < |neighbours| ==> !Candidate(field, own, state, neighbours[k])
    ensures r.Some? ==> exists k :: FirstMinimum(field, own, state, neighbours, |neighbours|, k) && r.value == neighbours[k]
  {
    var minVal := MinValSq;
    r := None;
    ghost var best := 0;
    for k := 0 to |neighbours|
      invariant r.None? <==> forall j :: 0 <= j < k ==> !Candidate(field, own, state, neighbours[j])
      invariant r.None? ==> minVal == MinValSq
      invariant r.Some? ==> && FirstMinimum(field, own, state, neighbours, k, best)
                            && r.value == neighbours[best]
                            && minVal == ValueSq(field, own, state, neighbours[best])
    {
      var q := neighbours[k];
      var cell := field[q.0, q.1];
      var a := AbsInt(own.0 - cell.x);
      var b := AbsInt(own.1 - cell.y);
      var distSq := a * a + b * b;
      var marker: int := Scent(cell, state);
      ScanValue(field, own, state, q, marker, distSq);
      if marker > 0 && distSq > 0 {
        var value := (marker * marker) as real / distSq as real;
        if value < minVal {
          if r.None? {
            TakeFirst(field, own, state, neighbours, k);
          } else {
            TakeSmaller(field, own, state, neighbours, k, best);
          }
          r := Some(q);
          minVal := value;
          best := k;
        } else {
          ValueSqBelowStart(field, own, state, q);
          KeepBest(field, own, state, neighbours, k, best);
        }
      } else if r.Some? {
        KeepBest(field, own, state, neighbours, k, best);
      }
    }
  }

  /** The neighbour list of a window: rows outer, columns inner, skipping
      coordinates outside the grid. */
  method CollectWindow(row: int, col: int, half: int) returns (neighbours: seq<(int, int)>)
    requires 0 <= half
    ensures neighbours == Window(row, col, half)
  {
    neighbours := [];
    for i := -half to half + 1
      invariant neighbours == WindowUpTo(row, col, half, i)
    {
      for j := -half to half + 1
        invariant neighbours == WindowUpTo(row, col, half, i) + RowUpTo(row + i, col, half, j)
      {
        var x, y := i + row, j + col;
        if x < 0 || x >= Cols || y < 0 || y >= Rows {
          continue;
        }
        neighbours := neighbours + [(x, y)];
      }
    }
  }
}
