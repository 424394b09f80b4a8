/** An ant of the colony: its two-state goal, its three cooldown timers, and
    the per-frame update that wanders, marks the field, steers towards the
    most attractive look-ahead cell, moves, bounces off the window edges and
    switches goal at food sources and at the colony. Random numbers, vector
    rotation and normalisation are supplied by the caller. */
module AntsAgent {
  import opened Basics
  import opened AntsField

  const AntWanderBase: real := 0.1
  const AntMarkerBase: real := 0.2
  const AntAttractionBase: real := 0.0
  const AntSpeed: real := 60.0

  /** A food source or the colony: a centre and a radius. */
  datatype Circle = Circle(center: Vec2, radius: real)

  /** raylib's `CheckCollisionPointCircle`: the point is within the radius,
      boundary included. Distances are compared squared, so a negative
      radius, which no distance can be within, is ruled out first. */
  predicate InCircle(p: Vec2, c: Circle)
  {
    0.0 <= c.radius && p.Sub(c.center).LengthSq() <= c.radius * c.radius
  }

  /** The goal after the move: the colony, tested last, wins; otherwise
      reaching any food source sends the ant home; otherwise the goal stays. */
  function NextGoal(pos: Vec2, sources: seq<Circle>, colony: Circle, s: AntState): AntState
  {
    if InCircle(pos, colony) then SearchingFood
    else if AtSource(pos, sources) then GoingHome
    else s
  }

  /** The point lies in one of the food sources. */
  predicate AtSource(pos: Vec2, sources: seq<Circle>)
  {
    |sources| > 0 && (InCircle(pos, sources[0]) || AtSource(pos, sources[1..]))
  }

  /** `AtSource` is membership in some source's circle. */
  lemma {:induction false} AtSourceSome(pos: Vec2, sources: seq<Circle>)
    ensures AtSource(pos, sources) <==> exists i :: 0 <= i < |sources| && InCircle(pos, sources[i])
  {
    if |sources| > 0 {
      AtSourceSome(pos, sources[1..]);
      if exists i :: 0 <= i < |sources| && InCircle(pos, sources[i]) {
        var i :| 0 <= i < |sources| && InCircle(pos, sources[i]);
        if i > 0 {
          assert sources[1..][i - 1] == sources[i];
        }
      }
      if AtSource(pos, sources[1..]) {
        var j :| 0 <= j < |sources[1..]| && InCircle(pos, sources[1..][j]);
        assert sources[j + 1] == sources[1..][j];
      }
    }
  }

  /** A cooldown after one frame: decremented by `dt`, and back to its base
      once it has run out. */
  function Tick(c: real, dt: real, base: real): real
  {
    if c - dt <= 0.0 then base else c - dt
  }

  /** With a non-negative frame time a cooldown stays in (0, base]: it never
      runs negative between frames. */
  lemma TickStaysInPeriod(c: real, dt: real, base: real)
    requires 0.0 < c <= base && dt >= 0.0
    ensures 0.0 < Tick(c, dt, base) <= base
  {
  }

  /** The attraction cooldown's base is 0, so once it is at its base it
      fires on every frame. */
  lemma AttractionEveryFrame(c: real, dt: real)
    requires c == AntAttractionBase && dt >= 0.0
    ensures c - dt <= 0.0 && Tick(c, dt, AntAttractionBase) == AntAttractionBase
  {
  }

  /** The wander turn `(rand() % 20 - 10) * DEG2RAD` for a non-negative
      `rand()` value: between -10 and +9 degrees. */
  function WanderAngle(roll: nat): (a: real)
    ensures -10.0 * DEG2RAD <= a <= 9.0 * DEG2RAD
  {
    (roll % 20 - 10) as real * DEG2RAD
  }

  /** The centre of a cell on screen: `x * cell_radius + cell_radius / 2.0`. */
  function Target(c: Cell): Vec2
  {
    Vec2(c.x as real * CellRadius as real + CellRadius as real / 2.0,
         c.y as real * CellRadius as real + CellRadius as real / 2.0)
  }

  /** The screen point an ant steers to lies in the cell that attracted it:
      mapping it back to a cell gives that cell again. */
  lemma {:induction false} TargetInCell(c: Cell)
    requires InGrid(c.x, c.y)
    ensures ClampedCell(Target(c)) == (c.x, c.y)
  {
    var t := Target(c);
    assert CellRadius as real == 2.0;
    assert t.x == (c.x as real + 0.5) * 2.0 && t.y == (c.y as real + 0.5) * 2.0;
    assert t.x / CellRadius as real == c.x as real + 0.5;
    assert t.y / CellRadius as real == c.y as real + 0.5;
    CentreTruncates(c.x);
    CentreTruncates(c.y);
  }

  lemma CentreTruncates(n: nat)
    ensures Trunc(n as real + 0.5) == n
  {
    var m := Trunc(n as real + 0.5);
    assert m as real <= n as real + 0.5 < m as real + 1.0;
  }

  /** Normalise a steering vector unless it is (nearly) zero. */
  function Steer(v: Vec2, normalize: Vec2 -> Vec2): Vec2
  {
    if v.LengthSq() > 0.00001 then normalize(v) else v
  }

  /** The heading after the attraction step: towards the centre of the cell
      `find_attractive_cell2` picks, or unchanged when it picks none. */
  function Attracted(pos: Vec2, dir: Vec2, state: AntState, field: array2<Cell>,
                     rotate: (Vec2, real) -> Vec2, normalize: Vec2 -> Vec2): Vec2
    reads field
    requires IsField(field)
  {
    match AttractiveCell2(pos, dir, state, field, rotate)
    case None => dir
    case Some((x, y)) => Steer(Target(field[x, y]).Sub(pos), normalize)
  }

  /** The attraction step of `ant_update`, on the field as it is. */
  method Steering(pos: Vec2, dir: Vec2, state: AntState, field: array2<Cell>,
                  rotate: (Vec2, real) -> Vec2, normalize: Vec2 -> Vec2) returns (d: Vec2)
    requires IsField(field)
    ensures d == Attracted(pos, dir, state, field, rotate, normalize)
  {
    var attractor := AttractiveCell2(pos, dir, state, field, rotate);
    d := dir;
    if attractor.Some? {
      var (x, y) := attractor.value;
      var toAttractor := Target(field[x, y]).Sub(pos);
      if toAttractor.LengthSq() > 0.00001 {
        toAttractor := normalize(toAttractor);
      }
      d := toAttractor;
    }
  }

  /** The heading after hitting a window edge: each component whose
      coordinate is at or past an edge is negated. */
  function Bounce(pos: Vec2, dir: Vec2): (d: Vec2)
    ensures Abs(d.x) == Abs(dir.x) && Abs(d.y) == Abs(dir.y)
    ensures 0.0 < pos.x < WindowsWidth as real ==> d.x == dir.x
    ensures 0.0 < pos.y < WindowsHeight as real ==> d.y == dir.y
    ensures pos.x <= 0.0 ==> d.x == -dir.x
    ensures pos.x >= WindowsWidth as real ==> d.x == -dir.x
    ensures pos.y <= 0.0 ==> d.y == -dir.y
    ensures pos.y >= WindowsHeight as real ==> d.y == -dir.y
  {
    Vec2(if pos.x >= WindowsWidth as real || pos.x <= 0.0 then -dir.x else dir.x,
         if pos.y >= WindowsHeight as real || pos.y <= 0.0 then -dir.y else dir.y)
  }

  /** The state of one ant (`ant_t`) as a value. */
  datatype AntData = AntData(position: Vec2, direction: Vec2, state: AntState, speed: real,
                             dirCooldown: real, markerCooldown: real, attractionCooldown: real)

  /** The cooldowns are within their periods: the wander and marker timers in
      (0, base], the attraction timer at its base of 0. */
  predicate Settled(a: AntData)
  {
    && 0.0 < a.dirCooldown <= AntWanderBase
    && 0.0 < a.markerCooldown <= AntMarkerBase
    && a.attractionCooldown == AntAttractionBase
  }

  /** An ant as `main` creates it: at the colony, searching, with the given
      initial heading, speed 60 and every cooldown at its base. */
  function Spawned(colony: Vec2, heading: Vec2): (a: AntData)
    ensures Settled(a)
  {
    AntData(colony, heading, SearchingFood, AntSpeed, AntWanderBase, AntMarkerBase, AntAttractionBase)
  }

  // The stages of `ant_update`, in order, each on the ant's value.

  /** All three cooldowns run down by the frame time. */
  function CountedDown(a: AntData, dt: real): AntData
  {
    a.(dirCooldown := a.dirCooldown - dt,
       markerCooldown := a.markerCooldown - dt,
       attractionCooldown := a.attractionCooldown - dt)
  }

  /** Once the wander timer has run out: rearm it and turn the heading by the
      wander angle, renormalised. */
  function Wandered(a: AntData, roll: nat, rotate: (Vec2, real) -> Vec2, normalize: Vec2 -> Vec2): AntData
  {
    if a.dirCooldown <= 0.0
    then a.(dirCooldown := AntWanderBase, direction := normalize(rotate(a.direction, WanderAngle(roll))))
    else a
  }

  /** Once the marker timer has run out it is rearmed (the mark itself is
      left on the field, see `Ant.Mark`). */
  function Rearmed(a: AntData): AntData
  {
    if a.markerCooldown <= 0.0 then a.(markerCooldown := AntMarkerBase) else a
  }

  /** Once the attraction timer has run out: head for the attracting cell,
      if any, and rearm the timer. */
  function Attracting(a: AntData, field: array2<Cell>, rotate: (Vec2, real) -> Vec2,
                      normalize: Vec2 -> Vec2): AntData
    reads field
    requires IsField(field)
  {
    if a.attractionCooldown <= 0.0
    then a.(direction := Attracted(a.position, a.direction, a.state, field, rotate, normalize),
            attractionCooldown := AntAttractionBase)
    else a
  }

  /** Advance by speed * dt along the heading, then bounce off the edges. */
  function Moved(a: AntData, dt: real): AntData
  {
    var p := a.position.Add(a.direction.Scale(a.speed * dt));
    a.(position := p, direction := Bounce(p, a.direction))
  }

  /** The goal switch at the ant's position. */
  function Goal(a: AntData, sources: seq<Circle>, colony: Circle): AntData
  {
    a.(state := NextGoal(a.position, sources, colony, a.state))
  }

  /** One whole frame of `ant_update`; the attraction reads the field after
      the frame's mark. */
  function Step(a: AntData, field: array2<Cell>, sources: seq<Circle>, colony: Circle, dt: real, roll: nat,
                rotate: (Vec2, real) -> Vec2, normalize: Vec2 -> Vec2): AntData
    reads field
    requires IsField(field)
  {
    var b := Rearmed(Wandered(CountedDown(a, dt), roll, rotate, normalize));
    Goal(Moved(Attracting(b, field, rotate, normalize), dt), sources, colony)
  }

  /** Each cooldown of a frame is `Tick` of the one before, the speed never
      changes, and with a non-negative frame time the cooldowns stay within
      their periods. */
  lemma {:induction false} StepTimers(a: AntData, field: array2<Cell>, sources: seq<Circle>, colony: Circle,
                                      dt: real, roll: nat, rotate: (Vec2, real) -> Vec2, normalize: Vec2 -> Vec2)
    requires IsField(field)
    ensures var b := Step(a, field, sources, colony, dt, roll, rotate, normalize);
      && b.dirCooldown == Tick(a.dirCooldown, dt, AntWanderBase)
      && b.markerCooldown == Tick(a.markerCooldown, dt, AntMarkerBase)
      && b.attractionCooldown == Tick(a.attractionCooldown, dt, AntAttractionBase)
      && b.speed == a.speed
      && (Settled(a) && dt >= 0.0 ==> Settled(b))
  {
    if Settled(a) && dt >= 0.0 {
      TickStaysInPeriod(a.dirCooldown, dt, AntWanderBase);
      TickStaysInPeriod(a.markerCooldown, dt, AntMarkerBase);
      AttractionEveryFrame(a.attractionCooldown, dt);
    }
  }

  /** The goal after a frame: the colony sends the ant searching; otherwise
      a food source sends it home; otherwise it keeps its goal. */
  lemma {:induction false} StepGoal(a: AntData, field: array2<Cell>, sources: seq<Circle>, colony: Circle,
                                    dt: real, roll: nat, rotate: (Vec2, real) -> Vec2, normalize: Vec2 -> Vec2)
    requires IsField(field)
    ensures var b := Step(a, field, sources, colony, dt, roll, rotate, normalize);
      && (InCircle(b.position, colony) ==> b.state == SearchingFood)
      && ((!InCircle(b.position, colony) && exists i :: 0 <= i < |sources| && InCircle(b.position, sources[i]))
          ==> b.state == GoingHome)
      && ((!InCircle(b.position, colony) && forall i :: 0 <= i < |sources| ==> !InCircle(b.position, sources[i]))
          ==> b.state == a.state)
  {
    var b := Step(a, field, sources, colony, dt, roll, rotate, normalize);
    AtSourceSome(b.position, sources);
  }

  /** When the attraction picks a cell, the ant heads for a point of that
      very cell: its centre maps back to it. */
  lemma AttractionTargetsCell(pos: Vec2, dir: Vec2, state: AntState, field: array2<Cell>,
                              rotate: (Vec2, real) -> Vec2)
    requires Labelled(field)
    ensures var r := AttractiveCell2(pos, dir, state, field, rotate);
      r.Some? ==> ClampedCell(Target(field[r.value.0, r.value.1])) == r.value
  {
    var r := AttractiveCell2(pos, dir, state, field, rotate);
    if r.Some? {
      var (x, y) := r.value;
      assert field[x, y].x == x && field[x, y].y == y;
      TargetInCell(field[x, y]);
    }
  }

  /** `ant_t`. */
  class Ant {
    var position: Vec2
    var direction: Vec2
    var state: AntState
    var speed: real
    var dirCooldown: real
    var markerCooldown: real
    var attractionCooldown: real

    /** The ant's fields as a value. */
    ghost function Data(): AntData
      reads this
    {
      AntData(position, direction, state, speed, dirCooldown, markerCooldown, attractionCooldown)
    }

    ghost predicate Valid()
      reads this
    {
      Settled(Data())
    }

    constructor (colony: Vec2, heading: Vec2)
      ensures Valid()
      ensures Data() == Spawned(colony, heading)
    {
      position := colony;
      state := SearchingFood;
      direction := heading;
      speed := AntSpeed;
      dirCooldown := AntWanderBase;
      markerCooldown := AntMarkerBase;
      attractionCooldown := AntAttractionBase;
    }

    /** `ant_update` for one frame of length `dt`; `roll` is the `rand()`
        value drawn when the wander timer fires. The ant takes the value
        `Step` gives; its mark goes to the clamped cell of its position
        before the move, and no other cell changes. */
    method Update(field: array2<Cell>, sources: seq<Circle>, colony: Circle, dt: real, roll: nat,
                  rotate: (Vec2, real) -> Vec2, normalize: Vec2 -> Vec2)
      requires Labelled(field)
      modifies this, field
      ensures Labelled(field)
      ensures Data() == Step(old(Data()), field, sources, colony, dt, roll, rotate, normalize)
      ensures old(Valid()) && dt >= 0.0 ==> Valid()
      ensures var (r, c) := ClampedCell(old(position));
        && (old(markerCooldown) - dt <= 0.0 ==> field[r, c] == Marked(old(field[r, c]), old(state)))
        && (old(markerCooldown) - dt > 0.0 ==> field[r, c] == old(field[r, c]))
        && forall x, y :: InGrid(x, y) && (x, y) != (r, c) ==> field[x, y] == old(field[x, y])
    {
      Countdown(dt);
      Wander(roll, rotate, normalize);
      Mark(field);
      Attract(field, rotate, normalize);
      Move(dt);
      UpdateGoal(sources, colony);
      StepTimers(old(Data()), field, sources, colony, dt, roll, rotate, normalize);
    }

    method Countdown(dt: real)
      modifies this
      ensures Data() == CountedDown(old(Data()), dt)
    {
      dirCooldown := dirCooldown - dt;
      markerCooldown := markerCooldown - dt;
      attractionCooldown := attractionCooldown - dt;
    }

    method Wander(roll: nat, rotate: (Vec2, real) -> Vec2, normalize: Vec2 -> Vec2)
      modifies this
      ensures Data() == Wandered(old(Data()), roll, rotate, normalize)
    {
      if dirCooldown <= 0.0 {
        var rotation := WanderAngle(roll);
        dirCooldown := AntWanderBase;
        direction := rotate(direction, rotation);
        direction := normalize(direction);
      }
    }

    /** Once the marker timer has run out: rearm it and mark the ant's
        clamped cell for its state. */
    method Mark(field: array2<Cell>)
      requires Labelled(field)
      modifies this, field
      ensures Labelled(field)
      ensures Data() == Rearmed(old(Data()))
      ensures old(markerCooldown) > 0.0 ==> unchanged(field)
      ensures var (r, c) := ClampedCell(position);
        && (old(markerCooldown) <= 0.0 ==> field[r, c] == Marked(old(field[r, c]), state))
        && forall x, y :: InGrid(x, y) && (x, y) != (r, c) ==> field[x, y] == old(field[x, y])
    {
      if markerCooldown <= 0.0 {
        markerCooldown := AntMarkerBase;
        Deposit(field, position, state);
      }
    }

    method Attract(field: array2<Cell>, rotate: (Vec2, real) -> Vec2, normalize: Vec2 -> Vec2)
      requires IsField(field)
      modifies this
      ensures Data() == old(Attracting(Data(), field, rotate, normalize))
    {
      if attractionCooldown <= 0.0 {
        direction := Steering(position, direction, state, field, rotate, normalize);
        attractionCooldown := AntAttractionBase;
      }
    }

    method Move(dt: real)
      modifies this
      ensures Data() == Moved(old(Data()), dt)
    {
      ghost var before := Data();
      position := position.Add(direction.Scale(speed * dt));
      assert position == Moved(before, dt).position;

      if position.x >= WindowsWidth as real || position.x <= 0.0 {
        direction := direction.(x := -direction.x);
      }
      if position.y >= WindowsHeight as real || position.y <= 0.0 {
        direction := direction.(y := -direction.y);
      }
      assert direction == Bounce(position, before.direction);
    }

    /** The goal switch: the scan over the food sources stops at the first
        one the ant is in, and the colony, tested last, wins. */
    method UpdateGoal(sources: seq<Circle>, colony: Circle)
      modifies this
      ensures Data() == Goal(old(Data()), sources, colony)
    {
      for i := 0 to |sources|
        invariant Data() == old(Data())
        invariant AtSource(position, sources) == AtSource(position, sources[i..])
      {
        assert sources[i..][1..] == sources[i + 1..];
        if InCircle(position, sources[i]) {
          state := GoingHome;
          break;
        }
      }

      if InCircle(position, colony) {
        state := SearchingFood;
      }
    }
  }
}
