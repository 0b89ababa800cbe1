/**
 * One tick of the game as a function on values: the specification that the
 * `Snake` and `State` classes of module Entities are proved to follow.
 */
module Rules {
  import opened Wrappers
  import opened Geometry
  import opened Input

  /** A head velocity in cells per tick; `Vel(0, 0)` before the first tick. */
  datatype Vel = Vel(dx: int, dy: int)

  datatype Status = Playing | Lost

  /** What a `State` holds: the body head-first (index 0 is the head), the head's velocity, the foods, the tick delay, the level counters and the status. */
  datatype Game = Game(body: seq<Pos>, vel: Vel, food: seq<Pos>, speed: real,
                       level: int, nextLevel: int, status: Status)

  /** One of the four axis-aligned unit vectors. */
  predicate IsUnit(v: Vel) {
    (v.dx == 0 && (v.dy == 1 || v.dy == -1)) || (v.dy == 0 && (v.dx == 1 || v.dx == -1))
  }

  /** The order in which `Head.update` consults the direction set. */
  const SteerOrder: seq<string> := [ArrowUp, ArrowRight, ArrowDown, ArrowLeft]

  /** The velocity each arrow key selects (y grows downwards). */
  function Heading(k: string): (v: Vel)
    requires k in TrackedKeys
    ensures IsUnit(v)
  {
    if k == ArrowUp then Vel(0, -1)
    else if k == ArrowRight then Vel(1, 0)
    else if k == ArrowDown then Vel(0, 1)
    else Vel(-1, 0)
  }

  /** The first key of `order` that `dir` holds (a reference definition of the priority). */
  function FirstHeld(dir: set<string>, order: seq<string>): (r: Option<string>)
    ensures r.Some? ==> r.value in dir && r.value in order
    ensures r.None? ==> forall i :: 0 <= i < |order| ==> order[i] !in dir
    decreases |order|
  {
    if order == [] then None
    else if order[0] in dir then Some(order[0])
    else FirstHeld(dir, order[1..])
  }

  /** The velocity chosen by `Head.update`: the first of Up, Right, Down, Left held in `dir`, else the old one. */
  function Steer(dir: set<string>, v: Vel): (r: Vel)
    ensures (exists k :: k in dir && k in TrackedKeys) ==> IsUnit(r)
    ensures (forall k :: k in dir ==> k !in TrackedKeys) ==> r == v
    ensures forall k :: k in TrackedKeys && dir == {k} ==> r == Heading(k)
  {
    if ArrowUp in dir then Vel(0, -1)
    else if ArrowRight in dir then Vel(1, 0)
    else if ArrowDown in dir then Vel(0, 1)
    else if ArrowLeft in dir then Vel(-1, 0)
    else v
  }

  /** The opposite velocity: the result of a 180-degree turn. */
  function Reverse(v: Vel): Vel {
    Vel(-v.dx, -v.dy)
  }

  /** The head's new position: one cell along `v`. */
  function Advance(p: Pos, v: Vel): (q: Pos)
    ensures OnGrid(p) ==> OnGrid(q)
    ensures IsUnit(v) ==> q != p && (q.x == p.x || q.y == p.y)
    ensures IsUnit(v) ==> q.x - p.x + q.y - p.y == Scale || p.x - q.x + p.y - q.y == Scale
  {
    Pos(p.x + v.dx * Scale, p.y + v.dy * Scale)
  }

  /** `Head.ranIntoSelf`: the head shares its cell with a segment other than itself. */
  predicate RanIntoSelf(head: Pos, body: seq<Pos>)
    ensures |body| <= 1 ==> !RanIntoSelf(head, body)
  {
    exists i :: 1 <= i < |body| && body[i] == head
  }

  /** The pre-move collision test of `Snake.update`. */
  predicate Collides(g: Game)
    requires |g.body| >= 1
    ensures Collides(g) <==> RanIntoEdge(g.body[0]) || g.body[0] in g.body[1..]
  {
    RanIntoEdge(g.body[0]) || RanIntoSelf(g.body[0], g.body)
  }

  /** The index of the first food at `p` (the loop of `Head.ranIntoFood`). */
  function FirstFoodAt(foods: seq<Pos>, p: Pos): (r: Option<nat>)
    ensures r.Some? ==> r.value < |foods| && foods[r.value] == p
    ensures r.Some? ==> forall j :: 0 <= j < r.value ==> foods[j] != p
    ensures r.None? <==> p !in foods
    decreases |foods|
  {
    if foods == [] then None
    else if foods[0] == p then Some(0)
    else match FirstFoodAt(foods[1..], p)
      case None => None
      case Some(k) => Some(k + 1)
  }

  /** The foods after `Head.ranIntoFood`: the first food at `head`, if any, jumps to cell `c`. */
  function Eat(foods: seq<Pos>, head: Pos, c: Cell): (r: seq<Pos>)
    ensures |r| == |foods|
    ensures head !in foods ==> r == foods
    ensures FirstFoodAt(foods, head).Some? ==>
      var k := FirstFoodAt(foods, head).value;
      r[k] == Relocate(c) && forall j :: 0 <= j < |foods| && j != k ==> r[j] == foods[j]
  {
    match FirstFoodAt(foods, head)
    case None => foods
    case Some(k) => foods[k := Relocate(c)]
  }

  /** The shift loop of `Snake.update`: every segment takes its predecessor's position; the head stays. */
  function Shift(b: seq<Pos>): (r: seq<Pos>)
    requires |b| >= 1
    ensures |r| == |b| && r[0] == b[0]
    ensures forall i :: 1 <= i < |b| ==> r[i] == b[i - 1]
  {
    [b[0]] + b[..|b| - 1]
  }

  /** `Snake.update`: collision check, food check, growth, shift, head advance. */
  function SnakeStep(g: Game, dir: set<string>, eat: Cell): (r: Game)
    requires |g.body| >= 1
    ensures |r.body| >= 1
    ensures r.level == g.level && r.nextLevel == g.nextLevel && r.speed == g.speed
  {
    if Collides(g) then g.(status := Lost)
    else
      var head := g.body[0];
      var grown := if head in g.food then g.body + [Pos(0, 0)] else g.body;
      var moved := Shift(grown);
      var v := Steer(dir, g.vel);
      g.(body := moved[0 := Advance(head, v)], vel := v, food := Eat(g.food, head, eat))
  }

  /** `State.setNextLevel`: raise the threshold, add a food when the old level is even, count the level. */
  function NextLevel(g: Game, spawn: Cell): (r: Game)
    ensures |r.food| == |g.food| + (if g.level % 2 == 0 then 1 else 0)
    ensures r.food[..|g.food|] == g.food
    ensures r.body == g.body && r.vel == g.vel && r.speed == g.speed && r.status == g.status
  {
    g.(nextLevel := g.nextLevel + 5 + g.nextLevel / 2,
       food := if g.level % 2 == 0 then g.food + [Relocate(spawn)] else g.food,
       level := g.level + 1)
  }

  /** The level-up check at the end of `State.update`: speed up and call `setNextLevel` once. */
  function LevelCheck(g: Game, spawn: Cell): (r: Game)
    ensures r.body == g.body && r.vel == g.vel && r.status == g.status
  {
    if |g.body| >= g.nextLevel then NextLevel(g.(speed := g.speed * 0.8), spawn) else g
  }

  /** `State.update`: one tick. */
  function Tick(g: Game, dir: set<string>, eat: Cell, spawn: Cell): (r: Game)
    requires |g.body| >= 1
    ensures |r.body| >= 1
  {
    LevelCheck(SnakeStep(g, dir, eat), spawn)
  }

  /** The tick delay `runGame` starts with. */
  const InitialSpeed: real := 150.0

  /** A fresh game: `new State(new Snake(0, 0), new Food(), 150)`. */
  function Initial(food: Cell): (g: Game)
    ensures |g.body| == 1 && !Collides(g) && FoodLeft(g) == 4
    ensures |g.food| == 1 && OnGrid(g.food[0]) && !RanIntoEdge(g.food[0])
    ensures g.level == 1 && g.status == Playing
  {
    Game([Pos(0, 0)], Vel(0, 0), [Relocate(food)], InitialSpeed, 1, 5, Playing)
  }

  /** The "Food left" figure of the score line. */
  function FoodLeft(g: Game): int {
    g.nextLevel - |g.body|
  }
}
