/**
 * What the rules of one tick promise, and what holds of every game that
 * starts from a fresh state and receives any sequence of key presses and ticks.
 */
module Invariants {
  import opened Geometry
  import opened Input
  import opened Rules
  import opened Wrappers

  /** `b` raised to the power `n`. */
  function Power(b: real, n: nat): real
    decreases n
  {
    if n == 0 then 1.0 else b * Power(b, n - 1)
  }

  /** A cell of the board: grid-aligned and inside the edges. */
  predicate OnBoardCell(p: Pos) {
    OnGrid(p) && !RanIntoEdge(p)
  }

  /** The invariant of a game in progress. */
  predicate Inv(g: Game) {
    && 1 <= |g.body| < g.nextLevel
    && g.level >= 1
    && |g.food| == 1 + (g.level - 1) / 2
    && g.speed == InitialSpeed * Power(0.8, g.level - 1)
    && (forall i :: 0 <= i < |g.body| ==> OnGrid(g.body[i]))
    && (forall i :: 0 <= i < |g.food| ==> OnBoardCell(g.food[i]))
    && (g.vel == Vel(0, 0) || IsUnit(g.vel))
    && (g.status == Lost ==> Collides(g))
    && TailDistinct(g.body)
  }

  /** No two segments behind the head share a cell: only the head can land on the body. */
  predicate TailDistinct(body: seq<Pos>) {
    forall i, j :: 1 <= i < j < |body| ==> body[i] != body[j]
  }

  /** `q` is one of the four cells next to `p`. */
  predicate Adjacent(p: Pos, q: Pos) {
    || (p.x == q.x && (p.y - q.y == Scale || q.y - p.y == Scale))
    || (p.y == q.y && (p.x - q.x == Scale || q.x - p.x == Scale))
  }

  /**
   * The body is a contiguous trail of the head's past cells: each segment is
   * one cell from the one before it, and a snake longer than its head is moving.
   */
  predicate Trail(g: Game) {
    && (|g.body| >= 2 ==> IsUnit(g.vel))
    && forall i :: 1 <= i < |g.body| ==> Adjacent(g.body[i - 1], g.body[i])
  }

  // ---- one tick ----

  /** A head off the board or on its own body loses the game and changes nothing else. */
  lemma CollisionEndsTick(g: Game, dir: set<string>, eat: Cell, spawn: Cell)
    requires |g.body| >= 1 && Collides(g)
    ensures SnakeStep(g, dir, eat) == g.(status := Lost)
    ensures |g.body| < g.nextLevel ==> Tick(g, dir, eat, spawn) == g.(status := Lost)
  {
  }

  /** A one-segment snake never runs into itself: the scan starts at index 1. */
  lemma ShortSnakeNeverHitsSelf(g: Game)
    requires |g.body| == 1
    ensures Collides(g) <==> RanIntoEdge(g.body[0])
  {
  }

  /** Without a collision, each segment takes its predecessor's place and the tail is kept only when the head was on a food. */
  lemma TickShiftsBody(g: Game, dir: set<string>, eat: Cell, spawn: Cell)
    requires |g.body| >= 1 && !Collides(g)
    ensures var r := Tick(g, dir, eat, spawn);
      && |r.body| == |g.body| + (if g.body[0] in g.food then 1 else 0)
      && (forall i :: 1 <= i < |g.body| ==> r.body[i] == g.body[i - 1])
      && (g.body[0] in g.food ==> r.body[|g.body|] == g.body[|g.body| - 1])
      && r.status == g.status
  {
  }

  /** Without a collision, the head moves exactly one step of the steered velocity. */
  lemma TickAdvancesHead(g: Game, dir: set<string>, eat: Cell, spawn: Cell)
    requires |g.body| >= 1 && !Collides(g)
    ensures var r := Tick(g, dir, eat, spawn);
      && r.vel == Steer(dir, g.vel)
      && r.body[0] == Advance(g.body[0], r.vel)
      && (OnGrid(g.body[0]) ==> OnGrid(r.body[0]))
      && (OneArrow(dir) ==> IsUnit(r.vel))
  {
    if OneArrow(dir) {
      var k :| k in TrackedKeys && dir == {k};
      assert k in dir;
    }
  }

  /** The velocity follows the first of Up, Right, Down, Left held in the set, or stays. */
  lemma SteerPriority(dir: set<string>, v: Vel)
    ensures match FirstHeld(dir, SteerOrder)
      case Some(k) => Steer(dir, v) == Heading(k)
      case None => Steer(dir, v) == v
  {
    var o1 := [ArrowRight, ArrowDown, ArrowLeft];
    var o2 := [ArrowDown, ArrowLeft];
    var o3 := [ArrowLeft];
    var o4: seq<string> := [];
    assert SteerOrder[1..] == o1 && o1[1..] == o2 && o2[1..] == o3 && o3[1..] == o4;
    assert FirstHeld(dir, o3) == if ArrowLeft in dir then Some(ArrowLeft) else None;
    assert FirstHeld(dir, o2) == if ArrowDown in dir then Some(ArrowDown) else FirstHeld(dir, o3);
    assert FirstHeld(dir, o1) == if ArrowRight in dir then Some(ArrowRight) else FirstHeld(dir, o2);
    assert FirstHeld(dir, SteerOrder) == if ArrowUp in dir then Some(ArrowUp) else FirstHeld(dir, o1);
  }

  /** Without a collision, eating relocates exactly the first food at the head; a level-up may append one more. */
  lemma TickMovesOneFood(g: Game, dir: set<string>, eat: Cell, spawn: Cell)
    requires |g.body| >= 1 && !Collides(g)
    ensures var r := Tick(g, dir, eat, spawn);
      && |g.food| <= |r.food| <= |g.food| + 1
      && r.food[..|g.food|] == Eat(g.food, g.body[0], eat)
  {
  }

  /** The level-up step: it fires when the length reaches the threshold, at most once, with the source's increments. */
  lemma LevelUpStep(g: Game, dir: set<string>, eat: Cell, spawn: Cell)
    requires Inv(g)
    ensures var m := SnakeStep(g, dir, eat);
      var r := Tick(g, dir, eat, spawn);
      && (|m.body| >= g.nextLevel ==>
            && r.level == g.level + 1
            && r.nextLevel == g.nextLevel + 5 + g.nextLevel / 2
            && r.speed == g.speed * 0.8
            && |r.food| == |m.food| + (if g.level % 2 == 0 then 1 else 0))
      && (|m.body| < g.nextLevel ==> r == m)
      && |r.body| < r.nextLevel
  {
    if !Collides(g) {
      TickShiftsBody(g, dir, eat, spawn);
    }
  }

  /** From level 1 with threshold 5, reaching length 5 gives level 2, threshold 12 and no new food. */
  lemma FirstLevelUp(g: Game, spawn: Cell)
    requires g.level == 1 && g.nextLevel == 5 && |g.body| == 5
    ensures var r := LevelCheck(g, spawn);
      r.level == 2 && r.nextLevel == 12 && r.food == g.food && r.speed == g.speed * 0.8
  {
  }

  /**
   * A 180-degree turn at length 2 does not lose: head and tail swap cells and
   * the next pre-move check finds no collision (the tail was the head's
   * previous cell, which passed the edge test).
   */
  lemma ReversalAtLengthTwo(g: Game, dir: set<string>, eat: Cell, spawn: Cell)
    requires |g.body| == 2 && IsUnit(g.vel)
    requires g.body[0] == Advance(g.body[1], g.vel) && !RanIntoEdge(g.body[1])
    requires !Collides(g) && g.body[0] !in g.food
    requires Steer(dir, g.vel) == Reverse(g.vel)
    ensures var r := Tick(g, dir, eat, spawn);
      r.body == [g.body[1], g.body[0]] && !Collides(r)
  {
    var r := Tick(g, dir, eat, spawn);
    TickShiftsBody(g, dir, eat, spawn);
    TickAdvancesHead(g, dir, eat, spawn);
    assert r.body[0] == g.body[1];
    assert r.body[1] == g.body[0];
  }

  /**
   * At length 3 or more, a 180-degree turn after a straight move puts the head
   * on the segment two behind it, so the next tick is lost.
   */
  lemma ReversalAtLengthThree(g: Game, dir: set<string>, eat: Cell, spawn: Cell)
    requires |g.body| >= 3 && IsUnit(g.vel)
    requires g.body[0] == Advance(g.body[1], g.vel)
    requires !Collides(g)
    requires Steer(dir, g.vel) == Reverse(g.vel)
    ensures var r := Tick(g, dir, eat, spawn);
      r.body[0] == g.body[1] == r.body[2] && Collides(r)
    ensures Tick(Tick(g, dir, eat, spawn), dir, eat, spawn).status == Lost
  {
    var r := Tick(g, dir, eat, spawn);
    TickShiftsBody(g, dir, eat, spawn);
    TickAdvancesHead(g, dir, eat, spawn);
    assert r.body[0] == g.body[1];
    assert r.body[2] == g.body[1];
    assert RanIntoSelf(r.body[0], r.body);
  }

  /**
   * A 180-degree turn at length 2 on a tick that eats does lose: the pushed
   * segment keeps the old tail, so the head lands on the segment two behind it.
   */
  lemma ReversalAtLengthTwoWhileEating(g: Game, dir: set<string>, eat: Cell, spawn: Cell)
    requires |g.body| == 2 && IsUnit(g.vel)
    requires g.body[0] == Advance(g.body[1], g.vel)
    requires !Collides(g) && g.body[0] in g.food
    requires Steer(dir, g.vel) == Reverse(g.vel)
    ensures var r := Tick(g, dir, eat, spawn);
      r.body == [g.body[1], g.body[0], g.body[1]] && Collides(r)
  {
    var r := Tick(g, dir, eat, spawn);
    TickShiftsBody(g, dir, eat, spawn);
    TickAdvancesHead(g, dir, eat, spawn);
    assert r.body[0] == g.body[1];
    assert RanIntoSelf(r.body[0], r.body);
  }

  // ---- invariants over a game ----

  lemma InitialInv(food: Cell)
    ensures Inv(Initial(food))
  {
    var g := Initial(food);
    assert g.food[0] == Relocate(food);
  }

  /** The invariant keeps the "Food left" figure of the score line positive. */
  lemma FoodLeftPositive(g: Game)
    requires Inv(g)
    ensures FoodLeft(g) > 0
  {
  }

  /** One tick preserves the invariant. */
  lemma TickPreservesInv(g: Game, dir: set<string>, eat: Cell, spawn: Cell)
    requires Inv(g)
    ensures Inv(Tick(g, dir, eat, spawn))
  {
    var m := SnakeStep(g, dir, eat);
    var r := Tick(g, dir, eat, spawn);
    if Collides(g) {
      CollisionEndsTick(g, dir, eat, spawn);
    } else {
      TickShiftsBody(g, dir, eat, spawn);
      TickAdvancesHead(g, dir, eat, spawn);
      LevelUpStep(g, dir, eat, spawn);
      TickKeepsFoodOnCells(g, dir, eat, spawn);
      TickKeepsTailDistinct(g, dir, eat, spawn);
      assert r.vel == Vel(0, 0) || IsUnit(r.vel) by {
        assert Steer(dir, g.vel) == g.vel || IsUnit(Steer(dir, g.vel));
      }
      assert r.speed == InitialSpeed * Power(0.8, r.level - 1) by {
        if |m.body| >= g.nextLevel {
          assert Power(0.8, r.level - 1) == 0.8 * Power(0.8, g.level - 1);
        }
      }
      assert r.status == Playing;
    }
  }

  /** Segments behind the head stay pairwise distinct through a tick. */
  lemma TickKeepsTailDistinct(g: Game, dir: set<string>, eat: Cell, spawn: Cell)
    requires |g.body| >= 1 && TailDistinct(g.body)
    ensures TailDistinct(Tick(g, dir, eat, spawn).body)
  {
    var r := Tick(g, dir, eat, spawn);
    if !Collides(g) {
      TickShiftsBody(g, dir, eat, spawn);
      forall i, j | 1 <= i < j < |r.body|
        ensures r.body[i] != r.body[j]
      {
        assert r.body[i] == g.body[i - 1] && r.body[j] == g.body[j - 1];
        if i == 1 {
          assert !RanIntoSelf(g.body[0], g.body);
        }
      }
    }
  }

  /** With one arrow key held, a tick keeps the body a contiguous trail. */
  lemma TickKeepsTrail(g: Game, dir: set<string>, eat: Cell, spawn: Cell)
    requires |g.body| >= 1 && Trail(g) && OneArrow(dir)
    ensures Trail(Tick(g, dir, eat, spawn))
  {
    var r := Tick(g, dir, eat, spawn);
    if !Collides(g) {
      TickShiftsBody(g, dir, eat, spawn);
      TickAdvancesHead(g, dir, eat, spawn);
      forall i | 1 <= i < |r.body|
        ensures Adjacent(r.body[i - 1], r.body[i])
      {
        if i == 1 {
          assert r.body[1] == g.body[0];
        } else {
          assert r.body[i - 1] == g.body[i - 2] && r.body[i] == g.body[i - 1];
        }
      }
    }
  }

  /** Without a collision, every food after the tick lies on a board cell. */
  lemma TickKeepsFoodOnCells(g: Game, dir: set<string>, eat: Cell, spawn: Cell)
    requires Inv(g) && !Collides(g)
    ensures var r := Tick(g, dir, eat, spawn);
      forall i :: 0 <= i < |r.food| ==> OnBoardCell(r.food[i])
  {
    var m := SnakeStep(g, dir, eat);
    var r := Tick(g, dir, eat, spawn);
    forall i | 0 <= i < |m.food|
      ensures OnBoardCell(m.food[i])
    {
      var k := FirstFoodAt(g.food, g.body[0]);
      if k.Some? && i == k.value {
        assert m.food[i] == Relocate(eat);
      } else {
        assert m.food[i] == g.food[i];
      }
    }
    forall i | 0 <= i < |r.food|
      ensures OnBoardCell(r.food[i])
    {
      if i >= |m.food| {
        assert r.food[i] == Relocate(spawn);
      } else {
        assert r.food[i] == m.food[i];
      }
    }
  }

  /** Level, threshold and tick delay move only one way. */
  lemma TickMonotone(g: Game, dir: set<string>, eat: Cell, spawn: Cell)
    requires Inv(g)
    ensures var r := Tick(g, dir, eat, spawn);
      g.level <= r.level <= g.level + 1 && g.nextLevel <= r.nextLevel && r.speed <= g.speed
  {
    PowerPositive(0.8, g.level - 1);
  }

  lemma {:induction false} PowerPositive(b: real, n: nat)
    requires b > 0.0
    ensures Power(b, n) > 0.0
    decreases n
  {
    if n > 0 {
      PowerPositive(b, n - 1);
    }
  }

  /** A lost game that satisfies the invariant is a fixed point of the tick. */
  lemma LostIsAbsorbing(g: Game, dir: set<string>, eat: Cell, spawn: Cell)
    requires Inv(g) && g.status == Lost
    ensures Tick(g, dir, eat, spawn) == g
  {
    CollisionEndsTick(g, dir, eat, spawn);
  }

  // ---- a whole session: key presses between ticks ----

  /** What reaches the game: a keydown event, or a timer tick with the random cells it draws. */
  datatype Event = KeyDown(key: string) | Frame(eat: Cell, spawn: Cell)

  /** The direction tracker together with the game it steers. */
  datatype Session = Session(dir: set<string>, game: Game)

  function Start(food: Cell): Session {
    Session(InitialDirection, Initial(food))
  }

  function Step(s: Session, e: Event): (r: Session)
    requires |s.game.body| >= 1
    ensures |r.game.body| >= 1
  {
    match e
    case KeyDown(key) => s.(dir := Track(s.dir, key))
    case Frame(eat, spawn) => s.(game := Tick(s.game, s.dir, eat, spawn))
  }

  function Run(s: Session, events: seq<Event>): (r: Session)
    requires |s.game.body| >= 1
    ensures |r.game.body| >= 1
    decreases |events|
  {
    if events == [] then s else Run(Step(s, events[0]), events[1..])
  }

  predicate SessionInv(s: Session) {
    OneArrow(s.dir) && Inv(s.game) && Trail(s.game)
  }

  lemma StartInv(food: Cell)
    ensures SessionInv(Start(food))
  {
    InitialIsOneArrow();
    InitialInv(food);
  }

  /** Whatever keys are pressed and however many ticks run, the invariants hold. */
  lemma {:induction false} RunPreservesInv(s: Session, events: seq<Event>)
    requires SessionInv(s)
    ensures SessionInv(Run(s, events))
    decreases |events|
  {
    if events != [] {
      match events[0] {
        case KeyDown(key) =>
          TrackKeepsOneArrow(s.dir, key);
        case Frame(eat, spawn) =>
          TickPreservesInv(s.game, s.dir, eat, spawn);
          TickKeepsTrail(s.game, s.dir, eat, spawn);
      }
      RunPreservesInv(Step(s, events[0]), events[1..]);
    }
  }

  /** Level and threshold never decrease over a session. */
  lemma {:induction false} RunMonotone(s: Session, events: seq<Event>)
    requires SessionInv(s)
    ensures var r := Run(s, events);
      s.game.level <= r.game.level && s.game.nextLevel <= r.game.nextLevel
    decreases |events|
  {
    if events != [] {
      match events[0] {
        case KeyDown(key) =>
          TrackKeepsOneArrow(s.dir, key);
        case Frame(eat, spawn) =>
          TickPreservesInv(s.game, s.dir, eat, spawn);
          TickKeepsTrail(s.game, s.dir, eat, spawn);
          TickMonotone(s.game, s.dir, eat, spawn);
      }
      RunMonotone(Step(s, events[0]), events[1..]);
    }
  }

  /** Once lost, further events leave the game as it is: the timer may stop rescheduling. */
  lemma {:induction false} LostStaysLost(s: Session, events: seq<Event>)
    requires SessionInv(s) && s.game.status == Lost
    ensures Run(s, events).game == s.game
    decreases |events|
  {
    if events != [] {
      match events[0] {
        case KeyDown(key) =>
          TrackKeepsOneArrow(s.dir, key);
        case Frame(eat, spawn) =>
          LostIsAbsorbing(s.game, s.dir, eat, spawn);
      }
      LostStaysLost(Step(s, events[0]), events[1..]);
    }
  }
}
