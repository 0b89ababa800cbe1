/**
 * The game's objects as the program keeps them: a `Snake` whose body is a
 * list of positions with the head at index 0 (the head object is also
 * `body[0]`, so the two cannot be told apart), and a `State` that owns the
 * snake, the foods and the level counters. Every method that changes them
 * is proved to move the abstract `Game` exactly as module Rules says.
 */
module Entities {
  import opened Geometry
  import opened Input
  import opened Rules
  import Invariants

  class Snake {
    /** Segment positions, head first. */
    var body: seq<Pos>
    /** The head's velocity, in cells per tick. */
    var xSpeed: int
    var ySpeed: int

    ghost predicate Valid()
      reads this
    {
      |body| >= 1
    }

    /** A one-segment snake at (x, y) with no velocity yet. */
    constructor (x: int, y: int)
      ensures Valid() && body == [Pos(x, y)] && xSpeed == 0 && ySpeed == 0
    {
      body := [Pos(x, y)];
      xSpeed, ySpeed := 0, 0;
    }

    /** `Head.ranIntoSelf`: scan the body from index 1 for the head's cell. */
    method HeadRanIntoSelf() returns (hit: bool)
      requires Valid()
      ensures hit <==> RanIntoSelf(body[0], body)
    {
      var i := 1;
      while i < |body|
        invariant 1 <= i <= |body|
        invariant forall j :: 1 <= j < i ==> body[j] != body[0]
      {
        if body[i] == body[0] {
          return true;
        }
        i := i + 1;
      }
      return false;
    }

    /** `Head.ranIntoFood`: the first food on the head's cell jumps to cell `eat`. */
    method HeadRanIntoFood(state: State, eat: Cell) returns (ate: bool)
      requires Valid()
      modifies state`food
      ensures ate <==> body[0] in old(state.food)
      ensures state.food == Eat(old(state.food), body[0], eat)
    {
      var i := 0;
      while i < |state.food|
        invariant 0 <= i <= |state.food|
        invariant state.food == old(state.food)
        invariant forall j :: 0 <= j < i ==> state.food[j] != body[0]
      {
        if state.food[i] == body[0] {
          state.food := state.food[i := Relocate(eat)];
          return true;
        }
        i := i + 1;
      }
      return false;
    }

    /** `Head.update`: steer by the direction set, then move the head one cell. */
    method HeadUpdate(dir: set<string>)
      requires Valid()
      modifies this`xSpeed, this`ySpeed, this`body
      ensures Valid()
      ensures Vel(xSpeed, ySpeed) == Steer(dir, old(Vel(xSpeed, ySpeed)))
      ensures body == old(body)[0 := Advance(old(body[0]), Vel(xSpeed, ySpeed))]
    {
      if ArrowUp in dir {
        xSpeed, ySpeed := 0, -1;
      } else if ArrowRight in dir {
        xSpeed, ySpeed := 1, 0;
      } else if ArrowDown in dir {
        xSpeed, ySpeed := 0, 1;
      } else if ArrowLeft in dir {
        xSpeed, ySpeed := -1, 0;
      }
      body := body[0 := Pos(body[0].x + xSpeed * Scale, body[0].y + ySpeed * Scale)];
    }

    /** `Snake.update`: collision check, food check, growth, shift loop, head advance. */
    method Update(state: State, dir: set<string>, eat: Cell)
      requires Valid() && state.snake == this
      modifies this, state
      ensures Valid()
      ensures state.Abs() == SnakeStep(old(state.Abs()), dir, eat)
    {
      var hit := RanIntoEdge(body[0]);
      if !hit {
        hit := HeadRanIntoSelf();
      }
      if hit {
        state.SetStatus(Lost);
        return;
      }

      var ate := HeadRanIntoFood(state, eat);
      if ate {
        body := body + [Pos(0, 0)];
      }

      ghost var grown := body;
      var i := |body| - 1;
      while i > 0
        modifies this`body
        invariant 0 <= i < |body| == |grown|
        invariant forall j :: 0 <= j <= i ==> body[j] == grown[j]
        invariant forall j :: i < j < |body| ==> body[j] == grown[j - 1]
      {
        body := body[i := body[i - 1]];
        i := i - 1;
      }
      assert body == Shift(grown);

      HeadUpdate(dir);
    }
  }

  class State {
    const snake: Snake
    var food: seq<Pos>
    /** The delay before the next tick. */
    var speed: real
    /** The body length that triggers the next level-up. */
    var nextLevel: int
    var level: int
    var status: Status

    ghost predicate Valid()
      reads this, snake
    {
      snake.Valid()
    }

    /** The game this object holds, as a value. */
    ghost function Abs(): Game
      reads this, snake
      requires Valid()
    {
      Game(snake.body, Vel(snake.xSpeed, snake.ySpeed), food, speed, level, nextLevel, status)
    }

    /** A game at level 1 with threshold 5, one food, playing. */
    constructor (snake: Snake, food: Pos, speed: real)
      requires snake.Valid()
      ensures Valid() && this.snake == snake
      ensures this.food == [food] && this.speed == speed
      ensures level == 1 && nextLevel == 5 && status == Playing
    {
      this.snake := snake;
      this.food := [food];
      this.speed := speed;
      this.nextLevel := 5;
      this.level := 1;
      this.status := Playing;
    }

    method SetSpeed(speed: real)
      modifies this`speed
      ensures this.speed == speed
    {
      this.speed := speed;
    }

    method SetStatus(status: Status)
      modifies this`status
      ensures this.status == status
    {
      this.status := status;
    }

    /** `State.setNextLevel`, with `spawn` the cell the new food (if any) lands on. */
    method SetNextLevel(spawn: Cell)
      requires Valid()
      modifies this`nextLevel, this`food, this`level
      ensures Valid()
      ensures Abs() == NextLevel(old(Abs()), spawn)
    {
      nextLevel := nextLevel + 5 + nextLevel / 2;
      if level % 2 == 0 {
        food := food + [Relocate(spawn)];
      }
      level := level + 1;
    }

    /** `State.update`: one tick; it keeps the game invariant. */
    method Update(dir: set<string>, eat: Cell, spawn: Cell)
      requires Valid()
      modifies this, snake
      ensures Valid()
      ensures Abs() == Tick(old(Abs()), dir, eat, spawn)
      ensures Invariants.Inv(old(Abs())) ==> Invariants.Inv(Abs())
    {
      snake.Update(this, dir, eat);
      if |snake.body| >= nextLevel {
        SetSpeed(speed * 0.8);
        SetNextLevel(spawn);
      }
      if Invariants.Inv(old(Abs())) {
        Invariants.TickPreservesInv(old(Abs()), dir, eat, spawn);
      }
    }
  }

  /** The start of `runGame`: a snake at the origin, one food at cell `food`, delay 150. */
  method NewGame(food: Cell) returns (state: State)
    ensures fresh(state) && fresh(state.snake) && state.Valid()
    ensures state.Abs() == Initial(food)
    ensures Invariants.Inv(state.Abs())
  {
    var snake := new Snake(0, 0);
    state := new State(snake, Relocate(food), InitialSpeed);
    Invariants.InitialInv(food);
  }
}
