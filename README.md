# Snake: a verified model of the game simulation

This project models the simulation core of a browser Snake game (`app.js`).
A snake moves on a 600 × 600 board of 20-unit cells. It eats food to grow, and it levels
up when its length reaches a threshold. It loses when its head leaves the board or lands
on its own body. One tick of `State.update` does these steps in order:

1. the pre-move collision check;
2. the food check, which relocates the eaten food and grows the body;
3. the in-place shift of the body;
4. the head's steering and advance;
5. the level-up check.

The model has three layers:

- **Module Rules** is a value-level specification. `Game` holds the body (head at index 0),
  the velocity, the foods, the delay, the level counters and the status. `SnakeStep`,
  `NextLevel`, `LevelCheck` and `Tick` give one tick as functions.
- **Module Entities** is the program's own imperative shape. Class `Snake` has a `body`
  sequence and the head velocity fields. Class `State` owns the snake, the foods, the delay,
  the counters and the status. Each mutating method is proved to change the abstract value
  `Abs()` exactly as Rules says. The shift loop copies `body[i-1]` into `body[i]` in
  descending order, as the source does.
- **Module Invariants** holds the properties of a tick and of a whole session. A session is
  any interleaving of key presses and ticks, starting from the state `runGame` builds.

Module Input models the key tracker, and module Geometry the board and food placement.

The head object is also `body[0]` in the source. So the model keeps no separate head
position: `body[0]` is the head, and `xSpeed`/`ySpeed` are fields of `Snake`.
`Segment.update` is the element assignment `body := body[i := body[i - 1]]` in the shift loop.

Three behaviours of the code are easy to misread; the model follows the code:

- A 180-degree turn at length 2 does not lose when that tick does not eat. Head and tail
  swap cells, and the next check finds nothing (`ReversalAtLengthTwo`). When the turning
  tick eats, the kept tail makes the next tick lose (`ReversalAtLengthTwoWhileEating`).
  At length 3 or more, a reversal after a straight move always loses on the next tick
  (`ReversalAtLengthThree`).
- The edge test is `x < 0 || x + 20 > 600` on each axis. A head at x = 580 is inside, and
  x = 600 is outside.
- The pushed `new Segment()` at (0, 0) is always overwritten by the shift. The net effect of
  growth is that the old tail is kept.

## Model

| member | source | states |
|---|---|---|
| Geometry.Relocate | app.js:146-150 | a relocated food lies on a multiple of 20 in [0, 580] on both axes, in the column and row drawn |
| Geometry.RanIntoEdge | app.js:160-164 | a head that fails the edge test is on none of the board's cells |
| Geometry.InBoundsIsCell | app.js:160-164 | a grid-aligned head passes the edge test iff it is the corner of one of the 30 × 30 cells |
| Geometry.EdgeIsExact | app.js:160-164 | x or y = 580 is in bounds; 600 and -20 are out |
| Input.Track | app.js:247-252 | a tracked key replaces the whole set, leaving exactly that one arrow key; any other key leaves the set unchanged |
| Input.InitialIsOneArrow | app.js:245 | the tracker starts as exactly {ArrowRight} |
| Input.TrackKeepsOneArrow | app.js:247-252 | after any keydown the set still holds exactly one of the four arrow keys |
| Input.LastWriterWins | app.js:247-252 | after any run of keydowns the set is {last tracked key}, or unchanged if no key was tracked |
| Input.DownThenLeft | app.js:247-252 | ArrowDown then ArrowLeft before a tick leaves only ArrowLeft |
| Rules.Heading | app.js:185-197 | each arrow key selects an axis unit velocity |
| Rules.Steer | app.js:184-197 | if the set holds an arrow key the new velocity is a unit vector; with none it is unchanged; with exactly {k} it is k's heading |
| Rules.Advance | app.js:199-200 | a unit velocity moves the head exactly one cell along one axis; grid alignment is kept |
| Rules.RanIntoSelf | app.js:177-182 | a snake of length 0 or 1 never runs into itself |
| Rules.Collides | app.js:211 | the pre-move test holds iff the head fails the edge test or lies on some segment after it |
| Rules.FirstFoodAt | app.js:166-175 | finds the first food on the head's cell (earlier foods differ), or none iff no food is there |
| Rules.Eat | app.js:166-175 | the food count is unchanged; only the first matching food moves, to the drawn cell; with no match nothing changes |
| Rules.Shift | app.js:220-223 | the shift keeps the length and head, and sets every `body[i]` (i ≥ 1) to the old `body[i-1]` |
| Rules.SnakeStep | app.js:210-226 | the body never empties; level, threshold and delay are untouched by the snake's move |
| Rules.NextLevel | app.js:111-115 | one food is appended iff the old level is even, and existing foods are kept; the body, velocity, delay and status are untouched |
| Rules.LevelCheck | app.js:120-123 | the level-up check changes neither body, velocity nor status |
| Rules.Tick | app.js:117-124 | a tick never empties the body |
| Invariants.CollisionEndsTick | app.js:210-214 | a head off the board or on `body[i]`, i ≥ 1, sets status lost and leaves body, velocity and food unchanged |
| Invariants.ShortSnakeNeverHitsSelf | app.js:177-182 | a one-segment snake loses only at an edge |
| Invariants.TickShiftsBody | app.js:216-223 | the length grows by exactly 1 iff the head was on a food; new `body[i]` = old `body[i-1]` for i ≥ 1; on growth the old tail is kept |
| Invariants.TickAdvancesHead | app.js:184-200 | the new head is the old head plus the steered velocity × 20; with one arrow key held the velocity is a unit vector |
| Invariants.SteerPriority | app.js:185-197 | the velocity follows the first of Up, Right, Down, Left in the set, or stays when none is held |
| Invariants.TickMovesOneFood | app.js:216-218 | foods are never removed: the old list after `Eat` is a prefix of the new one, and at most one food is appended |
| Invariants.LevelUpStep | app.js:111-124 | the level-up fires iff the length reached the threshold; it adds 5 + threshold/2 and one level, scales the delay by 0.8 and adds a food iff the old level is even; it cannot fire twice |
| Invariants.FirstLevelUp | app.js:111-124 | level 1, threshold 5, length 5 gives level 2, threshold 12 and no new food |
| Invariants.ReversalAtLengthTwo | app.js:210-226 | a 180-degree turn at length 2, on a tick that does not eat, swaps head and tail and does not collide |
| Invariants.ReversalAtLengthTwoWhileEating | app.js:210-226 | a 180-degree turn at length 2 on a tick that eats leaves the head on the kept tail, so the next check collides |
| Invariants.ReversalAtLengthThree | app.js:210-226 | a 180-degree turn after a straight move at length ≥ 3 collides on the next tick, whether or not that tick eats |
| Rules.Initial | app.js:94-101 | the fresh game is at level 1, playing, with one segment that does not collide, one food on a board cell and 4 food left |
| Invariants.InitialInv | app.js:94-101 | the fresh game (level 1, threshold 5, playing, one food, one segment at the origin) satisfies the invariant |
| Invariants.FoodLeftPositive | app.js:22-23 | under the invariant the "Food left" figure `nextLevel - body.length` is positive |
| Invariants.TickPreservesInv | app.js:117-124 | a tick keeps: 1 ≤ length < threshold; food count = 1 + (level-1) div 2; delay = 150 · 0.8^(level-1); body on the grid; foods on board cells; velocity zero or a unit vector; lost implies a collision; no two segments behind the head share a cell |
| Invariants.TickKeepsFoodOnCells | app.js:146-150 | after a tick without collision, every food (relocated, kept or newly spawned) lies on a board cell |
| Invariants.TickKeepsTailDistinct | app.js:216-223 | if no two segments behind the head share a cell before a tick, none do after it: only the head can land on the body |
| Invariants.TickKeepsTrail | app.js:216-225 | with one arrow key held, a tick keeps each segment one cell from the one before it, and a body longer than one is moving along a unit vector |
| Invariants.TickMonotone | app.js:117-124 | level grows by at most one per tick; threshold never decreases; delay never increases |
| Invariants.LostIsAbsorbing | app.js:117-124 | under the invariant a lost game is a fixed point of the tick |
| Invariants.Run | app.js:279-289 | a session of key presses and ticks never empties the body |
| Invariants.StartInv | app.js:244-269 | a new session (tracker {ArrowRight}, fresh game) satisfies the tracker, game and trail invariants |
| Invariants.RunPreservesInv | app.js:247-252 | any interleaving of keydowns and ticks keeps one arrow key in the tracker, the game invariant, and the body a contiguous trail of the head's past cells |
| Invariants.RunMonotone | app.js:279-289 | over a session level and threshold never decrease |
| Invariants.LostStaysLost | app.js:229-241 | once lost, no further event changes the game |
| Entities.Snake.constructor | app.js:205-208 | a one-segment snake at (x, y) with velocity (0, 0) |
| Entities.Snake.HeadRanIntoSelf | app.js:177-182 | the scan from index 1 answers exactly whether the head is on another segment |
| Entities.Snake.HeadRanIntoFood | app.js:166-175 | answers whether the head is on a food and relocates the first such food, as `Eat` does |
| Entities.Snake.HeadUpdate | app.js:184-201 | the velocity becomes `Steer(dir, old velocity)` and only the head moves, by that velocity |
| Entities.Snake.Update | app.js:210-226 | the game afterwards is exactly `SnakeStep` of the game before (collision, food, push, shift loop, head) |
| Entities.State.constructor | app.js:94-101 | one food, the given delay, threshold 5, level 1, playing |
| Entities.State.SetSpeed | app.js:103-105 | the delay becomes the given value |
| Entities.State.SetStatus | app.js:107-109 | the status becomes the given value |
| Entities.State.SetNextLevel | app.js:111-115 | the game afterwards is `NextLevel` of the game before |
| Entities.State.Update | app.js:117-124 | the game afterwards is `Tick` of the game before, and the game invariant is kept |
| Entities.NewGame | app.js:266-269 | a fresh state equals `Initial` and satisfies the invariant; this is also what a restart builds |

## Left out

- Rendering: `Score` and `CanvasDisplay` (app.js:4-91) draw on the DOM and canvas. Only
  the "Food left" figure is modelled, as `Rules.FoodLeft`.
- Timer loop: `runAnimation` (app.js:229-241) chains `setTimeout` calls. A session is
  modelled as a sequence of events (`Invariants.Run`). Its one rule, stop after a loss, is
  justified by `LostStaysLost`.
- Event listeners and click-to-restart (app.js:254-255, 266-289) are left out. A restart
  builds a fresh state, which is `Entities.NewGame`.
- Randomness: each `Math.floor(Math.random() * 30)` draw is a caller-supplied index in
  [0, 30). A food placement is a `Cell` of two such draws.
- Speed arithmetic: the delay is a `real` scaled by exactly 0.8. Floating-point rounding is
  not modelled.
- Initial velocity: the source's head starts with undefined speeds. The model starts at (0, 0).
  Every tick in a session sees a tracked arrow key, so the first tick always sets the velocity.
  With an empty direction set the model would keep (0, 0), where the source would compute NaN.
- Objects: `Segment`, `Food` and `Head` are positions held in sequences, not separate objects.
  No food or segment is shared between two places except the head, which is `body[0]`. So no
  aliasing is lost.
- Invariants.LostIsAbsorbing: holds only under the game invariant. The source's `update`
  does not test the status. A lost state that no longer collided would keep moving, but no
  session reaches one.
