/** A model of the tick-driven snake simulation: a grid of `tileCount` x `tileCount`
    cells, a snake whose head is at index 0, a wandering food item with its own
    direction and move cadence, a score and two run flags.

    The source draws random numbers for the food cell and for the food's wander
    direction. Here those draws are parameters: `draws` lists the cells the random
    source would produce one after another, and a `DirIndex` is the index into the
    four cardinal directions that the random source would pick. */
module SnakeGameLogic {

  /** A grid cell, or a direction vector when used as a step. */
  datatype Pos = Pos(x: int, y: int)

  /** The food's four wander directions, in the order the source lists them:
      up, down, left, right. */
  const Directions: seq<Pos> := [Pos(0, -1), Pos(0, 1), Pos(-1, 0), Pos(1, 0)]

  /** An index into the four wander directions, the range of the random pick. */
  type DirIndex = k: int | 0 <= k < 4

  /** The food attempts a move on every third call of MoveFood. */
  const FoodMoveInterval: int := 3

  /** The single segment a reset snake consists of. */
  const StartCell: Pos := Pos(10, 10)

  /** The result record of one tick. */
  datatype UpdateResult = UpdateResult(gameOver: bool, continues: bool)

  /** The snapshot handed to the presentation layer. */
  datatype GameState = GameState(snake: seq<Pos>, food: Pos, score: int,
                                 gameRunning: bool, gamePaused: bool, dx: int, dy: int)

  function Step(p: Pos, d: Pos): (q: Pos) {
    Pos(p.x + d.x, p.y + d.y)
  }

  function Opposite(d: Pos): (o: Pos) {
    Pos(-d.x, -d.y)
  }

  predicate InBounds(p: Pos, n: int) {
    0 <= p.x < n && 0 <= p.y < n
  }

  predicate InUnitRange(v: int) {
    -1 <= v <= 1
  }

  // ---------------------------------------------------------------------------
  // Direction intent

  /** The anti-reversal test of setDirection, on the literal values -1 and 1. Only a
      moving snake refuses, and never a request for the direction it already has. */
  predicate Reverses(cur: Pos, req: Pos): (refused: bool)
    ensures refused ==> cur != Pos(0, 0) && req != cur
  {
    (req.x == 1 && cur.x == -1) || (req.x == -1 && cur.x == 1) ||
    (req.y == 1 && cur.y == -1) || (req.y == -1 && cur.y == 1)
  }

  /** The direction after a request: a reversal is refused, anything else replaces
      the current direction at once. The result is the current direction or the
      request, and a moving snake with deltas in -1..1 is never turned straight back. */
  function Steer(cur: Pos, req: Pos): (r: Pos)
    ensures r == cur || r == req
    ensures InUnitRange(cur.x) && InUnitRange(cur.y) && cur != Pos(0, 0) ==> r != Opposite(cur)
  {
    if Reverses(cur, req) then cur else req
  }

  /** For deltas in -1..1, a request is refused exactly when it is the opposite of the
      current direction on an axis where the current direction is nonzero. */
  lemma ReversesIsOppositeOnNonzeroAxis(cur: Pos, req: Pos)
    requires InUnitRange(cur.x) && InUnitRange(cur.y) && InUnitRange(req.x) && InUnitRange(req.y)
    ensures Reverses(cur, req) <==> (cur.x != 0 && req.x == -cur.x) || (cur.y != 0 && req.y == -cur.y)
  {
  }

  /** Before the first move the direction is (0, 0), and every request is accepted. */
  lemma AtRestEveryRequestIsAccepted(req: Pos)
    ensures !Reverses(Pos(0, 0), req) && Steer(Pos(0, 0), req) == req
  {
  }

  /** Two accepted perpendicular turns between ticks add up to a reversal, which the
      anti-reversal rule alone does not prevent. */
  lemma TwoTurnsMakeReversal(d: Pos, turn: Pos)
    requires d in Directions && turn in Directions
    requires turn.x * d.x + turn.y * d.y == 0
    ensures !Reverses(d, turn) && !Reverses(turn, Opposite(d))
    ensures Steer(Steer(d, turn), Opposite(d)) == Opposite(d)
    ensures Reverses(d, Opposite(d))
  {
  }

  // ---------------------------------------------------------------------------
  // Snake movement and collision

  /** The snake after a move that eats: the new head is put in front. */
  function Grown(snake: seq<Pos>, head: Pos): (r: seq<Pos>)
    ensures |r| == |snake| + 1 && r[0] == head
    ensures forall i :: 1 <= i < |r| ==> r[i] == snake[i - 1]
  {
    [head] + snake
  }

  /** The snake after a move that does not eat: the new head is put in front and the
      tail segment is dropped, so the old body shifts down one index. */
  function Slither(snake: seq<Pos>, head: Pos): (r: seq<Pos>)
    requires |snake| > 0
    ensures |r| == |snake| && r[0] == head
    ensures forall i :: 1 <= i < |r| ==> r[i] == snake[i - 1]
    ensures forall p :: p in r ==> p == head || p in snake
  {
    [head] + snake[..|snake| - 1]
  }

  /** A snake collides when its head has left the board or lies on a later segment;
      a snake of one segment on the board never collides. */
  predicate Collides(snake: seq<Pos>, n: int): (hit: bool)
    requires |snake| > 0
    ensures hit <==> !InBounds(snake[0], n) || snake[0] in snake[1..]
    ensures |snake| == 1 && InBounds(snake[0], n) ==> !hit
  {
    !InBounds(snake[0], n) || exists i :: 1 <= i < |snake| && snake[i] == snake[0]
  }

  /** The classic U-turn: a straight snake of at least three segments whose direction
      has been turned twice into its own reversal runs into its second segment on the
      next move, whether or not that move eats. */
  lemma UTurnCollides(snake: seq<Pos>, d: Pos, turn: Pos, n: int)
    requires d in Directions && turn in Directions
    requires turn.x * d.x + turn.y * d.y == 0
    requires |snake| >= 3 && snake[1] == Step(snake[0], Opposite(d))
    ensures var back := Steer(Steer(d, turn), Opposite(d));
      Collides(Slither(snake, Step(snake[0], back)), n) &&
      Collides(Grown(snake, Step(snake[0], back)), n)
  {
    TwoTurnsMakeReversal(d, turn);
    var head := Step(snake[0], Opposite(d));
    assert head == snake[1];
    var slid, grown := Slither(snake, head), Grown(snake, head);
    assert slid[2] == slid[0] && grown[2] == grown[0];
    assert Collides(slid, n) && Collides(grown, n);
  }

  // ---------------------------------------------------------------------------
  // Food spawning and wandering

  /** What the retry loop needs of the random cells: each draw lies on the board and
      some draw misses the snake. Such draws exist only while the board has a free
      cell (see FreeCellGivesDraws for the converse). */
  predicate CanSpawn(draws: seq<Pos>, n: int, snake: seq<Pos>): (ok: bool)
    ensures ok ==> exists p :: InBounds(p, n) && p !in snake
  {
    && (forall i :: 0 <= i < |draws| ==> InBounds(draws[i], n))
    && exists i :: 0 <= i < |draws| && draws[i] !in snake
  }

  /** A reset snake is the single cell (10, 10), so on a board of at least one cell
      the corner (0, 0) is always free: reset and the constructor can always spawn. */
  lemma {:induction false} ResetCanAlwaysSpawn(n: int)
    requires n >= 1
    ensures CanSpawn([Pos(0, 0)], n, [StartCell])
  {
    FreeCellGivesDraws(Pos(0, 0), n, [StartCell]);
  }

  /** Any free cell of the board is a sequence of draws the retry loop accepts. */
  lemma FreeCellGivesDraws(p: Pos, n: int, snake: seq<Pos>)
    requires InBounds(p, n) && p !in snake
    ensures CanSpawn([p], n, snake)
  {
    assert [p][0] !in snake;
  }

  /** The index of the draw the retry loop keeps: the first one off the snake. */
  function FirstFree(draws: seq<Pos>, snake: seq<Pos>): (k: nat)
    requires exists i :: 0 <= i < |draws| && draws[i] !in snake
    ensures k < |draws| && draws[k] !in snake
    ensures forall j :: 0 <= j < k ==> draws[j] in snake
    decreases |draws|
  {
    if draws[0] !in snake then 0
    else
      var i :| 0 <= i < |draws| && draws[i] !in snake;
      assert draws[1..][i - 1] == draws[i];
      1 + FirstFree(draws[1..], snake)
  }

  /** One move attempt of the food: the food steps along its direction when the
      target cell is on the board and off the snake; otherwise it stays and takes
      the newly drawn direction. */
  function Wander(food: Pos, dir: Pos, snake: seq<Pos>, n: int, turn: DirIndex): (r: (Pos, Pos))
    ensures r.0 == food || (r.0 == Step(food, dir) && InBounds(r.0, n) && r.0 !in snake)
    ensures r.1 == dir || (r.0 == food && r.1 == Directions[turn])
    ensures InBounds(Step(food, dir), n) && Step(food, dir) !in snake <==> r == (Step(food, dir), dir)
    ensures !(InBounds(Step(food, dir), n) && Step(food, dir) !in snake) ==> r == (food, Directions[turn])
  {
    var target := Step(food, dir);
    if InBounds(target, n) && target !in snake then (target, dir) else (food, Directions[turn])
  }

  /** The food counter after one call of MoveFood. It stays within [0, interval). */
  function CounterAfter(counter: int, interval: int): (c: int)
    ensures 0 <= counter ==> 0 <= c
    ensures 0 < interval ==> c < interval
  {
    if counter + 1 >= interval then 0 else counter + 1
  }

  /** The food counter after k calls of MoveFood. */
  function CounterAfterCalls(counter: int, interval: int, k: nat): (c: int)
    ensures 0 <= counter < interval ==> 0 <= c < interval
  {
    if k == 0 then counter else CounterAfter(CounterAfterCalls(counter, interval, k - 1), interval)
  }

  /** From a fresh counter, the k-th call of MoveFood (counting from zero) attempts a
      move exactly when k is one less than a multiple of the interval, and the
      counter then reads k modulo the interval. */
  lemma {:induction false} FoodCadence(k: nat)
    ensures CounterAfterCalls(0, FoodMoveInterval, k) == k % FoodMoveInterval
    ensures CounterAfterCalls(0, FoodMoveInterval, k) + 1 >= FoodMoveInterval <==> k % FoodMoveInterval == 2
  {
    if k > 0 {
      FoodCadence(k - 1);
    }
  }

  // ---------------------------------------------------------------------------
  // The engine

  class SnakeGame {
    const gridSize: int
    const tileCount: int
    var snake: seq<Pos>
    var food: Pos
    var foodDirection: Pos
    var foodMoveCounter: int
    var foodMoveInterval: int
    var dx: int
    var dy: int
    var score: int
    var gameRunning: bool
    var gamePaused: bool

    /** The board has a cell and the snake always has a head. */
    predicate Valid()
      reads this
    {
      tileCount >= 1 && |snake| > 0
    }

    /** The food lies on the board, off the snake, with a cardinal wander direction. */
    predicate FoodPlaced()
      reads this
    {
      InBounds(food, tileCount) && food !in snake && foodDirection in Directions
    }

    /** The food counter lies below the interval it counts up to. */
    predicate CadenceValid()
      reads this
    {
      0 <= foodMoveCounter < foodMoveInterval
    }

    /** Whether a tick moves anything. */
    predicate Live()
      reads this
    {
      gameRunning && !gamePaused
    }

    /** The snake's current direction. */
    function Heading(): (h: Pos)
      reads this
    {
      Pos(dx, dy)
    }

    /** The cell the head moves to on the next move. */
    function NextHead(): (h: Pos)
      reads this
      requires Valid()
    {
      Step(snake[0], Heading())
    }

    constructor (draws: seq<Pos>, turn: DirIndex, gridSize: int := 20, canvasWidth: int := 400)
      requires gridSize > 0 && canvasWidth > 0 && canvasWidth % gridSize == 0
      requires CanSpawn(draws, canvasWidth / gridSize, [StartCell])
      ensures this.gridSize == gridSize && tileCount == canvasWidth / gridSize
      ensures snake == [StartCell] && score == 0 && dx == 0 && dy == 0
      ensures !gameRunning && !gamePaused
      ensures foodMoveCounter == 0 && foodMoveInterval == FoodMoveInterval
      ensures food == draws[FirstFree(draws, [StartCell])] && foodDirection == Directions[turn]
      ensures Valid() && FoodPlaced() && CadenceValid()
    {
      this.gridSize := gridSize;
      tileCount := canvasWidth / gridSize;
      new;
      Reset(draws, turn);
    }

    method Reset(draws: seq<Pos>, turn: DirIndex)
      requires CanSpawn(draws, tileCount, [StartCell])
      modifies this
      ensures snake == [StartCell] && score == 0 && dx == 0 && dy == 0
      ensures !gameRunning && !gamePaused
      ensures foodMoveCounter == 0 && foodMoveInterval == FoodMoveInterval
      ensures food == draws[FirstFree(draws, [StartCell])] && foodDirection == Directions[turn]
      ensures Valid() && FoodPlaced() && CadenceValid()
    {
      snake := [StartCell];
      foodDirection := Pos(0, 0);
      foodMoveCounter := 0;
      foodMoveInterval := FoodMoveInterval;
      dx := 0;
      dy := 0;
      score := 0;
      gameRunning := false;
      gamePaused := false;
      GenerateRandomFood(draws, turn);
    }

    /** Draws cells until one misses the snake, then draws a wander direction. */
    method GenerateRandomFood(draws: seq<Pos>, turn: DirIndex)
      requires CanSpawn(draws, tileCount, snake)
      modifies this`food, this`foodDirection
      ensures food == draws[FirstFree(draws, snake)]
      ensures InBounds(food, tileCount) && food !in snake
      ensures foodDirection == Directions[turn]
    {
      var i := 0;
      food := draws[0];
      var taken := IsOnSnake(food);
      while taken
        invariant 0 <= i <= FirstFree(draws, snake)
        invariant food == draws[i] && taken == (food in snake)
        decreases FirstFree(draws, snake) - i
      {
        i := i + 1;
        food := draws[i];
        taken := IsOnSnake(food);
      }
      SetRandomFoodDirection(turn);
    }

    method SetRandomFoodDirection(turn: DirIndex)
      modifies this`foodDirection
      ensures foodDirection == Directions[turn] && foodDirection in Directions
    {
      foodDirection := Directions[turn];
    }

    /** Whether a cell is covered by some segment of the snake. */
    method IsOnSnake(p: Pos) returns (found: bool)
      ensures found <==> p in snake
    {
      var i := 0;
      while i < |snake|
        invariant 0 <= i <= |snake|
        invariant forall j :: 0 <= j < i ==> snake[j] != p
      {
        if snake[i] == p {
          return true;
        }
        i := i + 1;
      }
      return false;
    }

    /** Counts a tick of the food's cadence; on every interval-th call, tries to step
        the food along its wander direction. */
    method MoveFood(turn: DirIndex)
      modifies this`food, this`foodDirection, this`foodMoveCounter
      ensures foodMoveCounter == CounterAfter(old(foodMoveCounter), foodMoveInterval)
      ensures old(foodMoveCounter) + 1 >= foodMoveInterval ==>
        (food, foodDirection) == Wander(old(food), old(foodDirection), snake, tileCount, turn)
      ensures old(foodMoveCounter) + 1 < foodMoveInterval ==>
        food == old(food) && foodDirection == old(foodDirection)
      ensures food != old(food) ==> InBounds(food, tileCount) && food !in snake
      ensures old(FoodPlaced()) ==> FoodPlaced()
      ensures old(CadenceValid()) ==> CadenceValid()
    {
      foodMoveCounter := foodMoveCounter + 1;
      if foodMoveCounter >= foodMoveInterval {
        foodMoveCounter := 0;
        var target := Step(food, foodDirection);
        var valid := true;
        if !InBounds(target, tileCount) {
          valid := false;
        }
        if valid {
          var hit := IsOnSnake(target);
          if hit {
            valid := false;
          }
        }
        if valid {
          food := target;
        } else {
          SetRandomFoodDirection(turn);
        }
      }
    }

    /** Puts the new head in front; eating grows the snake, scores and respawns the
        food, otherwise the tail is dropped. */
    method MoveSnake(draws: seq<Pos>, turn: DirIndex)
      requires Valid()
      requires NextHead() == food ==> CanSpawn(draws, tileCount, Grown(snake, NextHead()))
      modifies this`snake, this`score, this`food, this`foodDirection
      ensures Valid()
      ensures var head := Step(old(snake)[0], Heading());
        if head == old(food) then
          && snake == Grown(old(snake), head)
          && score == old(score) + 1
          && food == draws[FirstFree(draws, snake)]
          && foodDirection == Directions[turn]
        else
          && snake == Slither(old(snake), head)
          && score == old(score)
          && food == old(food) && foodDirection == old(foodDirection)
      ensures old(FoodPlaced()) ==> FoodPlaced()
    {
      var head := Step(snake[0], Heading());
      snake := [head] + snake;
      if head == food {
        score := score + 1;
        GenerateRandomFood(draws, turn);
      } else {
        snake := snake[..|snake| - 1];
      }
    }

    /** Whether the head has left the board or lies on the body; changes nothing. */
    method CheckCollision() returns (hit: bool)
      requires Valid()
      ensures hit == Collides(snake, tileCount)
    {
      var head := snake[0];
      if head.x < 0 || head.x >= tileCount || head.y < 0 || head.y >= tileCount {
        return true;
      }
      var i := 1;
      while i < |snake|
        invariant 1 <= i <= |snake|
        invariant forall j :: 1 <= j < i ==> snake[j] != head
      {
        if head == snake[i] {
          return true;
        }
        i := i + 1;
      }
      return false;
    }

    /** Applies a direction request unless it reverses the current direction. */
    method SetDirection(newDx: int, newDy: int) returns (accepted: bool)
      modifies this`dx, this`dy
      ensures accepted <==> !Reverses(old(Heading()), Pos(newDx, newDy))
      ensures Heading() == Steer(old(Heading()), Pos(newDx, newDy))
      ensures accepted ==> dx == newDx && dy == newDy
      ensures !accepted ==> dx == old(dx) && dy == old(dy)
    {
      if (newDx == 1 && dx == -1) || (newDx == -1 && dx == 1) ||
         (newDy == 1 && dy == -1) || (newDy == -1 && dy == 1)
      {
        return false;
      }
      dx := newDx;
      dy := newDy;
      return true;
    }

    method StartGame()
      modifies this`gameRunning, this`gamePaused
      ensures gameRunning && !gamePaused
    {
      gameRunning := true;
      gamePaused := false;
    }

    method PauseGame()
      modifies this`gamePaused
      ensures gamePaused == if gameRunning then !old(gamePaused) else old(gamePaused)
    {
      if gameRunning {
        gamePaused := !gamePaused;
      }
    }

    method GameOver()
      modifies this`gameRunning
      ensures !gameRunning
    {
      gameRunning := false;
    }

    /** One tick. Stopped or paused, it changes nothing; otherwise it moves the snake,
        then the food, and ends the run on a collision. */
    method Update(draws: seq<Pos>, spawnTurn: DirIndex, wanderTurn: DirIndex) returns (r: UpdateResult)
      requires Valid()
      requires Live() && NextHead() == food ==> CanSpawn(draws, tileCount, Grown(snake, NextHead()))
      modifies this`snake, this`score, this`food, this`foodDirection, this`foodMoveCounter, this`gameRunning
      ensures Valid()
      ensures !old(Live()) ==> r == UpdateResult(false, false) && unchanged(this)
      ensures old(Live()) ==>
        var head := Step(old(snake)[0], Heading());
        var ate := head == old(food);
        var spawned := if ate then (draws[FirstFree(draws, Grown(old(snake), head))], Directions[spawnTurn])
                       else (old(food), old(foodDirection));
        && snake == (if ate then Grown(old(snake), head) else Slither(old(snake), head))
        && score == (if ate then old(score) + 1 else old(score))
        && foodMoveCounter == CounterAfter(old(foodMoveCounter), foodMoveInterval)
        && (food, foodDirection) == (if old(foodMoveCounter) + 1 >= foodMoveInterval
                                     then Wander(spawned.0, spawned.1, snake, tileCount, wanderTurn)
                                     else spawned)
        && gameRunning == !Collides(snake, tileCount)
        && r == (if Collides(snake, tileCount) then UpdateResult(true, false) else UpdateResult(false, true))
      ensures old(FoodPlaced()) ==> FoodPlaced()
      ensures old(CadenceValid()) ==> CadenceValid()
    {
      if !gameRunning || gamePaused {
        return UpdateResult(false, false);
      }
      MoveSnake(draws, spawnTurn);
      MoveFood(wanderTurn);
      var hit := CheckCollision();
      if hit {
        GameOver();
        return UpdateResult(true, false);
      }
      return UpdateResult(false, true);
    }

    /** A snapshot of the observable state. */
    function GetGameState(): (s: GameState)
      reads this
      ensures s.snake == snake && s.food == food && s.score == score
      ensures s.gameRunning == gameRunning && s.gamePaused == gamePaused
      ensures s.dx == dx && s.dy == dy
    {
      GameState(snake, food, score, gameRunning, gamePaused, dx, dy)
    }
  }
}
