/** Client code that drives the engine through the scenarios its test suite describes,
    relying only on the contracts of SnakeGameLogic. */
module Scenarios {
  import opened SnakeGameLogic

  /** A fresh game has a one-segment snake at (10, 10), score 0, no direction, both
      flags off, and the food on the first drawn cell that misses the snake. */
  method FreshGame() {
    assert [Pos(10, 10), Pos(2, 4)][1] !in [StartCell];
    var g := new SnakeGame([Pos(10, 10), Pos(2, 4)], 0, 20, 400);
    assert g.tileCount == 20;
    assert g.snake == [Pos(10, 10)] && g.score == 0 && g.dx == 0 && g.dy == 0;
    assert !g.gameRunning && !g.gamePaused;
    assert FirstFree([Pos(10, 10), Pos(2, 4)], [Pos(10, 10)]) == 1;
    assert g.food == Pos(2, 4) && g.foodDirection == Pos(0, -1);
  }

  /** A running snake at the right edge that turns right leaves the board: the tick
      reports game over and the run ends. */
  method WallCollisionEndsRun(g: SnakeGame)
    requires g.tileCount == 20 && g.snake == [Pos(19, 10)] && g.Heading() == Pos(0, 0)
    requires g.Live() && g.FoodPlaced()
    modifies g
  {
    var accepted := g.SetDirection(1, 0);
    assert accepted && g.NextHead() != g.food;
    var r := g.Update([], 0, 0);
    assert g.snake == [Pos(20, 10)];
    assert r == UpdateResult(true, false) && !g.gameRunning;
  }

  /** Food one cell ahead of the head is eaten: score and length rise by one and the
      food is respawned off the snake. */
  method EatingGrowsAndScores() {
    assert [Pos(11, 10)][0] !in [StartCell];
    var g := new SnakeGame([Pos(11, 10)], 0);
    var accepted := g.SetDirection(1, 0);
    assert accepted;
    EatingMove(g);
  }

  /** The move itself, on an engine heading right whose head is one step from the food. */
  method EatingMove(g: SnakeGame)
    requires g.snake == [Pos(10, 10)] && g.dx == 1 && g.dy == 0 && g.food == Pos(11, 10)
    requires g.tileCount == 20 && g.score == 0
    modifies g
  {
    var grown := [Pos(11, 10), Pos(10, 10)];
    assert g.NextHead() == g.food && Grown(g.snake, g.NextHead()) == grown;
    assert [Pos(5, 6)][0] !in grown;
    g.MoveSnake([Pos(5, 6)], 2);
    assert g.snake == grown && g.score == 1;
    assert g.food == Pos(5, 6) && g.foodDirection == Pos(-1, 0);
  }

  /** A running tick that eats keeps the game going and scores one. */
  method EatingTickContinues() {
    assert [Pos(11, 10)][0] !in [StartCell];
    var g := new SnakeGame([Pos(11, 10)], 0);
    g.StartGame();
    var accepted := g.SetDirection(1, 0);
    assert accepted;
    EatingTick(g);
  }

  /** The tick itself: a running engine whose head is one step from the food eats it. */
  method EatingTick(g: SnakeGame)
    requires g.snake == [Pos(10, 10)] && g.dx == 1 && g.dy == 0 && g.food == Pos(11, 10)
    requires g.tileCount == 20 && g.gameRunning && !g.gamePaused && g.score == 0
    modifies g
  {
    assert g.NextHead() == g.food && Grown(g.snake, g.NextHead()) == [Pos(11, 10), Pos(10, 10)];
    assert [Pos(5, 6)][0] !in [Pos(11, 10), Pos(10, 10)];
    var r := g.Update([Pos(5, 6)], 2, 0);
    assert g.score == 1 && |g.snake| == 2;
    assert r == UpdateResult(false, true) && g.gameRunning;
  }

  /** A tick while paused changes nothing; resuming lets the next tick move. */
  method PausedTickIsNoOp() {
    assert [Pos(3, 4)][0] !in [StartCell];
    var g := new SnakeGame([Pos(3, 4)], 0);
    g.StartGame();
    var accepted := g.SetDirection(1, 0);
    assert accepted;
    PausedTick(g);
  }

  /** The ticks themselves, on a running engine heading right with the food elsewhere. */
  method PausedTick(g: SnakeGame)
    requires g.snake == [Pos(10, 10)] && g.dx == 1 && g.dy == 0 && g.food == Pos(3, 4)
    requires g.tileCount == 20 && g.Live()
    modifies g
  {
    g.PauseGame();
    assert g.gamePaused;
    var before := g.GetGameState();
    var r := g.Update([], 0, 0);
    assert r == UpdateResult(false, false);
    assert g.GetGameState() == before;
    g.PauseGame();
    r := g.Update([], 0, 0);
    assert g.snake == [Pos(11, 10)];
    assert r == UpdateResult(false, true);
  }

  /** Up then left on a three-segment snake moving right: both turns are accepted and
      the next move runs the head into the segment behind it. */
  method UTurn() {
    assert [Pos(3, 4)][0] !in [StartCell];
    var g := new SnakeGame([Pos(3, 4)], 0);
    g.snake := [Pos(10, 10), Pos(9, 10), Pos(8, 10)];
    g.dx, g.dy := 1, 0;
    var up := g.SetDirection(0, -1);
    var left := g.SetDirection(-1, 0);
    assert up && left;
    var before := g.snake;
    assert g.NextHead() == Pos(9, 10) != g.food;
    g.MoveSnake([], 0);
    assert g.snake == Slither(before, Pos(9, 10));
    assert g.snake[2] == g.snake[0] == Pos(9, 10);
    var hit := g.CheckCollision();
    assert hit;
  }

  /** Right, down, left, up are each accepted; down is then refused and the direction
      stays up. */
  method DirectionSequence() {
    assert [Pos(3, 4)][0] !in [StartCell];
    var g := new SnakeGame([Pos(3, 4)], 0);
    var a := g.SetDirection(1, 0);
    var b := g.SetDirection(0, 1);
    var c := g.SetDirection(-1, 0);
    var d := g.SetDirection(0, -1);
    assert a && b && c && d;
    var e := g.SetDirection(0, 1);
    assert !e && g.dx == 0 && g.dy == -1;
  }

  /** Food that would step onto the snake stays and takes the drawn direction; food
      at the left edge moving left stays too. */
  method BlockedFoodTurns() {
    assert [Pos(3, 4)][0] !in [StartCell];
    var g := new SnakeGame([Pos(3, 4)], 0);
    g.snake := [Pos(5, 5)];
    g.food, g.foodDirection := Pos(4, 5), Pos(1, 0);
    g.foodMoveCounter := g.foodMoveInterval - 1;
    g.MoveFood(1);
    assert g.food == Pos(4, 5) && g.foodDirection == Pos(0, 1) && g.foodMoveCounter == 0;

    g.food, g.foodDirection := Pos(0, 7), Pos(-1, 0);
    g.foodMoveCounter := g.foodMoveInterval - 1;
    g.MoveFood(3);
    assert g.food == Pos(0, 7) && g.foodDirection == Pos(1, 0);
  }
}
