/**
 * The snake game board: a snake that starts in the top-left cell of a
 * `height` x `width` grid, moves one cell per call, grows by one cell on
 * each piece of food it eats (the pieces appear one after another, in the
 * order of `food`), and the game ends when it leaves the board or runs into
 * its own body.
 */
module SnakeGame {
  import Seqs

  /** A grid cell, as the source's `[row, col]` pair. */
  datatype Cell = Cell(row: int, col: int)

  /** The move helper's answer for "game over". */
  const GameOver := -1

  /** Two cells that share a side. */
  predicate Adjacent(a: Cell, b: Cell) {
    (a.row == b.row && (a.col == b.col + 1 || a.col + 1 == b.col)) ||
    (a.col == b.col && (a.row == b.row + 1 || a.row + 1 == b.row))
  }

  /** The four directions `move` understands. */
  predicate IsDirection(direction: string) {
    direction == "U" || direction == "D" || direction == "L" || direction == "R"
  }

  /**
   * The cell the head moves to: one row up or down, one column left or
   * right; any other direction leaves the position on the head.
   */
  function Target(head: Cell, direction: string): (t: Cell)
    ensures IsDirection(direction) <==> t != head
    ensures IsDirection(direction) ==> Adjacent(head, t)
    ensures direction == "U" || direction == "D" <==> t.col == head.col && t.row != head.row
    ensures direction == "L" || direction == "R" <==> t.row == head.row && t.col != head.col
    ensures t.row < head.row <==> direction == "U"
    ensures t.col < head.col <==> direction == "L"
  {
    if direction == "U" then Cell(head.row - 1, head.col)
    else if direction == "D" then Cell(head.row + 1, head.col)
    else if direction == "L" then Cell(head.row, head.col - 1)
    else if direction == "R" then Cell(head.row, head.col + 1)
    else head
  }

  /** Consecutive cells of the body share a side: the body is one connected path. */
  ghost predicate Connected(body: seq<Cell>) {
    forall i | 0 <= i < |body| - 1 :: Adjacent(body[i], body[i + 1])
  }

  /** Inside a `height` x `width` board. */
  predicate Inside(c: Cell, height: int, width: int) {
    0 <= c.row < height && 0 <= c.col < width
  }

  /** A possible snake body: a connected path of distinct cells on the board. */
  ghost predicate Path(body: seq<Cell>, height: int, width: int) {
    Seqs.Distinct(body) && Connected(body) &&
    forall i | 0 <= i < |body| :: Inside(body[i], height, width)
  }

  /** Giving up the tail leaves a path that holds every other cell of the body. */
  lemma PopTail(body: seq<Cell>, height: int, width: int)
    requires Path(body, height, width) && body != []
    ensures Path(body[..|body| - 1], height, width)
    ensures forall c :: c in body[..|body| - 1] <==> c in body && c != body[|body| - 1]
  {
    var front := body[..|body| - 1];
    forall c | c in body && c != body[|body| - 1] ensures c in front {
      var j :| 0 <= j < |body| && body[j] == c;
      assert front[j] == c;
    }
  }

  /** A new head on the board, next to the old head and not on the body, extends the path. */
  lemma PushHead(body: seq<Cell>, t: Cell, height: int, width: int)
    requires Path(body, height, width) && Inside(t, height, width) && t !in body
    requires body != [] ==> Adjacent(t, body[0])
    ensures Path([t] + body, height, width)
  {
    var b := [t] + body;
    forall i, j | 0 <= i < j < |b| ensures b[i] != b[j] {
      assert b[j] == body[j - 1];
      if i > 0 { assert b[i] == body[i - 1]; }
    }
    forall i | 0 <= i < |b| - 1 ensures Adjacent(b[i], b[i + 1]) {
      if i > 0 { assert b[i] == body[i - 1] && b[i + 1] == body[i]; }
    }
    forall i | 0 <= i < |b| ensures Inside(b[i], height, width) {
      if i > 0 { assert b[i] == body[i - 1]; }
    }
  }

  /** What a move can change: the body, head first, and how many pieces of food have been eaten. */
  datatype Game = Game(snake: seq<Cell>, foodIdx: nat)

  /** The next piece of food, which `move` reads on every on-board step, is there. */
  predicate FoodLeft(food: seq<Cell>, height: int, width: int, g: Game, direction: string)
    requires g.snake != []
  {
    Inside(Target(g.snake[0], direction), height, width) ==> g.foodIdx < |food|
  }

  /**
   * One move of the game on `food` and a `height` x `width` board, with its
   * answer. Off the board: `GameOver`, nothing changes. Onto the next piece
   * of food: the body grows at the head. Otherwise the tail is given up
   * first; a collision with what is left of the body is `GameOver`, and a
   * free cell takes the new head. A move that goes on answers the length of
   * the body minus one.
   */
  function Step(food: seq<Cell>, height: int, width: int, g: Game, direction: string): (res: (Game, int))
    requires g.snake != [] && FoodLeft(food, height, width, g, direction)
    ensures res.1 == GameOver || res.1 == |res.0.snake| - 1
    ensures res.0.foodIdx == g.foodIdx || res.0.foodIdx == g.foodIdx + 1
  {
    var t := Target(g.snake[0], direction);
    var front := g.snake[..|g.snake| - 1];
    if !Inside(t, height, width) then (g, GameOver)
    else if t == food[g.foodIdx] then (Game([t] + g.snake, g.foodIdx + 1), |g.snake|)
    else if t in front then (Game(front, g.foodIdx), GameOver)
    else (Game([t] + front, g.foodIdx), |front|)
  }

  /** The game never puts the next piece of food on the body. */
  predicate FoodOffBody(food: seq<Cell>, g: Game) {
    g.foodIdx < |food| ==> food[g.foodIdx] !in g.snake
  }

  /**
   * A move keeps the body a non-empty connected path of distinct on-board
   * cells, and never eats more food than there is.
   */
  lemma StepKeepsBody(food: seq<Cell>, height: int, width: int, g: Game, direction: string)
    requires g.snake != [] && FoodLeft(food, height, width, g, direction)
    requires Path(g.snake, height, width) && g.foodIdx <= |food| && FoodOffBody(food, g)
    ensures var g' := Step(food, height, width, g, direction).0;
            g'.snake != [] && Path(g'.snake, height, width) && g'.foodIdx <= |food|
  {
    var t := Target(g.snake[0], direction);
    var front := g.snake[..|g.snake| - 1];
    if Inside(t, height, width) {
      if t == food[g.foodIdx] {
        PushHead(g.snake, t, height, width);
      } else {
        PopTail(g.snake, height, width);
        if t !in front {
          if front != [] {
            assert front[0] == g.snake[0];
            assert t != g.snake[0];
          }
          PushHead(front, t, height, width);
        }
      }
    }
  }

  /** While no move has ended the game, the answer is the number of pieces of food eaten. */
  lemma StepScore(food: seq<Cell>, height: int, width: int, g: Game, direction: string)
    requires g.snake != [] && FoodLeft(food, height, width, g, direction)
    requires |g.snake| == g.foodIdx + 1
    ensures var (g', r) := Step(food, height, width, g, direction);
            r != GameOver ==> r == g'.foodIdx && |g'.snake| == g'.foodIdx + 1
  {
  }

  /** Off the board the answer is `GameOver` and nothing changes. */
  lemma OffBoardChangesNothing(food: seq<Cell>, height: int, width: int, g: Game, direction: string)
    requires g.snake != [] && FoodLeft(food, height, width, g, direction)
    requires !Inside(Target(g.snake[0], direction), height, width)
    ensures Step(food, height, width, g, direction) == (g, GameOver)
  {
  }

  /** Eating pushes the new head, keeps the tail and counts the piece. */
  lemma EatingGrows(food: seq<Cell>, height: int, width: int, g: Game, direction: string)
    requires g.snake != [] && FoodLeft(food, height, width, g, direction)
    requires var t := Target(g.snake[0], direction);
             Inside(t, height, width) && t == food[g.foodIdx]
    ensures var (g', r) := Step(food, height, width, g, direction);
            g'.snake[1..] == g.snake && g'.foodIdx == g.foodIdx + 1 && r == |g.snake|
  {
  }

  /** The body grows exactly on the moves that eat. */
  lemma GrowsIffEats(food: seq<Cell>, height: int, width: int, g: Game, direction: string)
    requires g.snake != [] && FoodLeft(food, height, width, g, direction)
    ensures var g' := Step(food, height, width, g, direction).0;
            |g'.snake| == |g.snake| + 1 <==> g'.foodIdx == g.foodIdx + 1
    ensures var g' := Step(food, height, width, g, direction).0;
            |g'.snake| <= |g.snake| <==> g'.foodIdx == g.foodIdx
  {
  }

  /**
   * The tail leaves its cell before the head arrives: a body of distinct
   * cells may move into the cell its tail is on.
   */
  lemma ChasingTheTail(food: seq<Cell>, height: int, width: int, g: Game, direction: string)
    requires g.snake != [] && FoodLeft(food, height, width, g, direction)
    requires Seqs.Distinct(g.snake) && |g.snake| >= 2
    requires var t := Target(g.snake[0], direction);
             Inside(t, height, width) && t == g.snake[|g.snake| - 1] && t != food[g.foodIdx]
    ensures var (g', r) := Step(food, height, width, g, direction);
            r == |g.snake| - 1 && g'.snake == [g.snake[|g.snake| - 1]] + g.snake[..|g.snake| - 1]
  {
    var front := g.snake[..|g.snake| - 1];
    forall i | 0 <= i < |front| ensures front[i] != g.snake[|g.snake| - 1] {
      assert front[i] == g.snake[i];
    }
  }

  /**
   * Moving into any other body cell ends the game, and the tail given up
   * before the check stays given up.
   */
  lemma BitingEndsGame(food: seq<Cell>, height: int, width: int, g: Game, direction: string, i: nat)
    requires g.snake != [] && FoodLeft(food, height, width, g, direction)
    requires var t := Target(g.snake[0], direction);
             i < |g.snake| - 1 && t == g.snake[i] && Inside(t, height, width) && t != food[g.foodIdx]
    ensures Step(food, height, width, g, direction) == (Game(g.snake[..|g.snake| - 1], g.foodIdx), GameOver)
  {
    assert g.snake[..|g.snake| - 1][i] == g.snake[i];
  }

  /**
   * A direction other than U, D, L and R keeps the head where it is: a
   * one-cell snake stays put and goes on, a longer one runs into the cell
   * behind its head and the game ends.
   */
  lemma UnknownDirection(food: seq<Cell>, height: int, width: int, g: Game, direction: string)
    requires g.snake != [] && FoodLeft(food, height, width, g, direction)
    requires !IsDirection(direction) && Inside(g.snake[0], height, width) && FoodOffBody(food, g)
    ensures |g.snake| == 1 ==> Step(food, height, width, g, direction) == (g, 0)
    ensures |g.snake| >= 2 ==> Step(food, height, width, g, direction).1 == GameOver
  {
    if |g.snake| >= 2 {
      assert g.snake[..|g.snake| - 1][0] == g.snake[0];
    } else {
      assert [g.snake[0]] + g.snake[..0] == g.snake;
    }
  }

  class SnakeBoard {
    const food: seq<Cell>
    const height: int
    const width: int

    /** `visitedSnakeBody`: which cells the body covers, indexed `[row, col]`. */
    const grid: array2<bool>
    /** The body, head first and tail last. */
    var snake: seq<Cell>
    /** How many pieces of food have been eaten: the next piece is `food[foodIdx]`. */
    var foodIdx: nat

    /** Inside this board. */
    predicate OnBoard(c: Cell) {
      Inside(c, height, width)
    }

    /** `visitedSnakeBody` marks exactly the cells of the body. */
    ghost predicate Marked()
      reads this, grid
    {
      grid.Length0 == height && grid.Length1 == width &&
      forall r, c | 0 <= r < height && 0 <= c < width :: grid[r, c] == (Cell(r, c) in snake)
    }

    /**
     * The grid marks exactly the cells of the body; the body is a non-empty
     * connected path of distinct cells on the board; no more food has been
     * eaten than there is.
     */
    ghost predicate Valid()
      reads this, grid
    {
      Marked() && snake != [] && foodIdx <= |food| && Path(snake, height, width)
    }

    /** A board with the snake on the top-left cell and no food eaten. */
    constructor (width: int, height: int, food: seq<Cell>)
      requires width >= 1 && height >= 1
      ensures Valid()
      ensures this.width == width && this.height == height && this.food == food
      ensures snake == [Cell(0, 0)] && foodIdx == 0 && fresh(grid)
    {
      this.food := food;
      this.height := height;
      this.width := width;
      grid := new bool[height, width]((r: int, c: int) => r == 0 && c == 0);
      snake := [Cell(0, 0)];
      foodIdx := 0;
    }

    /** `snake.unshift(t)` with the grid cell of `t` marked. */
    method Unshift(t: Cell)
      requires Marked() && OnBoard(t)
      modifies this`snake, grid
      ensures Marked() && snake == [t] + old(snake)
    {
      snake := [t] + snake;
      grid[t.row, t.col] := true;
      forall r, c | 0 <= r < height && 0 <= c < width
        ensures grid[r, c] == (Cell(r, c) in snake)
      {
        if Cell(r, c) != t { assert grid[r, c] == old(grid[r, c]); }
      }
    }

    /** `snake.pop()` with the grid cell of the old tail cleared. */
    method Pop() returns (tail: Cell)
      requires Marked() && snake != [] && Path(snake, height, width)
      modifies this`snake, grid
      ensures Marked() && Path(snake, height, width)
      ensures tail == old(snake)[|old(snake)| - 1] && snake == old(snake)[..|old(snake)| - 1]
    {
      PopTail(snake, height, width);
      tail := snake[|snake| - 1];
      snake := snake[..|snake| - 1];
      grid[tail.row, tail.col] := false;
      forall r, c | 0 <= r < height && 0 <= c < width
        ensures grid[r, c] == (Cell(r, c) in snake)
      {
        if Cell(r, c) != tail { assert grid[r, c] == old(grid[r, c]); }
      }
    }

    /** The state a move can change. */
    ghost function State(): (g: Game)
      reads this
      ensures g.snake == snake && g.foodIdx == foodIdx
    {
      Game(snake, foodIdx)
    }

    /**
     * `move`: one step of the snake in `direction`, as `Step` describes it,
     * with the grid kept in step with the body.
     */
    method Move(direction: string) returns (r: int)
      requires Valid() && FoodLeft(food, height, width, State(), direction)
      requires FoodOffBody(food, State())
      modifies this, grid
      ensures Valid()
      ensures (State(), r) == Step(food, height, width, old(State()), direction)
    {
      StepKeepsBody(food, height, width, State(), direction);
      var t := Target(snake[0], direction);
      if !OnBoard(t) {
        return GameOver;
      }
      var foodPos := food[foodIdx];
      if t == foodPos {
        Unshift(t);
        foodIdx := foodIdx + 1;
      } else {
        var tail := Pop();
        if grid[t.row, t.col] {
          return GameOver;
        }
        Unshift(t);
      }
      r := |snake| - 1;
    }
  }

  /** The board of the source's own test: 3 wide, 2 high, food at (1,2) then (0,1). */
  const TestFood := [Cell(1, 2), Cell(0, 1)]

  /** The test's first two moves, right then down: no food is met. */
  method OpeningMoves(board: SnakeBoard) returns (a1: int, a2: int)
    requires board.Valid() && board.food == TestFood && board.width == 3 && board.height == 2
    requires board.snake == [Cell(0, 0)] && board.foodIdx == 0
    modifies board, board.grid
    ensures board.Valid() && board.snake == [Cell(1, 1)] && board.foodIdx == 0
    ensures a1 == 0 && a2 == 0
  {
    a1 := board.Move("R");
    assert board.snake == [Cell(0, 1)];
    a2 := board.Move("D");
  }

  /** Right onto the first piece of food, then up. */
  method FirstFood(board: SnakeBoard) returns (a3: int, a4: int)
    requires board.Valid() && board.food == TestFood && board.width == 3 && board.height == 2
    requires board.snake == [Cell(1, 1)] && board.foodIdx == 0
    modifies board, board.grid
    ensures board.Valid() && board.snake == [Cell(0, 2), Cell(1, 2)] && board.foodIdx == 1
    ensures a3 == 1 && a4 == 1
  {
    a3 := board.Move("R");
    assert board.snake == [Cell(1, 2), Cell(1, 1)] && board.foodIdx == 1;
    a4 := board.Move("U");
    assert [Cell(1, 2), Cell(1, 1)][..1] == [Cell(1, 2)];
  }

  /** Left onto the second piece of food, then up off the board. */
  method SecondFoodThenWall(board: SnakeBoard) returns (a5: int, a6: int)
    requires board.Valid() && board.food == TestFood && board.width == 3 && board.height == 2
    requires board.snake == [Cell(0, 2), Cell(1, 2)] && board.foodIdx == 1
    modifies board, board.grid
    ensures a5 == 2 && a6 == -1
  {
    a5 := board.Move("L");
    assert board.snake == [Cell(0, 1), Cell(0, 2), Cell(1, 2)] && board.foodIdx == 2;
    a6 := board.Move("U");
  }

  /** The game traced in the source's own test. */
  method HappyPath() returns (answers: seq<int>)
    ensures answers == [0, 0, 1, 1, 2, -1]
  {
    var board := new SnakeBoard(3, 2, TestFood);
    var a1, a2 := OpeningMoves(board);
    var a3, a4 := FirstFood(board);
    var a5, a6 := SecondFoodThenWall(board);
    answers := [a1, a2, a3, a4, a5, a6];
  }

  /** Food that curls the snake around the left 2 x 2 square of a 3-wide, 2-high board. */
  const CurlFood := [Cell(0, 1), Cell(1, 1), Cell(1, 0), Cell(0, 2)]

  /** Right from the start eats the first piece. */
  lemma CurlRight()
    ensures Step(CurlFood, 2, 3, Game([Cell(0, 0)], 0), "R")
         == (Game([Cell(0, 1), Cell(0, 0)], 1), 1)
  {
    var g := Game([Cell(0, 0)], 0);
    var t := Target(g.snake[0], "R");
    assert t == Cell(0, 1) == CurlFood[0];
    var st := Step(CurlFood, 2, 3, g, "R");
    assert st.0.snake == [t] + g.snake == [Cell(0, 1), Cell(0, 0)];
  }

  /** Down then eats the second piece. */
  lemma CurlDown()
    ensures Step(CurlFood, 2, 3, Game([Cell(0, 1), Cell(0, 0)], 1), "D")
         == (Game([Cell(1, 1), Cell(0, 1), Cell(0, 0)], 2), 2)
  {
    var g := Game([Cell(0, 1), Cell(0, 0)], 1);
    var t := Target(g.snake[0], "D");
    assert t == Cell(1, 1) == CurlFood[1];
    var st := Step(CurlFood, 2, 3, g, "D");
    assert st.0.snake == [t] + g.snake == [Cell(1, 1), Cell(0, 1), Cell(0, 0)];
  }

  /** Left then eats the third piece: the snake covers the left 2 x 2 square. */
  lemma CurlLeft()
    ensures Step(CurlFood, 2, 3, Game([Cell(1, 1), Cell(0, 1), Cell(0, 0)], 2), "L")
         == (Game([Cell(1, 0), Cell(1, 1), Cell(0, 1), Cell(0, 0)], 3), 3)
  {
    var g := Game([Cell(1, 1), Cell(0, 1), Cell(0, 0)], 2);
    var t := Target(g.snake[0], "L");
    assert t == Cell(1, 0) == CurlFood[2];
    var st := Step(CurlFood, 2, 3, g, "L");
    assert st.0.snake == [t] + g.snake == [Cell(1, 0), Cell(1, 1), Cell(0, 1), Cell(0, 0)];
  }

  /** Up enters the cell the tail is leaving and the game goes on. */
  lemma CurlChasesTail()
    ensures Step(CurlFood, 2, 3, Game([Cell(1, 0), Cell(1, 1), Cell(0, 1), Cell(0, 0)], 3), "U")
         == (Game([Cell(0, 0), Cell(1, 0), Cell(1, 1), Cell(0, 1)], 3), 3)
  {
    var g := Game([Cell(1, 0), Cell(1, 1), Cell(0, 1), Cell(0, 0)], 3);
    var t := Target(g.snake[0], "U");
    assert t == Cell(0, 0) != CurlFood[3];
    var front := g.snake[..|g.snake| - 1];
    assert front == [Cell(1, 0), Cell(1, 1), Cell(0, 1)];
    assert t !in front;
    var st := Step(CurlFood, 2, 3, g, "U");
    assert st.0.snake == [t] + front == [Cell(0, 0), Cell(1, 0), Cell(1, 1), Cell(0, 1)];
  }

  /** Down runs into the body: the game ends one cell shorter than before. */
  lemma CurlBites()
    ensures Step(CurlFood, 2, 3, Game([Cell(0, 0), Cell(1, 0), Cell(1, 1), Cell(0, 1)], 3), "D")
         == (Game([Cell(0, 0), Cell(1, 0), Cell(1, 1)], 3), GameOver)
  {
    var g := Game([Cell(0, 0), Cell(1, 0), Cell(1, 1), Cell(0, 1)], 3);
    var t := Target(g.snake[0], "D");
    assert t == Cell(1, 0) != CurlFood[3];
    var front := g.snake[..|g.snake| - 1];
    assert front == [Cell(0, 0), Cell(1, 0), Cell(1, 1)];
    assert t == front[1];
  }
}
