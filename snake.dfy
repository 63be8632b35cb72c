/** Snake: a square grid of tileCount x tileCount cells, a snake held as a
    sequence of cells (head first), one apple, a direction vector (dx, dy),
    the score and high score, the tick interval, pause and the run flag. */
module Snake {
  import opened Options

  /** A grid cell; the canvas cell (x, y) is drawn at (x*20, y*20). */
  datatype Pos = Pos(x: int, y: int)

  /** The four directions a key or an on-screen button can ask for. */
  datatype Direction = Up | Down | Left | Right

  predicate InGrid(p: Pos, n: int)
  {
    0 <= p.x < n && 0 <= p.y < n
  }

  /** (dx, dy) is one step along an axis. */
  predicate IsUnit(dx: int, dy: int)
  {
    (dx == 0 && (dy == 1 || dy == -1)) || (dy == 0 && (dx == 1 || dx == -1))
  }

  /** The snake has not started moving yet. */
  predicate IsStill(dx: int, dy: int)
  {
    dx == 0 && dy == 0
  }

  /** The step a direction names on screen (y grows downwards). */
  function Vector(d: Direction): (v: (int, int))
    ensures IsUnit(v.0, v.1)
  {
    match d
    case Up => (0, -1)
    case Down => (0, 1)
    case Left => (-1, 0)
    case Right => (1, 0)
  }

  /** The direction rule shared by the buttons and the keyboard: a request
      is ignored when it points straight back along the current vertical
      (for Up and Down) or horizontal (for Left and Right) motion. The
      result is the requested vector or the current one, and for a moving or
      still snake the request is taken exactly when it is not the reverse of
      the current motion. */
  function Turn(dx: int, dy: int, d: Direction): (r: (int, int))
    ensures r == Vector(d) || r == (dx, dy)
    ensures IsUnit(dx, dy) || IsStill(dx, dy) ==> (r == Vector(d) <==> Vector(d) != (-dx, -dy))
  {
    match d
    case Up => if dy != 1 then (0, -1) else (dx, dy)
    case Down => if dy != -1 then (0, 1) else (dx, dy)
    case Left => if dx != 1 then (-1, 0) else (dx, dy)
    case Right => if dx != -1 then (1, 0) else (dx, dy)
  }

  /** While moving, a turn is accepted exactly when it is not the reverse of
      the current direction; a still snake accepts every turn. Either way
      the vector stays one step along an axis. */
  lemma TurnNeverReverses(dx: int, dy: int, d: Direction)
    requires IsUnit(dx, dy) || IsStill(dx, dy)
    ensures IsUnit(Turn(dx, dy, d).0, Turn(dx, dy, d).1)
    ensures IsUnit(dx, dy) ==>
      Turn(dx, dy, d) == (if Vector(d) == (-dx, -dy) then (dx, dy) else Vector(d))
    ensures IsStill(dx, dy) ==> Turn(dx, dy, d) == Vector(d)
    ensures IsUnit(dx, dy) ==> Turn(dx, dy, d) != (-dx, -dy)
  {
  }

  /** The rule looks at the current vector, not at the last step taken, so
      two requests between ticks can reverse the snake: moving right, Up
      then Left leaves it heading left before it has moved up. */
  lemma TwoTurnsCanReverse()
    ensures var (dx1, dy1) := Turn(1, 0, Up); Turn(dx1, dy1, Left) == (-1, 0)
  {
  }

  /** The keys the keyboard handler maps to a direction. */
  function KeyDirection(key: string): (r: Option<Direction>)
    ensures r == Some(Up) <==> key in {"ArrowUp", "w", "W"}
    ensures r == Some(Down) <==> key in {"ArrowDown", "s", "S"}
    ensures r == Some(Left) <==> key in {"ArrowLeft", "a", "A"}
    ensures r == Some(Right) <==> key in {"ArrowRight", "d", "D"}
  {
    if key == "ArrowUp" || key == "w" || key == "W" then Some(Up)
    else if key == "ArrowDown" || key == "s" || key == "S" then Some(Down)
    else if key == "ArrowLeft" || key == "a" || key == "A" then Some(Left)
    else if key == "ArrowRight" || key == "d" || key == "D" then Some(Right)
    else None
  }

  /** The snake after one step: a new head one step from the old head, every
      old segment but the last shifted one place towards the tail. */
  function Moved(s: seq<Pos>, dx: int, dy: int): (r: seq<Pos>)
    requires |s| >= 1
    ensures |r| == |s|
    ensures r[0] == Pos(s[0].x + dx, s[0].y + dy)
    ensures forall i :: 1 <= i < |s| ==> r[i] == s[i - 1]
  {
    [Pos(s[0].x + dx, s[0].y + dy)] + s[..|s| - 1]
  }

  /** The head has left the grid or lies on another segment. */
  ghost predicate Collides(s: seq<Pos>, n: int)
    requires |s| >= 1
  {
    !InGrid(s[0], n) || exists i :: 1 <= i < |s| && s[i] == s[0]
  }

  /** No two segments share a cell. */
  ghost predicate Distinct(s: seq<Pos>)
  {
    forall i, j :: 0 <= i < j < |s| ==> s[i] != s[j]
  }

  /** A step that does not collide keeps a snake free of overlaps. */
  lemma MoveKeepsDistinct(s: seq<Pos>, dx: int, dy: int, n: int)
    requires |s| >= 1 && Distinct(s) && !Collides(Moved(s, dx, dy), n)
    ensures Distinct(Moved(s, dx, dy))
  {
    var m := Moved(s, dx, dy);
    forall i, j | 0 <= i < j < |m|
      ensures m[i] != m[j]
    {
      if i == 0 {
        assert m[j] != m[0];
      } else {
        assert m[i] == s[i - 1] && m[j] == s[j - 1];
      }
    }
  }

  /** Growing appends a copy of the tail, so right after an apple the last two
      segments share a cell until the next step. */
  lemma GrowthDuplicatesTail(s: seq<Pos>)
    requires |s| >= 1
    ensures var g := s + [s[|s| - 1]]; |g| >= 2 && g[|g| - 1] == g[|g| - 2]
  {
  }

  /** The first roll that misses the snake: the apple placement loop draws
      cells until one is free. */
  function FirstFree(rolls: seq<Pos>, s: seq<Pos>): (k: nat)
    requires exists i :: 0 <= i < |rolls| && rolls[i] !in s
    ensures k < |rolls| && rolls[k] !in s
    ensures forall j :: 0 <= j < k ==> rolls[j] in s
  {
    if rolls[0] !in s then 0
    else
      assert exists i :: 0 <= i < |rolls[1..]| && rolls[1..][i] !in s by {
        var i :| 0 <= i < |rolls| && rolls[i] !in s;
        assert rolls[1..][i - 1] == rolls[i];
      }
      1 + FirstFree(rolls[1..], s)
  }

  /** Some roll of the sequence lands on a free cell. */
  ghost predicate HitsFree(rolls: seq<Pos>, s: seq<Pos>)
  {
    exists i :: 0 <= i < |rolls| && rolls[i] !in s
  }

  /** Every roll is a cell of the grid, as floor(random() * tileCount) is. */
  ghost predicate RollsInGrid(rolls: seq<Pos>, n: int)
  {
    forall i :: 0 <= i < |rolls| ==> InGrid(rolls[i], n)
  }

  /** Some cell of the grid is free. */
  ghost predicate HasFreeCell(s: seq<Pos>, n: int)
  {
    exists p :: InGrid(p, n) && p !in s
  }

  /** The level shown after a speed-up: one more than the completed fifties. */
  function SpeedLevel(score: nat): (level: nat)
    ensures level >= 1
    ensures (level - 1) * 50 <= score < level * 50
  {
    score / 50 + 1
  }

  /** The cells (x, y) with 0 <= x < w in row y. */
  ghost function Row(w: nat, y: int): set<Pos>
  {
    if w == 0 then {} else Row(w - 1, y) + {Pos(w - 1, y)}
  }

  /** The cells of the first h rows of width w. */
  ghost function Block(w: nat, h: nat): set<Pos>
  {
    if h == 0 then {} else Block(w, h - 1) + Row(w, h - 1)
  }

  lemma {:induction false} RowShape(w: nat, y: int)
    ensures |Row(w, y)| == w
    ensures forall p :: p in Row(w, y) <==> 0 <= p.x < w && p.y == y
  {
    if w > 0 {
      RowShape(w - 1, y);
    }
  }

  lemma {:induction false} BlockCells(w: nat, h: nat)
    ensures forall p :: p in Block(w, h) <==> 0 <= p.x < w && 0 <= p.y < h
  {
    forall p: Pos
      ensures p in Block(w, h) <==> 0 <= p.x < w && 0 <= p.y < h
    {
      InBlock(w, h, p);
    }
  }

  lemma {:induction false} InBlock(w: nat, h: nat, p: Pos)
    ensures p in Block(w, h) <==> 0 <= p.x < w && 0 <= p.y < h
  {
    if h > 0 {
      InBlock(w, h - 1, p);
      InRow(w, h - 1, p);
    }
  }

  lemma {:induction false} InRow(w: nat, y: int, p: Pos)
    ensures p in Row(w, y) <==> 0 <= p.x < w && p.y == y
  {
    if w > 0 {
      InRow(w - 1, y, p);
    }
  }

  /** The number of cells of a w x h block, counted row by row. */
  function Area(w: nat, h: nat): nat
  {
    if h == 0 then 0 else Area(w, h - 1) + w
  }

  lemma {:induction false} AreaIsProduct(w: nat, h: nat)
    ensures Area(w, h) == w * h
  {
    if h > 0 {
      AreaIsProduct(w, h - 1);
      MulStep(w, h);
    }
  }

  lemma {:induction false} BlockSize(w: nat, h: nat)
    ensures |Block(w, h)| == Area(w, h)
  {
    if h > 0 {
      BlockSize(w, h - 1);
      NextRowIsNew(w, h - 1);
      RowShape(w, h - 1);
    }
  }

  lemma MulStep(w: nat, h: nat)
    requires h > 0
    ensures w * h == w * (h - 1) + w
  {
  }

  lemma NextRowIsNew(w: nat, h: nat)
    ensures Block(w, h) * Row(w, h) == {}
    ensures |Block(w, h) + Row(w, h)| == |Block(w, h)| + |Row(w, h)|
  {
    BlockCells(w, h);
    RowShape(w, h);
    var b, r := Block(w, h), Row(w, h);
    forall p: Pos | p in b
      ensures p !in r
    {
    }
    assert b * r == {};
  }


  lemma {:induction false} CellsOfSnake(s: seq<Pos>)
    ensures |set p | p in s| <= |s|
  {
    if |s| > 0 {
      var t := s[..|s| - 1];
      CellsOfSnake(t);
      assert (set p | p in s) == (set p | p in t) + {s[|s| - 1]};
    }
  }

  lemma {:induction false} SubsetSize(a: set<Pos>, b: set<Pos>)
    requires a <= b
    ensures |a| <= |b|
  {
    if a != {} {
      var p :| p in a;
      SubsetSize(a - {p}, b - {p});
    }
  }

  /** Pigeonhole: the grid still has a free cell while the snake has fewer
      segments than there are cells. */
  lemma ShortSnakeLeavesFreeCell(s: seq<Pos>, n: nat)
    requires |s| < n * n
    ensures HasFreeCell(s, n)
  {
    BlockCells(n, n);
    BlockSize(n, n);
    AreaIsProduct(n, n);
    CellsOfSnake(s);
    if !HasFreeCell(s, n) {
      assert Block(n, n) <= set p | p in s;
      SubsetSize(Block(n, n), set p | p in s);
      assert false;
    }
  }

  /** A free cell is all the placement loop needs: the rolls that start with
      it end the loop at once. */
  lemma FreeCellGivesRolls(s: seq<Pos>, n: int) returns (rolls: seq<Pos>)
    requires HasFreeCell(s, n)
    ensures RollsInGrid(rolls, n) && HitsFree(rolls, s)
    ensures FirstFree(rolls, s) == 0
  {
    var p :| InGrid(p, n) && p !in s;
    rolls := [p];
    assert rolls[0] == p && p !in s;
  }

  /** Growing repeats the tail cell, so a roll free of the moved snake is free
      of the grown one too. */
  lemma GrowthKeepsFree(m: seq<Pos>, rolls: seq<Pos>)
    requires |m| >= 1 && HitsFree(rolls, m)
    ensures HitsFree(rolls, m + [m[|m| - 1]])
    ensures FirstFree(rolls, m + [m[|m| - 1]]) == FirstFree(rolls, m)
  {
    var g := m + [m[|m| - 1]];
    forall p
      ensures p in g <==> p in m
    {
      if p in g {
        var i :| 0 <= i < |g| && g[i] == p;
        if i == |m| {
          assert m[|m| - 1] == p;
        } else {
          assert m[i] == p;
        }
      }
    }
    FirstFreeSameCells(rolls, m, g);
  }

  lemma {:induction false} FirstFreeSameCells(rolls: seq<Pos>, s: seq<Pos>, t: seq<Pos>)
    requires HitsFree(rolls, s)
    requires forall p :: p in s <==> p in t
    ensures HitsFree(rolls, t) && FirstFree(rolls, s) == FirstFree(rolls, t)
  {
    if rolls[0] in s {
      var i :| 0 <= i < |rolls| && rolls[i] !in s;
      assert rolls[1..][i - 1] == rolls[i];
      FirstFreeSameCells(rolls[1..], s, t);
    }
  }

  /** The whole game state. tileCount is the canvas width over the 20-pixel
      cell size; the high score starts from the stored value. */
  class SnakeGame {
    const tileCount: int
    var snake: seq<Pos>
    var apple: Pos
    var dx: int
    var dy: int
    var score: nat
    var highScore: nat
    var gameSpeed: int
    var isPaused: bool
    var gameActive: bool

    ghost predicate Valid()
      reads this
    {
      tileCount > 0 && |snake| >= 1 && (IsUnit(dx, dy) || IsStill(dx, dy))
      && (gameActive ==> IsUnit(dx, dy)) && score % 10 == 0
    }

    /** The state when the page loads. */
    constructor(tiles: int, storedHighScore: nat)
      requires tiles > 0
      ensures Valid() && tileCount == tiles
      ensures snake == [Pos(10, 10)] && apple == Pos(15, 15)
      ensures dx == 0 && dy == 0 && score == 0 && highScore == storedHighScore
      ensures gameSpeed == 150 && !isPaused && !gameActive
    {
      tileCount := tiles;
      snake := [Pos(10, 10)];
      apple := Pos(15, 15);
      dx, dy := 0, 0;
      score := 0;
      highScore := storedHighScore;
      gameSpeed := 150;
      isPaused := false;
      gameActive := false;
    }

    /** A difficulty button sets the tick interval in milliseconds. */
    method SetDifficulty(speed: int)
      modifies this`gameSpeed
      ensures gameSpeed == speed
    {
      gameSpeed := speed;
    }

    /** One step in the current direction; the length is kept. */
    method MoveSnake()
      requires |snake| >= 1
      modifies this`snake
      ensures |snake| == |old(snake)|
      ensures snake[0] == Pos(old(snake)[0].x + dx, old(snake)[0].y + dy)
      ensures forall i :: 1 <= i < |snake| ==> snake[i] == old(snake)[i - 1]
    {
      var head := Pos(snake[0].x + dx, snake[0].y + dy);
      snake := [head] + snake;
      snake := snake[..|snake| - 1];
    }

    /** Appends a copy of the last segment. */
    method GrowSnake()
      requires |snake| >= 1
      modifies this`snake
      ensures snake == old(snake) + [old(snake)[|old(snake)| - 1]]
    {
      var tail := snake[|snake| - 1];
      snake := snake + [tail];
    }

    /** Wall collision, then a scan of every segment after the head. */
    method CheckCollision() returns (hit: bool)
      requires |snake| >= 1
      ensures hit == Collides(snake, tileCount)
    {
      var head := snake[0];
      if head.x < 0 || head.x >= tileCount || head.y < 0 || head.y >= tileCount {
        return true;
      }
      var i := 1;
      while i < |snake|
        invariant 1 <= i <= |snake|
        invariant forall j :: 1 <= j < i ==> snake[j] != head
      {
        if head.x == snake[i].x && head.y == snake[i].y {
          return true;
        }
        i := i + 1;
      }
      return false;
    }

    method CheckAppleCollision() returns (eaten: bool)
      requires |snake| >= 1
      ensures eaten <==> snake[0] == apple
    {
      eaten := snake[0].x == apple.x && snake[0].y == apple.y;
    }

    /** The retry loop: rolls[k] is the cell drawn on the k-th try; the first
        one that misses the snake becomes the apple. */
    method PlaceApple(rolls: seq<Pos>) returns (tries: nat)
      requires HitsFree(rolls, snake)
      modifies this`apple
      ensures tries == FirstFree(rolls, snake) && apple == rolls[tries]
      ensures apple !in snake
      ensures RollsInGrid(rolls, tileCount) ==> InGrid(apple, tileCount)
    {
      ghost var k := FirstFree(rolls, snake);
      tries := 0;
      var validPosition := false;
      while !validPosition
        invariant tries <= k
        invariant validPosition ==> tries == k && apple == rolls[k]
        invariant !validPosition ==> forall j :: 0 <= j < tries ==> rolls[j] in snake
        decreases k - tries, !validPosition
      {
        apple := rolls[tries];
        validPosition := apple !in snake;
        if !validPosition {
          tries := tries + 1;
        }
      }
    }

    /** Back to a one-segment snake heading right, score 0, unpaused, with a
        fresh apple; the run flag, high score and speed are untouched. */
    method ResetGameState(rolls: seq<Pos>)
      requires Valid() && HitsFree(rolls, [Pos(10, 10)])
      modifies this`snake, this`dx, this`dy, this`score, this`isPaused, this`apple
      ensures Valid()
      ensures snake == [Pos(10, 10)] && dx == 1 && dy == 0 && score == 0 && !isPaused
      ensures apple == rolls[FirstFree(rolls, snake)] && apple !in snake
      ensures RollsInGrid(rolls, tileCount) ==> InGrid(apple, tileCount)
    {
      snake := [Pos(10, 10)];
      dx := 1;
      dy := 0;
      score := 0;
      isPaused := false;
      var _ := PlaceApple(rolls);
    }

    method StartGame(rolls: seq<Pos>)
      requires Valid() && HitsFree(rolls, [Pos(10, 10)])
      modifies this`snake, this`dx, this`dy, this`score, this`isPaused, this`apple, this`gameActive
      ensures Valid() && gameActive
      ensures snake == [Pos(10, 10)] && dx == 1 && dy == 0 && score == 0 && !isPaused
      ensures apple == rolls[FirstFree(rolls, snake)] && apple !in snake
      ensures RollsInGrid(rolls, tileCount) ==> InGrid(apple, tileCount)
    {
      ResetGameState(rolls);
      gameActive := true;
    }

    method RestartGame(rolls: seq<Pos>)
      requires Valid() && HitsFree(rolls, [Pos(10, 10)])
      modifies this`snake, this`dx, this`dy, this`score, this`isPaused, this`apple, this`gameActive
      ensures Valid() && gameActive
      ensures snake == [Pos(10, 10)] && dx == 1 && dy == 0 && score == 0 && !isPaused
      ensures apple == rolls[FirstFree(rolls, snake)] && apple !in snake
      ensures RollsInGrid(rolls, tileCount) ==> InGrid(apple, tileCount)
    {
      ResetGameState(rolls);
      gameActive := true;
    }

    /** Stops the run and keeps the better of the two scores. */
    method GameOver()
      requires Valid()
      modifies this`gameActive, this`highScore
      ensures Valid() && !gameActive
      ensures highScore == if old(score) > old(highScore) then old(score) else old(highScore)
      ensures highScore >= old(highScore) && highScore >= score
    {
      gameActive := false;
      if score > highScore {
        highScore := score;
      }
    }

    /** The player's answer to the confirmation prompt is a parameter. */
    method EndGame(confirmed: bool)
      requires Valid()
      modifies this`gameActive, this`highScore
      ensures Valid()
      ensures confirmed ==> !gameActive && highScore == if old(score) > old(highScore) then old(score) else old(highScore)
      ensures !confirmed ==> gameActive == old(gameActive) && highScore == old(highScore)
    {
      if confirmed {
        GameOver();
      }
    }

    method BackToMenu()
      requires Valid()
      modifies this`gameActive
      ensures Valid() && !gameActive
    {
      gameActive := false;
    }

    method TogglePause()
      modifies this`isPaused
      ensures isPaused == if gameActive then !old(isPaused) else old(isPaused)
    {
      if !gameActive {
        return;
      }
      isPaused := !isPaused;
    }

    /** The on-screen buttons: no check of the run or pause flags. */
    method ChangeDirection(d: Direction)
      requires Valid()
      modifies this`dx, this`dy
      ensures Valid()
      ensures (dx, dy) == Turn(old(dx), old(dy), d)
    {
      TurnNeverReverses(dx, dy, d);
      match d
      case Up =>
        if dy != 1 {
          dx := 0;
          dy := -1;
        }
      case Down =>
        if dy != -1 {
          dx := 0;
          dy := 1;
        }
      case Left =>
        if dx != 1 {
          dx := -1;
          dy := 0;
        }
      case Right =>
        if dx != -1 {
          dx := 1;
          dy := 0;
        }
    }

    /** The keyboard handler: ignored while stopped; Space toggles pause;
        while paused nothing else is taken; otherwise a direction key turns. */
    method HandleKey(code: string, key: string)
      requires Valid()
      modifies this`dx, this`dy, this`isPaused
      ensures Valid()
      ensures !gameActive ==> dx == old(dx) && dy == old(dy) && isPaused == old(isPaused)
      ensures gameActive && code == "Space" ==>
        isPaused == !old(isPaused) && dx == old(dx) && dy == old(dy)
      ensures gameActive && code != "Space" ==> isPaused == old(isPaused)
      ensures gameActive && code != "Space" && !old(isPaused) ==>
        (dx, dy) == (match KeyDirection(key)
                     case Some(d) => Turn(old(dx), old(dy), d)
                     case None => (old(dx), old(dy)))
      ensures gameActive && code != "Space" && old(isPaused) ==> dx == old(dx) && dy == old(dy)
    {
      if !gameActive {
        return;
      }
      if code == "Space" {
        TogglePause();
        return;
      }
      if isPaused {
        return;
      }
      match KeyDirection(key)
      case Some(d) => ChangeDirection(d);
      case None =>
    }

    /** The tick completes: the placement loop, when it runs, gets a roll
        that lands on a free cell of the grown snake. */
    ghost predicate TickCompletes(rolls: seq<Pos>)
      reads this
      requires |snake| >= 1
    {
      var m := Moved(snake, dx, dy);
      isPaused || !gameActive || Collides(m, tileCount) || m[0] != apple || HitsFree(rolls, m)
    }

    /** One tick of the timer. */
    method UpdateGame(rolls: seq<Pos>)
      requires Valid() && TickCompletes(rolls)
      modifies this
      ensures Valid()
      ensures dx == old(dx) && dy == old(dy) && isPaused == old(isPaused)
      ensures old(isPaused) || !old(gameActive) ==>
        snake == old(snake) && apple == old(apple) && score == old(score)
        && highScore == old(highScore) && gameSpeed == old(gameSpeed) && gameActive == old(gameActive)
      ensures !old(isPaused) && old(gameActive) ==>
        var m := Moved(old(snake), old(dx), old(dy));
        if Collides(m, tileCount) then
          snake == m && !gameActive && score == old(score) && apple == old(apple)
          && gameSpeed == old(gameSpeed)
          && highScore == (if old(score) > old(highScore) then old(score) else old(highScore))
        else if m[0] == old(apple) then
          snake == m + [m[|m| - 1]] && gameActive && score == old(score) + 10
          && apple == rolls[FirstFree(rolls, m)] && apple !in snake
          && (RollsInGrid(rolls, tileCount) ==> InGrid(apple, tileCount))
          && gameSpeed == (if score % 50 == 0 && old(gameSpeed) > 50 then old(gameSpeed) - 10 else old(gameSpeed))
          && highScore == old(highScore)
        else
          snake == m && gameActive && score == old(score) && apple == old(apple)
          && gameSpeed == old(gameSpeed) && highScore == old(highScore)
      ensures |snake| == |old(snake)| || |snake| == |old(snake)| + 1
    {
      if isPaused || !gameActive {
        return;
      }
      ghost var m := Moved(snake, dx, dy);
      MoveSnake();
      assert snake == m;
      var hit := CheckCollision();
      if hit {
        GameOver();
        return;
      }
      var eaten := CheckAppleCollision();
      if eaten {
        score := score + 10;
        GrowSnake();
        GrowthKeepsFree(m, rolls);
        var _ := PlaceApple(rolls);
        if score % 50 == 0 && gameSpeed > 50 {
          gameSpeed := gameSpeed - 10;
        }
      }
    }
  }
}
