/** Tic-Tac-Toe: a 3x3 board of nine cells, the eight fixed winning lines,
    move legality, win and draw detection, turn alternation, per-session
    score counters, and the greedy computer opponent. */
module TicTacToe {
  /** A cell holds nothing (the source's empty string), an X or an O. */
  datatype Mark = Empty | X | O

  /** The two marks a player can place. */
  type Player = m: Mark | m != Empty witness X

  /** 'pvp' (two humans) or 'pvc' (human X against the computer as O). */
  datatype Mode = PvP | PvC

  function Other(p: Player): (q: Player)
    ensures q != p
  {
    if p == X then O else X
  }

  /** The winning combinations, in the source's table order. */
  const WinningLines: seq<(nat, nat, nat)> :=
    [(0, 1, 2), (3, 4, 5), (6, 7, 8),
     (0, 3, 6), (1, 4, 7), (2, 5, 8),
     (0, 4, 8), (2, 4, 6)]

  function Line(k: nat): (l: (nat, nat, nat))
    requires k < 8
    ensures l.0 < 9 && l.1 < 9 && l.2 < 9
    ensures l.0 != l.1 && l.1 != l.2 && l.0 != l.2
  {
    WinningLines[k]
  }

  const EmptyBoard: seq<Mark> := seq(9, _ => Empty)

  /** The corners the opponent tries, in the source's order. */
  const Corners: seq<nat> := [0, 2, 6, 8]

  /** Every cell index, in board order. */
  const AllCells: seq<nat> := [0, 1, 2, 3, 4, 5, 6, 7, 8]

  /** Number of cells of `b` holding `m`. */
  function CountOf(b: seq<Mark>, m: Mark): (n: nat)
    ensures n <= |b|
  {
    if b == [] then 0 else (if b[0] == m then 1 else 0) + CountOf(b[1..], m)
  }

  /** Line `k` holds three equal non-empty marks (the source tests the first
      cell for truthiness, so three empty cells do not win). */
  predicate LineWon(b: seq<Mark>, k: nat)
    requires |b| == 9 && k < 8
  {
    var (x, y, z) := Line(k);
    b[x] != Empty && b[x] == b[y] && b[x] == b[z]
  }

  /** Line `k` holds three marks `p`. */
  predicate LineWonBy(b: seq<Mark>, k: nat, p: Player)
    requires |b| == 9 && k < 8
  {
    var (x, y, z) := Line(k);
    b[x] == p && b[y] == p && b[z] == p
  }

  ghost predicate Wins(b: seq<Mark>)
    requires |b| == 9
  {
    exists k :: 0 <= k < 8 && LineWon(b, k)
  }

  ghost predicate WinsFor(b: seq<Mark>, p: Player)
    requires |b| == 9
  {
    exists k :: 0 <= k < 8 && LineWonBy(b, k, p)
  }

  /** The draw test: every cell is taken. */
  predicate Full(b: seq<Mark>)
  {
    forall i :: 0 <= i < |b| ==> b[i] != Empty
  }

  /** X always moves first and turns alternate, so X is never behind O and
      never more than one move ahead. */
  ghost predicate Balanced(b: seq<Mark>)
  {
    CountOf(b, O) <= CountOf(b, X) <= CountOf(b, O) + 1
  }

  /** What holds of a running game whose player to move is `p`: nobody has
      won, a cell is free, and it is X's turn exactly when the counts agree. */
  ghost predicate InPlay(b: seq<Mark>, p: Player)
    requires |b| == 9
  {
    !Wins(b) && !Full(b) && (p == X <==> CountOf(b, X) == CountOf(b, O))
  }

  /** How many of the three cells of a line hold `m` (the length of the
      source's `cells.filter(...)`). */
  function Count3(a: Mark, b: Mark, c: Mark, m: Mark): nat
  {
    (if a == m then 1 else 0) + (if b == m then 1 else 0) + (if c == m then 1 else 0)
  }

  /** Line `k` holds exactly two marks `p` and one empty cell: the test in
      findBestMove. */
  predicate Threat(b: seq<Mark>, p: Player, k: nat)
    requires |b| == 9 && k < 8
  {
    var (x, y, z) := Line(k);
    Count3(b[x], b[y], b[z], p) == 2 && Count3(b[x], b[y], b[z], Empty) == 1
  }

  /** The first empty cell of line `k`, tried in the order a, b, c. */
  function EmptyCellOf(b: seq<Mark>, k: nat): nat
    requires |b| == 9 && k < 8
  {
    var (x, y, z) := Line(k);
    if b[x] == Empty then x else if b[y] == Empty then y else z
  }

  /** The move findBestMove returns when it starts scanning at line `k`. */
  function FirstThreatFrom(b: seq<Mark>, p: Player, k: nat): (m: int)
    requires |b| == 9 && k <= 8
    ensures m == -1 || (0 <= m < 9 && b[m] == Empty)
    decreases 8 - k
  {
    if k == 8 then -1
    else if Threat(b, p, k) then
      ThreatCellEmpty(b, p, k);
      EmptyCellOf(b, k)
    else FirstThreatFrom(b, p, k + 1)
  }

  /** findBestMove(p): an empty cell that completes a line for p, or -1. */
  function ThreatMove(b: seq<Mark>, p: Player): (m: int)
    requires |b| == 9
    ensures m == -1 || (0 <= m < 9 && b[m] == Empty)
  {
    FirstThreatFrom(b, p, 0)
  }

  /** The cells of `cs` that are empty in `b`, in the order of `cs`. */
  function EmptyAmong(b: seq<Mark>, cs: seq<nat>): (r: seq<nat>)
    requires forall i :: 0 <= i < |cs| ==> cs[i] < |b|
    ensures |r| <= |cs|
    ensures forall c :: c in r <==> c in cs && b[c] == Empty
  {
    if cs == [] then []
    else if b[cs[0]] == Empty then [cs[0]] + EmptyAmong(b, cs[1..])
    else EmptyAmong(b, cs[1..])
  }

  /** The opponent's priority order: win for O, else block X, else the
      centre, else any empty corner, else any empty cell. The last two tiers
      admit every candidate because the source picks one at random. */
  ghost predicate PolicyAllows(b: seq<Mark>, m: int)
    requires |b| == 9
  {
    var win := ThreatMove(b, O);
    var block := ThreatMove(b, X);
    if win != -1 then m == win
    else if block != -1 then m == block
    else if b[4] == Empty then m == 4
    else if EmptyAmong(b, Corners) != [] then m in EmptyAmong(b, Corners)
    else m in EmptyAmong(b, AllCells)
  }

  /** The move computerMove makes. `draw` stands for the value of
      Math.random(): the source indexes the candidate list with
      floor(random * length), which can be any index, and `draw % length`
      ranges over the same indices. -1 only on a full board; there the
      source would index an empty list and call makeMove(undefined), which
      throws, but a running game never has a full board (Valid rules it
      out), so the case does not arise from a click or a computer turn. */
  function ComputerChoice(b: seq<Mark>, draw: nat): (m: int)
    requires |b| == 9
    ensures m == -1 <==> Full(b)
    ensures m != -1 ==> 0 <= m < 9 && b[m] == Empty
  {
    assert forall i :: 0 <= i < 9 ==> i in AllCells;
    var win := ThreatMove(b, O);
    if win != -1 then win
    else
      var block := ThreatMove(b, X);
      if block != -1 then block
      else if b[4] == Empty then 4
      else
        var corners := EmptyAmong(b, Corners);
        if |corners| > 0 then
          assert corners[draw % |corners|] in corners;
          corners[draw % |corners|]
        else
          var cells := EmptyAmong(b, AllCells);
          if |cells| > 0 then
            assert cells[draw % |cells|] in cells;
            cells[draw % |cells|]
          else -1
  }

  // ---------------------------------------------------------------------
  // Lemmas about the board

  lemma {:induction false} CountOfAbsent(b: seq<Mark>, m: Mark)
    requires forall i :: 0 <= i < |b| ==> b[i] != m
    ensures CountOf(b, m) == 0
  {
    if b != [] {
      CountOfAbsent(b[1..], m);
    }
  }

  /** Filling an empty cell with `p` adds one `p` and changes no other count
      of a mark. */
  lemma {:induction false} CountAfterPlace(b: seq<Mark>, i: nat, p: Player, m: Player)
    requires i < |b| && b[i] == Empty
    ensures CountOf(b[i := p], m) == CountOf(b, m) + (if m == p then 1 else 0)
  {
    if i > 0 {
      assert b[i := p][1..] == b[1..][i - 1 := p];
      CountAfterPlace(b[1..], i - 1, p, m);
    } else {
      assert b[i := p][1..] == b[1..];
    }
  }

  lemma EmptyBoardStart()
    ensures !Wins(EmptyBoard) && !Full(EmptyBoard) && Balanced(EmptyBoard)
    ensures InPlay(EmptyBoard, X)
    ensures CountOf(EmptyBoard, X) == 0 && CountOf(EmptyBoard, O) == 0
  {
    CountOfAbsent(EmptyBoard, X);
    CountOfAbsent(EmptyBoard, O);
    assert EmptyBoard[0] == Empty;
  }

  /** A move onto a board nobody has won yet can only complete lines of the
      mover, so the win the source credits to `currentPlayer` is that
      player's. */
  lemma WinnerIsMover(b: seq<Mark>, i: nat, p: Player)
    requires |b| == 9 && i < 9 && b[i] == Empty && !Wins(b)
    ensures Wins(b[i := p]) <==> WinsFor(b[i := p], p)
    ensures !WinsFor(b[i := p], Other(p))
  {
    var b' := b[i := p];
    forall k | 0 <= k < 8 && LineWon(b', k)
      ensures LineWonBy(b', k, p)
    {
      var (x, y, z) := Line(k);
      assert !LineWon(b, k);
      assert x == i || y == i || z == i;
    }
    forall k | 0 <= k < 8
      ensures !LineWonBy(b', k, Other(p))
    {
      var (x, y, z) := Line(k);
      assert !LineWon(b, k);
    }
    if WinsFor(b', p) {
      var k :| 0 <= k < 8 && LineWonBy(b', k, p);
      assert LineWon(b', k);
    }
  }

  /** A threatened line's first empty cell is indeed empty. */
  lemma ThreatCellEmpty(b: seq<Mark>, p: Player, k: nat)
    requires |b| == 9 && k < 8 && Threat(b, p, k)
    ensures b[EmptyCellOf(b, k)] == Empty
  {
  }

  /** The scan from line `k` on: -1 when no line from `k` threatens,
      otherwise the empty cell of the first threatening line `j`. */
  lemma {:induction false} FirstThreatFromSpec(b: seq<Mark>, p: Player, k: nat) returns (j: nat)
    requires |b| == 9 && k <= 8
    ensures FirstThreatFrom(b, p, k) == -1 ==> forall i :: k <= i < 8 ==> !Threat(b, p, i)
    ensures FirstThreatFrom(b, p, k) != -1 ==>
      k <= j < 8 && Threat(b, p, j) && FirstThreatFrom(b, p, k) == EmptyCellOf(b, j) &&
      forall i :: k <= i < j ==> !Threat(b, p, i)
    decreases 8 - k
  {
    if k == 8 {
      j := 8;
    } else if Threat(b, p, k) {
      j := k;
    } else {
      j := FirstThreatFromSpec(b, p, k + 1);
    }
  }

  /** findBestMove(p) returns -1 exactly when no line holds two `p` and one
      empty cell, and otherwise the empty cell of the first such line in
      table order. */
  lemma ThreatMoveSpec(b: seq<Mark>, p: Player)
    requires |b| == 9
    ensures var m := ThreatMove(b, p);
      (m == -1 <==> forall j :: 0 <= j < 8 ==> !Threat(b, p, j)) &&
      (m != -1 ==> 0 <= m < 9 && b[m] == Empty &&
                   exists j :: 0 <= j < 8 && Threat(b, p, j) &&
                     (forall i :: 0 <= i < j ==> !Threat(b, p, i)) &&
                     m == EmptyCellOf(b, j))
  {
    var j := FirstThreatFromSpec(b, p, 0);
    if ThreatMove(b, p) != -1 {
      ThreatCellEmpty(b, p, j);
    }
  }

  /** Whatever the policy allows on a board with a free cell is a free cell. */
  lemma PolicyPlaysEmptyCell(b: seq<Mark>, m: int)
    requires |b| == 9 && !Full(b) && PolicyAllows(b, m)
    ensures 0 <= m < 9 && b[m] == Empty
  {
    ThreatMoveSpec(b, O);
    ThreatMoveSpec(b, X);
  }

  /** Filling the empty cell of a threatened line leaves no threat on it,
      and completes it when the filler is the threatening player. */
  lemma ThreatFilled(b: seq<Mark>, p: Player, k: nat, q: Player)
    requires |b| == 9 && k < 8 && Threat(b, p, k)
    ensures q == p ==> LineWonBy(b[EmptyCellOf(b, k) := q], k, p)
    ensures !Threat(b[EmptyCellOf(b, k) := q], p, k)
  {
    var (x, y, z) := Line(k);
    var b' := b[EmptyCellOf(b, k) := q];
    if b[x] == Empty {
      assert b'[x] == q && b'[y] == b[y] == p && b'[z] == b[z] == p;
    } else if b[y] == Empty {
      assert b'[y] == q && b'[x] == b[x] == p && b'[z] == b[z] == p;
    } else {
      assert b'[z] == q && b'[x] == b[x] == p && b'[y] == b[y] == p;
    }
  }

  /** Every draw gives a move the policy allows, on an empty cell. */
  lemma ComputerChoiceAllowed(b: seq<Mark>, draw: nat)
    requires |b| == 9 && !Full(b)
    ensures PolicyAllows(b, ComputerChoice(b, draw))
    ensures 0 <= ComputerChoice(b, draw) < 9 && b[ComputerChoice(b, draw)] == Empty
  {
    var free :| 0 <= free < 9 && b[free] == Empty;
    assert free in AllCells;
    ThreatMoveSpec(b, O);
    ThreatMoveSpec(b, X);
    PolicyPlaysEmptyCell(b, ComputerChoice(b, draw));
  }

  /** A draw below the list length picks that very index. */
  lemma DrawPicksIndex(i: nat, n: nat)
    requires i < n
    ensures i % n == i
  {
  }

  /** Conversely, every move the policy allows is made for some draw: the
      random tiers can reach each of their candidates. */
  lemma EveryAllowedMoveIsDrawn(b: seq<Mark>, m: int) returns (draw: nat)
    requires |b| == 9 && !Full(b) && PolicyAllows(b, m)
    ensures ComputerChoice(b, draw) == m
  {
    var corners := EmptyAmong(b, Corners);
    var cells := EmptyAmong(b, AllCells);
    if ThreatMove(b, O) != -1 {
      draw := 0;
    } else if ThreatMove(b, X) != -1 {
      draw := 0;
    } else if b[4] == Empty {
      draw := 0;
    } else if |corners| > 0 {
      assert m in corners;
      var i :| 0 <= i < |corners| && corners[i] == m;
      DrawPicksIndex(i, |corners|);
      draw := i;
    } else {
      assert m in cells;
      var i :| 0 <= i < |cells| && cells[i] == m;
      DrawPicksIndex(i, |cells|);
      draw := i;
    }
  }

  /** When O has a winning move the policy takes it, and it completes a line
      of three O. */
  lemma PolicyWinsWhenItCan(b: seq<Mark>, m: int)
    requires |b| == 9 && ThreatMove(b, O) != -1 && PolicyAllows(b, m)
    ensures 0 <= m < 9 && WinsFor(b[m := O], O)
  {
    ThreatMoveSpec(b, O);
    var j :| 0 <= j < 8 && Threat(b, O, j) && m == EmptyCellOf(b, j);
    ThreatFilled(b, O, j, O);
  }

  /** When O cannot win but X threatens a line, the policy puts O on that
      line's empty cell, so X can no longer complete it. */
  lemma PolicyBlocks(b: seq<Mark>, m: int)
    requires |b| == 9 && ThreatMove(b, O) == -1 && ThreatMove(b, X) != -1
    requires PolicyAllows(b, m)
    ensures 0 <= m < 9 && b[m] == Empty
    ensures exists j :: 0 <= j < 8 && Threat(b, X, j) && !Threat(b[m := O], X, j)
  {
    ThreatMoveSpec(b, X);
    var j :| 0 <= j < 8 && Threat(b, X, j) && m == EmptyCellOf(b, j);
    ThreatFilled(b, X, j, O);
  }

  /** The example board [X, X, _, O, _, _, _, _, _] with O to move: the
      block tier picks cell 2. */
  lemma BlockExample(m: int)
    requires PolicyAllows([X, X, Empty, O, Empty, Empty, Empty, Empty, Empty], m)
    ensures m == 2
  {
    var b := [X, X, Empty, O, Empty, Empty, Empty, Empty, Empty];
    assert !Threat(b, O, 7) && !Threat(b, O, 6) && !Threat(b, O, 5) && !Threat(b, O, 4);
    assert !Threat(b, O, 3) && !Threat(b, O, 2) && !Threat(b, O, 1) && !Threat(b, O, 0);
    assert FirstThreatFrom(b, O, 4) == -1;
    assert ThreatMove(b, O) == -1;
    assert Threat(b, X, 0);
  }

  /** The keyboard layout: the digit keys laid out like a numeric keypad. */
  const KeyMap: map<string, nat> :=
    map["1" := 6, "2" := 7, "3" := 8,
        "4" := 3, "5" := 4, "6" := 5,
        "7" := 0, "8" := 1, "9" := 2]

  /** The key that selects cell `i`, read back from the keypad layout. */
  function KeyFor(i: nat): (k: string)
    requires i < 9
    ensures k in KeyMap && KeyMap[k] == i
  {
    if i == 6 then "1" else if i == 7 then "2" else if i == 8 then "3"
    else if i == 3 then "4" else if i == 4 then "5" else if i == 5 then "6"
    else if i == 0 then "7" else if i == 1 then "8" else "9"
  }

  /** keyMap is a bijection from the keys '1'..'9' onto the cells 0..8. */
  lemma KeyMapBijective()
    ensures KeyMap.Keys == {"1", "2", "3", "4", "5", "6", "7", "8", "9"}
    ensures forall k :: k in KeyMap ==> KeyMap[k] < 9 && KeyFor(KeyMap[k]) == k
    ensures forall i :: 0 <= i < 9 ==> KeyMap[KeyFor(i)] == i
  {
  }

  // ---------------------------------------------------------------------
  // The game session

  class Game {
    var currentPlayer: Player
    var gameMode: Mode
    var gameActive: bool
    var board: array<Mark>
    var xWins: nat
    var oWins: nat
    var draws: nat

    ghost predicate Valid()
      reads this, board
    {
      board.Length == 9 && Balanced(board[..]) &&
      (gameActive ==> InPlay(board[..], currentPlayer))
    }

    /** The state a played move leaves behind: the mark of the player to
        move lands on `index`; a win credits that player and ends the game,
        a full board counts a draw and ends the game, and otherwise the turn
        passes to the other player. */
    twostate predicate Played(index: nat)
      reads this, board
    {
      index < 9 && board == old(board) && board.Length == 9 &&
      old(board).Length == 9 &&
      board[..] == old(board[..])[index := old(currentPlayer)] &&
      gameMode == old(gameMode) &&
      if Wins(board[..]) then
        !gameActive && currentPlayer == old(currentPlayer) &&
        WinsFor(board[..], currentPlayer) &&
        xWins == old(xWins) + (if currentPlayer == X then 1 else 0) &&
        oWins == old(oWins) + (if currentPlayer == O then 1 else 0) &&
        draws == old(draws)
      else if Full(board[..]) then
        !gameActive && currentPlayer == old(currentPlayer) &&
        xWins == old(xWins) && oWins == old(oWins) && draws == old(draws) + 1
      else
        gameActive && currentPlayer == Other(old(currentPlayer)) &&
        xWins == old(xWins) && oWins == old(oWins) && draws == old(draws)
    }

    /** The page-load state: X to move, two-player mode, no game running. */
    constructor ()
      ensures Valid() && fresh(board)
      ensures board[..] == EmptyBoard && currentPlayer == X && gameMode == PvP
      ensures !gameActive && xWins == 0 && oWins == 0 && draws == 0
    {
      currentPlayer := X;
      gameMode := PvP;
      gameActive := false;
      board := new Mark[9](_ => Empty);
      xWins, oWins, draws := 0, 0, 0;
      new;
      assert board[..] == EmptyBoard;
      EmptyBoardStart();
    }

    /** startGame: pick the mode, clear the board, X to move. */
    method StartGame(mode: Mode)
      modifies this
      ensures Valid() && fresh(board) && board[..] == EmptyBoard
      ensures gameMode == mode && gameActive && currentPlayer == X
      ensures xWins == old(xWins) && oWins == old(oWins) && draws == old(draws)
    {
      gameMode := mode;
      gameActive := true;
      currentPlayer := X;
      board := new Mark[9](_ => Empty);
      assert board[..] == EmptyBoard;
      EmptyBoardStart();
    }

    /** resetGame: a new round in the same mode; the scores stay. */
    method ResetGame()
      modifies this
      ensures Valid() && fresh(board) && board[..] == EmptyBoard
      ensures gameActive && currentPlayer == X && gameMode == old(gameMode)
      ensures xWins == old(xWins) && oWins == old(oWins) && draws == old(draws)
    {
      gameActive := true;
      currentPlayer := X;
      board := new Mark[9](_ => Empty);
      assert board[..] == EmptyBoard;
      EmptyBoardStart();
    }

    /** backToMenu: all three counters go back to zero and the game stops. */
    method BackToMenu()
      requires Valid()
      modifies this
      ensures Valid() && board == old(board) && board[..] == old(board[..])
      ensures xWins == 0 && oWins == 0 && draws == 0 && !gameActive
      ensures currentPlayer == old(currentPlayer) && gameMode == old(gameMode)
    {
      xWins, oWins, draws := 0, 0, 0;
      gameActive := false;
    }

    /** checkWin: some line of the table holds three equal non-empty marks. */
    method CheckWin() returns (won: bool)
      requires board.Length == 9
      ensures won == Wins(board[..])
    {
      var k := 0;
      while k < 8
        invariant 0 <= k <= 8
        invariant forall j :: 0 <= j < k ==> !LineWon(board[..], j)
      {
        var (a, b, c) := WinningLines[k];
        if board[a] != Empty && board[a] == board[b] && board[a] == board[c] {
          assert LineWon(board[..], k);
          return true;
        }
        k := k + 1;
      }
      return false;
    }

    /** checkDraw: no cell is empty. */
    method CheckDraw() returns (full: bool)
      requires board.Length == 9
      ensures full == Full(board[..])
    {
      full := forall i :: 0 <= i < 9 ==> board[i] != Empty;
    }

    /** handleWin: the game stops and the player to move scores. */
    method HandleWin()
      modifies this
      ensures !gameActive && board == old(board) && currentPlayer == old(currentPlayer)
      ensures gameMode == old(gameMode) && draws == old(draws)
      ensures xWins == old(xWins) + (if currentPlayer == X then 1 else 0)
      ensures oWins == old(oWins) + (if currentPlayer == O then 1 else 0)
    {
      gameActive := false;
      if currentPlayer == X {
        xWins := xWins + 1;
      } else {
        oWins := oWins + 1;
      }
    }

    /** handleDraw: the game stops and the draw counter rises. */
    method HandleDraw()
      modifies this
      ensures !gameActive && board == old(board) && currentPlayer == old(currentPlayer)
      ensures gameMode == old(gameMode) && draws == old(draws) + 1
      ensures xWins == old(xWins) && oWins == old(oWins)
    {
      gameActive := false;
      draws := draws + 1;
    }

    /** makeMove: both callers only pass an empty cell of a running game. */
    method MakeMove(index: nat)
      requires Valid() && gameActive && index < 9 && board[index] == Empty
      modifies this, board
      ensures Valid() && Played(index)
    {
      ghost var b0 := board[..];
      board[index] := currentPlayer;
      assert board[..] == b0[index := currentPlayer];
      CountAfterPlace(b0, index, currentPlayer, X);
      CountAfterPlace(b0, index, currentPlayer, O);
      WinnerIsMover(b0, index, currentPlayer);
      var won := CheckWin();
      if won {
        HandleWin();
        return;
      }
      var full := CheckDraw();
      if full {
        HandleDraw();
        return;
      }
      currentPlayer := Other(currentPlayer);
    }

    /** handleCellClick: ignored while no game runs, on a taken cell, and on
        the computer's turn; otherwise the move is played. */
    method HandleCellClick(index: nat)
      requires Valid() && index < 9
      modifies this, board
      ensures Valid()
      ensures (!old(gameActive) || old(board[index]) != Empty ||
               (old(gameMode) == PvC && old(currentPlayer) == O)) ==>
              unchanged(this) && board[..] == old(board[..])
      ensures (old(gameActive) && old(board[index]) == Empty &&
               !(old(gameMode) == PvC && old(currentPlayer) == O)) ==>
              Played(index)
    {
      if !gameActive || board[index] != Empty || (gameMode == PvC && currentPlayer == O) {
        return;
      }
      MakeMove(index);
    }

    /** findBestMove: scans the lines in table order for two `p` and one
        empty cell. */
    method FindBestMove(p: Player) returns (m: int)
      requires board.Length == 9
      ensures m == ThreatMove(board[..], p)
    {
      var k := 0;
      while k < 8
        invariant 0 <= k <= 8
        invariant ThreatMove(board[..], p) == FirstThreatFrom(board[..], p, k)
      {
        var (a, b, c) := WinningLines[k];
        if Count3(board[a], board[b], board[c], p) == 2 &&
           Count3(board[a], board[b], board[c], Empty) == 1 {
          if board[a] == Empty { return a; }
          if board[b] == Empty { return b; }
          if board[c] == Empty { return c; }
        }
        k := k + 1;
      }
      return -1;
    }

    /** computerMove: does nothing once the game has stopped; otherwise
        plays the policy's choice for the random draw `draw`, and returns
        the cell it played (-1 when it did nothing). */
    method ComputerMove(draw: nat) returns (move: int)
      requires Valid()
      modifies this, board
      ensures Valid()
      ensures !old(gameActive) ==> move == -1 && unchanged(this) && board[..] == old(board[..])
      ensures old(gameActive) ==> move == ComputerChoice(old(board[..]), draw)
      ensures old(gameActive) ==> PolicyAllows(old(board[..]), move) && Played(move)
    {
      if !gameActive {
        return -1;
      }
      move := ComputerChoice(board[..], draw);
      ComputerChoiceAllowed(board[..], draw);
      MakeMove(move);
    }

    /** The keydown handler: keys '1'..'9' click the cell keyMap names,
        unless no game runs, it is the computer's turn, or the cell is
        taken. */
    method HandleKey(key: string)
      requires Valid()
      modifies this, board
      ensures Valid()
      ensures (!old(gameActive) || (old(gameMode) == PvC && old(currentPlayer) == O) ||
               key !in KeyMap || old(board[KeyMap[key]]) != Empty) ==>
              unchanged(this) && board[..] == old(board[..])
      ensures (old(gameActive) && !(old(gameMode) == PvC && old(currentPlayer) == O) &&
               key in KeyMap && old(board[KeyMap[key]]) == Empty) ==>
              Played(KeyMap[key])
    {
      if !gameActive || (gameMode == PvC && currentPlayer == O) {
        return;
      }
      if key in KeyMap {
        var index := KeyMap[key];
        KeyMapBijective();
        if board[index] == Empty {
          HandleCellClick(index);
        }
      }
    }
  }
}
