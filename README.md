# Mini-games and page logic of a personal project site, in Dafny

This project models the parts of five browser scripts that hold rules which can be stated exactly:

- **Tic-Tac-Toe** (`tictactoe.dfy`, module `TicTacToe`). The model covers:
  - the nine-cell board and the eight winning lines;
  - move legality, win and draw detection and turn alternation;
  - the three session counters;
  - the greedy computer opponent (win, block, centre, random corner, random cell);
  - the numeric-keypad keyboard map.
- **Snake** (`snake.dfy`, module `Snake`). The model covers:
  - the grid snake, moved by prepending a head and dropping the tail;
  - growth by duplicating the tail;
  - the wall and body collision scan;
  - the apple retry loop;
  - the direction guard, shared by the buttons and the keyboard;
  - pause, scoring and the speed-up step;
  - the running high score.
- **PhotoBox** (`photobox.dfy`, module `PhotoBox`). The model covers:
  - the table of ten print layouts;
  - the photo list, bounded by the chosen layout's capacity;
  - deletion with JavaScript `splice` semantics;
  - the gate to the editor;
  - filters and reset;
  - the grid cell of each photo;
  - the `D.M.Y` footer date built with `split('-')`.
- **Campus site** (`campus.dfy`, module `Campus`). The model covers:
  - the phone check;
  - the email check;
  - the testimonial `order` rotation;
  - programme tab filtering;
  - the case-insensitive programme search.
- **Wedding invitation** (`invitation.dfy`, module `Invitation`). The model covers:
  - the countdown, split into days, hours, minutes and seconds and padded to two digits;
  - the page's email check.

Two small shared modules support these:

- `EmailShape` (`email.dfy`) holds the email regular expression `^[^\s@]+@[^\s@]+\.[^\s@]+$`, which both sites use. It gives a direct reading of the pattern and a program-style check, and proves the two agree.
- `Options` (`options.dfy`) holds the `Option` type.

## How the model is built

Each script's mutable globals become a class:

- `TicTacToe.Game` keeps the board in a nine-element `array`.
- `Snake.SnakeGame` keeps the snake as a `seq<Pos>` that its methods reassign.
- `PhotoBox.App` stands for the page's `app` object.
- `Campus.Testimonials` stands for the CSS `order` values, held in an `array`.
- `Campus.Catalog` stands for the cards' active and display flags, held in two `array`s.

Each method's contract gives the new value of every field it may change. Pure functions next to each class give the specification, and lemmas prove the promised properties about them. For example:

- `ComputerMove` returns `ComputerChoice(old board, draw)`.
- `FindBestMove` returns `ThreatMove(board, p)`.
- `UpdateGame` ends in the state built from `Moved(old snake, dx, dy)`.

The code uses randomness in three places, and the model turns each one into a parameter:

- The computer's random corner or cell is a `draw: nat`. The model picks candidate `draw % length` where the source picks `floor(random() * length)`. `EveryAllowedMoveIsDrawn` proves that every candidate is still reachable.
- The apple placement loop reads a sequence `rolls` of drawn cells.
- The loop takes the first roll that misses the snake, as the source's `while` loop does.

The clock, the camera frame, the chosen file, the stored high score and the answer to the confirmation prompt are parameters too.

Three points about the snake's timing and invariants:

- **Growth timing.** The snake grows during the tick that eats the apple: the tail copy is pushed right after the move, not held back for the next tick.
- **Overlap after growth.** After an apple tick the copied tail shares a cell with the last segment until the next step (`GrowthDuplicatesTail`), so "no two segments share a cell" does not hold after every tick. A step that does not collide keeps a snake free of overlaps (`MoveKeepsDistinct`).
- **When a turn takes effect.** Direction requests change `(dx, dy)` at once rather than at the next tick. Because the guard only looks at the current vector, two requests within one tick can reverse the snake (`TwoTurnsCanReverse`).

## Model

| member | source | states |
|---|---|---|
| TicTacToe.Line | project/tictactoe/script.js:14-23 | each of the eight winning lines names three distinct cells of the board |
| TicTacToe.Other | project/tictactoe/script.js:91 | switching the player always gives the other mark |
| TicTacToe.CountAfterPlace | project/tictactoe/script.js:73 | writing a mark into an empty cell adds exactly one of that mark and changes no other count |
| TicTacToe.EmptyBoardStart | project/tictactoe/script.js:26-30 | the cleared board has no winner, is not full, holds no marks, and is in play for X |
| TicTacToe.WinnerIsMover | project/tictactoe/script.js:72-83 | after a move on an unwon board, a win exists iff the mover has one, and the other player never has one; crediting `currentPlayer` is therefore right |
| TicTacToe.EmptyAmong | project/tictactoe/script.js:119-127 | the filtered candidate list holds exactly the listed cells that are empty |
| TicTacToe.FirstThreatFromSpec | project/tictactoe/script.js:138-149 | the scan from line k returns -1 iff no later line has two p and one empty, and otherwise the empty cell of the first such line |
| TicTacToe.FirstThreatFrom | project/tictactoe/script.js:138-149 | the scan from any line gives -1 or an empty cell of the board |
| TicTacToe.ThreatMove | project/tictactoe/script.js:137-150 | findBestMove gives -1 or an empty cell of the board |
| TicTacToe.ThreatMoveSpec | project/tictactoe/script.js:137-150 | findBestMove is -1 iff no line has two p and one empty; otherwise it is an empty cell of the first such line in table order |
| TicTacToe.ThreatFilled | project/tictactoe/script.js:143-146 | filling a threatened line's empty cell removes that threat, and completes the line when the filler is the threatening player |
| TicTacToe.PolicyPlaysEmptyCell | project/tictactoe/script.js:102-134 | any move the priority order allows on a board with a free cell is a free cell |
| TicTacToe.PolicyAllows | project/tictactoe/script.js:102-134 | the moves the opponent may make: the winning cell, else the blocking cell, else the centre, else any empty corner, else any empty cell |
| TicTacToe.ComputerChoice | project/tictactoe/script.js:102-134 | the result is -1 iff the board is full, and otherwise an empty cell; a full board never reaches the computer's turn, because a running game has a free cell |
| TicTacToe.ComputerChoiceAllowed | project/tictactoe/script.js:102-134 | for every random draw the computer's move is one the priority order win, block, centre, corner, any cell allows, and is an empty cell |
| TicTacToe.EveryAllowedMoveIsDrawn | project/tictactoe/script.js:117-129 | conversely every move the priority order allows is chosen for some random draw |
| TicTacToe.PolicyWinsWhenItCan | project/tictactoe/script.js:105-107 | when O has a winning move the computer plays it and the board then has three O in a line |
| TicTacToe.PolicyBlocks | project/tictactoe/script.js:108-110 | when O cannot win but X threatens, the computer's move leaves one threatened X line blocked |
| TicTacToe.BlockExample | project/tictactoe/script.js:108-110 | on X X _ / O _ _ / _ _ _ the computer must play cell 2 |
| TicTacToe.KeyFor | project/tictactoe/script.js:288-292 | every cell has a key that keyMap sends to it |
| TicTacToe.KeyMapBijective | project/tictactoe/script.js:288-292 | keyMap maps the keys 1..9 one-to-one onto the cells 0..8 |
| TicTacToe.Game.constructor | project/tictactoe/script.js:3-11 | X to move, two-player mode, empty board, no game running, all counters zero |
| TicTacToe.Game.StartGame | project/tictactoe/script.js:26-48 | mode set, board cleared, X to move, game running; scores kept; mark counts stay balanced |
| TicTacToe.Game.HandleCellClick | project/tictactoe/script.js:63-69 | a click is ignored when no game runs, the cell is taken or it is the computer's turn; otherwise the move is played |
| TicTacToe.Game.MakeMove | project/tictactoe/script.js:72-99 | the mover's mark lands on the cell; a win credits the mover and stops the game; a full board counts a draw and stops it; otherwise the turn passes; X count minus O count stays 0 or 1 |
| TicTacToe.Game.ComputerMove | project/tictactoe/script.js:102-134 | nothing happens once the game has stopped; otherwise the move is the priority order's choice for the draw and is played like a click |
| TicTacToe.Game.FindBestMove | project/tictactoe/script.js:137-150 | the loop returns what ThreatMove specifies: the empty cell of the first line with two p and one empty, or -1 |
| TicTacToe.Game.CheckWin | project/tictactoe/script.js:153-163 | true iff some winning line holds three equal non-empty marks |
| TicTacToe.Game.CheckDraw | project/tictactoe/script.js:166-168 | true iff no cell is empty |
| TicTacToe.Game.HandleWin | project/tictactoe/script.js:179-196 | the game stops and exactly the mover's counter rises by one |
| TicTacToe.Game.HandleDraw | project/tictactoe/script.js:199-209 | the game stops and only the draw counter rises by one |
| TicTacToe.Game.ResetGame | project/tictactoe/script.js:254-262 | a new round in the same mode with X to move; the scores are kept |
| TicTacToe.Game.BackToMenu | project/tictactoe/script.js:265-282 | all three counters become zero and the game stops; the board is untouched |
| TicTacToe.Game.HandleKey | project/tictactoe/script.js:285-300 | a keypad digit plays its cell unless no game runs, it is the computer's turn or the cell is taken; any other key does nothing |
| Snake.Vector | project/snake/script.js:293-320 | each direction is one step along an axis (y grows downwards) |
| Snake.Turn | project/snake/script.js:293-320 | the new vector is either the requested one or the current one, and for a moving or still snake the request is taken iff it is not the reverse of the current motion |
| Snake.TurnNeverReverses | project/snake/script.js:293-320 | while moving, a turn is accepted exactly when it is not the reverse of the current direction; a still snake takes any turn; the vector stays a unit axis step |
| Snake.TwoTurnsCanReverse | project/snake/script.js:336-369 | moving right, Up then Left within one tick leaves the snake heading left, the reverse of its last step |
| Snake.KeyDirection | project/snake/script.js:336-369 | ArrowUp/w/W mean up, ArrowDown/s/S down, ArrowLeft/a/A left, ArrowRight/d/D right, and no other key is a direction |
| Snake.Moved | project/snake/script.js:88-92 | one step keeps the length, puts head plus (dx, dy) first and shifts every other segment one place back |
| Snake.MoveKeepsDistinct | project/snake/script.js:88-117 | a step that does not collide keeps a snake free of overlapping segments |
| Snake.GrowthDuplicatesTail | project/snake/script.js:95-98 | after growing, the last two segments share a cell |
| Snake.FirstFree | project/snake/script.js:125-135 | the apple is the first roll that is off the snake; every earlier roll was on it |
| Snake.ShortSnakeLeavesFreeCell | project/snake/script.js:125-135 | pigeonhole: with fewer segments than grid cells, some cell of the grid is free |
| Snake.FreeCellGivesRolls | project/snake/script.js:125-135 | a free cell is enough for the placement loop: there are in-grid rolls on which it stops at the first try |
| Snake.GrowthKeepsFree | project/snake/script.js:71-72 | placing the apple after growth picks the same roll as placing it on the moved snake |
| Snake.SpeedLevel | project/snake/script.js:278-281 | the shown level L satisfies 50(L-1) <= score < 50L |
| Snake.SnakeGame.constructor | project/snake/script.js:7-19 | snake [(10,10)], apple (15,15), still, score 0, stored high score, interval 150, not paused, not running |
| Snake.SnakeGame.SetDifficulty | project/snake/script.js:25-33 | the tick interval becomes the chosen value |
| Snake.SnakeGame.MoveSnake | project/snake/script.js:88-92 | length kept, new head one step from the old head, old segments 0..n-2 now at 1..n-1 |
| Snake.SnakeGame.GrowSnake | project/snake/script.js:95-98 | the snake is the old snake plus a copy of its last segment |
| Snake.SnakeGame.CheckCollision | project/snake/script.js:101-117 | true iff the head is outside the grid or equals a segment with index at least 1 |
| Snake.SnakeGame.CheckAppleCollision | project/snake/script.js:120-122 | true iff the head is on the apple |
| Snake.SnakeGame.PlaceApple | project/snake/script.js:125-135 | the apple ends on the first drawn cell that misses the snake; it is off the snake and, for in-grid rolls, inside the grid |
| Snake.SnakeGame.ResetGameState | project/snake/script.js:46-55 | one segment at (10,10), heading right, score 0, unpaused, apple placed off the snake |
| Snake.SnakeGame.StartGame | project/snake/script.js:36-43 | the reset state with the game running |
| Snake.SnakeGame.RestartGame | project/snake/script.js:403-409 | the reset state with the game running |
| Snake.SnakeGame.GameOver | project/snake/script.js:373-393 | the game stops and the high score becomes the larger of the old high score and the score |
| Snake.SnakeGame.EndGame | project/snake/script.js:396-400 | a confirmed end is a game over; a declined one changes nothing |
| Snake.SnakeGame.BackToMenu | project/snake/script.js:412-423 | the game stops |
| Snake.SnakeGame.TogglePause | project/snake/script.js:284-290 | no effect while not running, otherwise pause is negated |
| Snake.SnakeGame.ChangeDirection | project/snake/script.js:293-320 | the direction becomes Turn of the old direction, so it never reverses and stays a unit step or still |
| Snake.SnakeGame.HandleKey | project/snake/script.js:323-370 | ignored while not running; Space toggles pause; while paused nothing else; otherwise a direction key turns by the guard and other keys do nothing |
| Snake.SnakeGame.UpdateGame | project/snake/script.js:58-85 | no-op when paused or stopped; otherwise the moved snake either collides and the game ends with the high score updated, or eats the apple and grows by one with score +10, a new apple off the snake, and interval -10 iff the new score is a multiple of 50 and the old interval exceeds 50, or just moves; the length rises by at most one |
| PhotoBox.LayoutOf | project/photobox/script.js:20-31 | every layout takes two to four photos; every grid layout has cols * rows equal to its photo count; the collage takes three |
| PhotoBox.LayoutKey | project/photobox/script.js:20-31 | the key of each layout in the layouts object; `LayoutKeysRoundTrip` shows the keys are distinct |
| PhotoBox.ParseLayoutKey | project/photobox/script.js:20-31 | a key found in the table is the key of the layout returned |
| PhotoBox.LayoutKeysRoundTrip | project/photobox/script.js:20-31 | every layout is found under its own key |
| PhotoBox.Capacity | project/photobox/script.js:20-31 | every layout takes two to four photos |
| PhotoBox.GridCell | project/photobox/script.js:297-299 | the column is below cols and row * cols + column gives back the photo index |
| PhotoBox.GridCellsFit | project/photobox/script.js:297-306 | in a grid layout every photo's row and column lie inside the grid and different photos get different cells |
| PhotoBox.SpliceOne | project/photobox/script.js:187 | splice(index, 1): with the start counted from the end for a negative index (and clamped at 0), an in-range start loses exactly that element, the earlier ones stay in place and the later ones move up one place; a start past the end leaves the list as it is |
| PhotoBox.SpliceRemovesOnlyIndex | project/photobox/script.js:186-190 | for any index from -n to n-1 the list loses exactly one photo, the one at that index counted from the end when negative, and keeps all the others |
| PhotoBox.Split | project/photobox/script.js:272 | split('-') gives at least one part and no part holds a '-' |
| PhotoBox.JoinSplit | project/photobox/script.js:272 | joining the parts with '-' gives back the date string |
| PhotoBox.SplitJoin | project/photobox/script.js:272 | splitting '-'-joined parts that hold no '-' gives back the parts |
| PhotoBox.FooterDate | project/photobox/script.js:271-276 | there is a date line iff the date is non-empty |
| PhotoBox.FooterDateReverses | project/photobox/script.js:271-275 | a Y-M-D date is printed as D.M.Y |
| PhotoBox.App.constructor | project/photobox/script.js:2-17 | step 1, no layout, no photos, user camera, default filters, title "phome", today's date |
| PhotoBox.App.SelectLayout | project/photobox/script.js:49-63 | the layout is chosen, the photo list is emptied and step 2 shows |
| PhotoBox.App.SwitchCamera | project/photobox/script.js:86-92 | the facing mode flips between user and environment |
| PhotoBox.App.AddPhoto | project/photobox/script.js:94-133 | a full list (or no layout) refuses and nothing changes; otherwise exactly the new photo is appended, so the count never exceeds capacity |
| PhotoBox.App.CapturePhoto | project/photobox/script.js:94-133 | the camera frame is appended iff the list is below capacity |
| PhotoBox.App.UploadPhoto | project/photobox/script.js:135-158 | no file does nothing; otherwise the file is appended iff the list is below capacity |
| PhotoBox.App.DeletePhoto | project/photobox/script.js:186-190 | the list loses the spliced element, and "next" is enabled iff the list is complete |
| PhotoBox.App.GoToEditor | project/photobox/script.js:193-202 | step 3 is reached iff the list is complete, and then the list holds exactly the layout's count and the title and date come from the inputs; otherwise nothing changes |
| PhotoBox.App.UpdatePreview | project/photobox/script.js:225-231 | the title and date are taken from the inputs |
| PhotoBox.App.ApplyFilters | project/photobox/script.js:204-213 | the filters become the slider and checkbox values, and the redrawn preview takes the title and date from their inputs |
| PhotoBox.App.ResetFilters | project/photobox/script.js:215-223 | the filters return to brightness 100, contrast 100, colour, and the redrawn preview takes the title and date from their inputs |
| PhotoBox.App.GoToExport | project/photobox/script.js:368-372 | step 4 shows |
| PhotoBox.App.ResetApp | project/photobox/script.js:392-410 | step 1, no layout, no photos, default filters, "next" off |
| EmailShape.IndexOf | project/web-kampus/script.js:202 | the first position of a character, or the length when it is absent |
| EmailShape.ValidEmailMatchesPattern | project/web-kampus/script.js:201-204 | the first-'@' check accepts exactly the strings the regular expression matches |
| EmailShape.PatternShape | project/undangan-pernikahan/script.js:238-241 | a matching address has no blank and exactly one '@', which is not its first character |
| Campus.StripSeparators | project/web-kampus/script.js:208 | the result holds no '-' or blank, is no longer than the input, and is the input itself when the input has no separator |
| Campus.StripConcat | project/web-kampus/script.js:208 | stripping works character by character: a separator is dropped, any other character is kept, and the pieces of a string are stripped separately and kept in order |
| Campus.ValidatePhone | project/web-kampus/script.js:206-209 | the phone check holds iff every character is a digit, '-' or blank and there are 10 to 13 digits |
| Campus.ValidateEmail | project/web-kampus/script.js:201-204 | true iff the address matches the email pattern |
| Campus.Rotation | project/web-kampus/script.js:259-264 | the orders given to the n cards are a permutation of 0..n-1: each lies in 0..n-1, no two cards share one, card cur comes first with order 0, and the card with order t is (t + cur) mod n |
| Campus.OrderIsPermutation | project/web-kampus/script.js:261-262 | the values (i - cur + n) mod n over i in 0..n-1 are distinct and lie in 0..n-1, card cur gets 0, and card (t + cur) mod n gets t |
| Campus.Testimonials.constructor | project/web-kampus/script.js:256-257 | the first card is next and every order is 0 |
| Campus.Testimonials.Rotate | project/web-kampus/script.js:259-266 | with more than three cards the orders become Rotation(n, cur) and cur advances by one mod n; otherwise nothing changes |
| Campus.Lower | project/web-kampus/script.js:301-304 | each ASCII capital becomes its small letter; every other character is kept |
| Campus.Includes | project/web-kampus/script.js:306 | includes holds iff the query occurs in the text as a contiguous piece at some position |
| Campus.SearchHit | project/web-kampus/script.js:300-312 | a card matches iff the lower-cased query occurs in its lower-cased title or its lower-cased description |
| Campus.EmptyQueryShowsAll | project/web-kampus/script.js:300-312 | the empty query shows every card |
| Campus.Catalog.constructor | project/web-kampus/script.js:79-80 | one active flag and one display flag per card |
| Campus.Catalog.SelectTab | project/web-kampus/script.js:82-106 | exactly the cards whose category equals the tab become active; the display flags are untouched |
| Campus.Catalog.Search | project/web-kampus/script.js:300-312 | a card shows iff the lower-cased query occurs in its lower-cased title or description; the active flags are untouched |
| Invitation.Breakdown | project/undangan-pernikahan/script.js:70-73 | hours < 24, minutes < 60, seconds < 60 and days*86400000 + hours*3600000 + minutes*60000 + seconds*1000 + distance mod 1000 = distance |
| Invitation.NatToString | project/undangan-pernikahan/script.js:75-78 | String(n) is decimal digits with no leading zero, one character iff n < 10 |
| Invitation.NatToStringRoundTrip | project/undangan-pernikahan/script.js:75-78 | reading String(n) back gives n |
| Invitation.Pad2 | project/undangan-pernikahan/script.js:75-78 | padding gives decimal digits only, at least two of them (exactly two below 100), reading back as n; it is '0' followed by String(n) iff n < 10, and String(n) itself from 10 on |
| Invitation.Countdown | project/undangan-pernikahan/script.js:58-79 | a past date shows "00" four times; otherwise every field is decimal digits reading back as its part of the distance, and the hours, minutes and seconds fields are two characters |
| Invitation.ValidateEmail | project/undangan-pernikahan/script.js:238-241 | true iff the address matches the email pattern |

## Left out

- Drawing is not modelled. This covers:
  - the canvas code: grid, snake, apple, strips, grids, collage, cover-fit `drawPhoto`;
  - highlighting the winning cells;
  - the status, score and stats text;
  - rendering the photo slots.
  
  All of it is pixel or float arithmetic on the 2D context or writes to the DOM.
- Timers are not modelled. Ticks, the computer's 500 ms delay and the per-second countdown are explicit method calls. `SelectLayout` moves to step 2 at once; in the source that step is shown 300 ms after the call.
  - `gameSpeed` is kept as a field, but the re-arming of the interval is not modelled.
  - `ComputerMove` does not check whose turn it is, and neither does the source. In the browser, a reset during the 500 ms delay would let the computer play for X. This interleaving is not modelled.
- The camera capture waits for a three-second countdown after its capacity check, and the upload reads the file asynchronously. In the model the check and the append happen in one step. Overlapping captures or uploads, which could pass the check together, are not modelled.
- Randomness is a parameter, as described above. This covers `Math.random` for the apple and for the computer's corner and cell choices.
- Storage is not modelled. The stored high score is a constructor parameter, the `localStorage` write is left out, and so is the string-to-number coercion of the stored value.
- The browser is not modelled: camera streams, `FileReader`, data URLs, downloads, audio, modals, `alert` and notifications. The result of `confirm` is a parameter.
- The rest of the campus and invitation pages is left out. That means:
  - menus, scroll and parallax effects, animations and lazy images;
  - the counter animation, the year in the footer and external links;
  - the admission, RSVP and wishes form alerts;
  - guest-name decoding, the copy button and music control.

  None of them has a rule beyond DOM glue.
- `PhotoBox.FooterDate` covers only the date line. The upper-cased title line is left out because the model has no Unicode case mapping.
- `Campus.Lower` maps only ASCII A-Z. JavaScript's `toLowerCase` also maps letters of other scripts, so `Campus.Catalog.Search` agrees with the source only on text without letters that have a non-ASCII lower-case form.
- `Campus.SearchHit` states the search rule through the ASCII-only `Campus.Lower`, with the same gap.
- `Snake.SnakeGame.PlaceApple` requires that some roll lands off the snake. Without such a roll the source loops forever. `ShortSnakeLeavesFreeCell` shows that a free cell exists while the snake is shorter than the grid.
- `Snake.SnakeGame.UpdateGame` requires the same of the rolls on an apple tick, for the same reason.
- `TicTacToe.Game.MakeMove` requires an empty cell in a running game. Its two callers, the click handler and the computer's move, check both first (the key handler goes through the click handler); the function itself has no guard.
- The snake's `tileCount` (canvas width over 20) is a positive integer parameter, because the canvas width is not part of this model.
- The editor's slider values are modelled as integers. In the source they are the input elements' strings.
- JavaScript numbers are doubles, but every counter, score and millisecond distance is modelled as an unbounded integer. The model does not cover precision loss past 2^53.
