# Memory-matching game: a Dafny model

This project models the game logic of a browser memory game with 16 cards.
Eight Egyptian symbols each appear twice. The player turns two cards at a
time. A pair of equal symbols stays face up; an unequal pair is turned back
after a short feedback pause. The page counts moves, rates the player with
three to one stars, runs a MM:SS clock from the first click, and ends with a
summary sentence. The whole game lives in `index.js`.

Modules:

- `Deck` (`deck.dfy`): the card catalogue (`Catalogue`, index.js:40-65),
  `Array.prototype.repeat` (`Repeat`, index.js:5-8), and the in-place
  `Array.prototype.shuffle`. The shuffle is the `array` method `Shuffle`,
  proved against the functional `ShuffleFrom`/`Shuffled` (index.js:10-17).
  `Deal`/`DealSpec` model the deal of `boardView.render` (index.js:536).
- `Cycle` (`cycle.dfy`): the partner index `Math.floor(Math.random() * i)` is
  strictly below `i`, which makes the shuffle Sattolo's algorithm. Its
  position map is a single cycle, so no card stays where it was.
- `Stars` (`stars.dfy`): `starsView.determineNum`, exactly as written, and
  the rating it keeps.
- `Timer` (`timer.dfy`): the tick closure of `timerView.start`, plus `stop`
  and `reset`, as a `Clock` class.
- `Format` (`format.dfy`): `zeroPadded` (`ZeroPadded`, index.js:24), the
  `MM:SS` text of `timerView.render` (`TimeString`, index.js:272), and
  `modalView.generateResultStr` (`ResultStr`, index.js:614-625). The summary
  sentence is proved to read back to the numbers it was built from.
- `Keyboard` (`keyboard.dfy`): the arrow, Home and End navigation of
  `boardView.handleInput` on the 4×4 grid.
- `Game` (`game.dfy`): the turn state machine. It covers the board's click
  handler, `matchAndRespond`, `checkWin` and `octopus.reset`.
  - Each operation is a step function over `GameState`:
    - `ClickStep` is the click handler (index.js:328-362);
    - `MatchStep` is `matchAndRespond` (index.js:381-401);
    - `CheckWinStep` is `checkWin` (index.js:454-463);
    - `FeedbackDoneStep` is the feedback timeout (index.js:384, 396-398);
    - `TickStep` is one tick of the timer (index.js:251-258);
    - `ResetStep` is `octopus.reset` (index.js:156-173).
  - An invariant `Inv` holds for every reachable state, and every step keeps
    it.
  - The class `GameSession` holds the page's mutable state. Its methods
    update that state in place, and each one ensures
    `State() == <step>(old(State()))`.
  - The two delayed callbacks are explicit events. `FeedbackDone` is the
    1100 ms timeout: it re-enables clicks and, after a mismatch, turns back
    the captured cards.
    `Tick` is one firing of the 1 s interval.

`Math.random` is an oracle. `rand[i]` is the index chosen at loop step `i`,
with `0 <= rand[i] < i` (`RandomOracle`). A click names its board position
directly.

Three points of the code shape the model:

- Star rating. `determineNum` tests `moves > 16` before `moves > 20`, so its
  0-star branch is dead code and `DetermineNum` never returns 0.
- Shuffle. The partner index is drawn from `[0, i)`, never `i` itself. This
  makes the shuffle Sattolo's algorithm rather than Fisher–Yates. `Cycle`
  proves what follows from that.
- Selected cards. Matched cards keep `aria-selected`, so the invariant about
  face-up cards is stated for cards that are selected but not yet matched
  (`Pending`).

## Model

| member | source | states |
|---|---|---|
| Deck.Repeat | index.js:5-8 | `repeat(n)` has `n` times the length of the array |
| Deck.RepeatMultiset | index.js:5-8 | every element occurs `n` times as often after `repeat(n)` |
| Deck.Swap | index.js:14 | the destructuring swap exchanges positions `i` and `j` and leaves every other position unchanged |
| Deck.SwapPermutes | index.js:14 | a swap keeps the multiset of elements |
| Deck.ShuffleFromPermutes | index.js:12-15 | the loop steps from `i` down to 1 keep the length and the multiset |
| Deck.ShuffledPermutes | index.js:10-17 | the whole shuffle is a permutation of its input |
| Deck.ShuffleFromKeepsTail | index.js:12-15 | once the loop has passed a position, that position is never touched again |
| Deck.Shuffle | index.js:10-17 | the in-place loop leaves the array equal to `Shuffled` of its old contents and keeps its multiset |
| Deck.DistinctIdsOnce | index.js:40-65 | a card list with distinct ids holds each card at most once |
| Deck.CatalogueIds | index.js:40-65 | the catalogue has 8 cards with ids 1..8, each card once |
| Deck.DealPairs | index.js:536 | `getCards().repeat(2).shuffle()` has 16 cards, every catalogue card exactly twice, and no other card |
| Deck.Deal | index.js:536 | the array-based deal equals the specification `DealSpec`, with 16 cards and each catalogue card twice |
| Cycle.Extend | index.js:12-15 | one more loop step adds one position to the position map |
| Cycle.Moves | index.js:12-15 | the position map of loop steps `i` down to 1 covers positions `0..i` and only points into them |
| Cycle.InsertDistinct | index.js:13-14 | putting the new position into a cycle listing keeps the listing duplicate-free |
| Cycle.InsertCovers | index.js:13-14 | putting the new position into a cycle listing keeps every position listed |
| Cycle.InsertFollowsAt | index.js:13-14 | after the swap with a partner `j < i`, position `i` sits in the cycle just before `j` |
| Cycle.ExtendKeepsCycle | index.js:13-14 | a swap with a partner strictly below `i` keeps the position map a single cycle |
| Cycle.MovesCycle | index.js:12-15 | after loop steps `i` down to 1, positions `0..i` form one cycle |
| Cycle.ShuffleFromMoves | index.js:12-15 | after steps `i` down to 1, the element at `k` is the input's element at `Moves[k]` |
| Cycle.ShuffledIsCycle | index.js:10-17 | the shuffle moves the input's element at `ShuffleMap[k]` to `k`, and that map is a single cycle through all positions (Sattolo) |
| Cycle.CycleNoFixedPoint | index.js:13 | a single cycle through two or more positions fixes none of them |
| Cycle.ShuffledMovesEveryCard | index.js:10-17 | with two or more cards, no position keeps its own card |
| Stars.DetermineNum | index.js:283-290 | up to 12 moves the stars stay unchanged, 13..16 moves give 2, more than 16 give 1; never 0 |
| Stars.DetermineNumNeverZero | index.js:283-290 | starting from at least one star, the result is at least one star |
| Stars.Rating | index.js:75 | the rating is always between 1 and the initial 3 stars |
| Stars.DetermineNumFollowsRating | index.js:283-290 | re-evaluating after each new move keeps the stars equal to the 3/2/1 rating of the move count |
| Stars.RatingNonIncreasing | index.js:283-290 | more moves never give more stars |
| Timer.Advance | index.js:251-258 | a tick adds exactly one second to `minutes*60 + seconds`, keeps seconds in 0..59, and rolls over to the next minute at 0 seconds |
| Timer.AfterTicksReading | index.js:250-260 | after `n` ticks from 0:00 the clock reads `n % 60` seconds and `n / 60` minutes |
| Timer.Clock.constructor | index.js:71-74 | the clock starts at 0:00, not running |
| Timer.Clock.Start | index.js:249-260 | a fresh count from 0:00 starts running |
| Timer.Clock.Tick | index.js:251-258 | a running clock advances by one tick; a stopped clock does not change |
| Timer.Clock.Stop | index.js:262-264 | the interval stops; the reading stays |
| Timer.Clock.Reset | index.js:265-269 | the clock is stopped and reads 0:00 |
| Format.DigitChar | index.js:272 | a digit renders as a character between '0' and '9' |
| Format.Decimal | index.js:272 | a number's decimal text is a non-empty string of digits |
| Format.ParseDecimalInverts | index.js:272 | reading a number's decimal text back gives the number |
| Format.DecimalLeadingDigit | index.js:272 | the decimal text starts with '0' exactly when the number is 0 |
| Format.ParseLeadingZero | index.js:24 | a leading '0' does not change the value read back |
| Format.ZeroPaddedShape | index.js:24 | `zeroPadded` gives at least two digits, starts with '0' exactly when num < 10, has exactly two digits below 100, and reads back to num |
| Format.TimeStringShape | index.js:271-273 | the timer text is padded minutes, ':', and two digits of seconds; both parts read back, and it is 5 characters below 100 minutes |
| Format.UnitSingular | index.js:617-622 | the unit word is singular exactly when its count is 1 |
| Format.Words | index.js:614-625 | the word splitter that `ResultStrReadsBack` reads the sentence with (not code of the page) always gives at least one word |
| Format.WordsSep | index.js:614-625 | for the word splitter `ResultStrReadsBack` reads with: words of `x + " " + y` are the words of `x` followed by those of `y` |
| Format.WordsSingle | index.js:614-625 | for the word splitter `ResultStrReadsBack` reads with: a text without spaces is one word |
| Format.DecimalHasNoSpace | index.js:617 | for the word splitter `ResultStrReadsBack` reads with: a number's decimal text has no space |
| Format.CountedWords | index.js:617 | "N unit" is the two words N and the singular or plural unit |
| Format.ConnectiveWords | index.js:617-619 | for the word splitter `ResultStrReadsBack` reads with: joining with " in " or " and " inserts exactly that word |
| Format.ResultWordsNoMinutes | index.js:621-623 | with 0 minutes the sentence is "M moves in S seconds", with no minutes clause |
| Format.MinutesHeadWords | index.js:616-617 | the head of the minutes form is "M moves in N minutes" |
| Format.ResultWordsWholeMinutes | index.js:616-620 | with minutes > 0 and 0 seconds there is no " and S seconds" clause |
| Format.ResultWordsMinutesAndSeconds | index.js:616-620 | with minutes > 0 and seconds > 0 the sentence ends with " and S seconds" |
| Format.ResultStrReadsBack | index.js:614-625 | the summary sentence always reads back to exactly the moves, minutes and seconds it was built from |
| Format.ResultStrSecondsExample | index.js:621-623 | the sentence for 1 move and 5 seconds is "1 move in 5 seconds", letter by letter |
| Format.ResultStrMinuteExample | index.js:616-620 | the sentence for 3 moves and 1 minute is "3 moves in 1 minute", letter by letter |
| Keyboard.KeyDirection | index.js:364-371 | exactly the key codes 35..40 map to a direction |
| Keyboard.Target | index.js:468-524 | every direction from a card 0..15 targets a card 0..15 or does not move |
| Keyboard.HandleKey | index.js:569-573 | a key press moves focus only for a navigation key, and only to a card on the board |
| Keyboard.DownUpColumnOrder | index.js:483-499 | Down moves to the next card in column-by-column order, wrapping from the last row to the top of the next column; Up moves to the previous one |
| Keyboard.ArrowsStopAtCorners | index.js:470-499 | only card 15 has no Right or Down move, and only card 0 has no Left or Up move |
| Keyboard.ArrowInverses | index.js:470-499 | for 0..14, left undoes right and up undoes down |
| Keyboard.ArrowInversesBack | index.js:470-499 | for 1..15, right undoes left and down undoes up |
| Keyboard.HomeEndInRow | index.js:500-523 | Home goes to `order - order%4`, End to that plus 3; both stay in the row |
| Keyboard.HomeEndIdempotent | index.js:500-523 | pressing Home or End twice is the same as pressing it once |
| Game.FreshBoardPaired | index.js:536-550 | a freshly rendered board has 16 face-down cards and no symbol on more than two of them |
| Game.InitialInv | index.js:66-76 | the state after initialisation satisfies the game invariant |
| Game.ResetKeepsInv | index.js:156-173 | a reset keeps the invariant |
| Game.TickKeepsInv | index.js:251-258 | a tick keeps the invariant |
| Game.FeedbackDoneKeepsInv | index.js:384-398 | the feedback timeout keeps the invariant |
| Game.ClickKeepsInv | index.js:328-362 | a click keeps the invariant |
| Game.SecondCardMatchKeepsInv | index.js:385-391 | a matching second card keeps the invariant: both cards become matched and nothing stays pending |
| Game.DeselectPending | index.js:393-398 | turning back the captured cards leaves ids and matched flags alone and nothing pending |
| Game.OnlyPair | index.js:386 | with no symbol three times, two equal cards have no third card of that symbol |
| Game.ClickOnSelectedCard | index.js:333-349 | a click on a face-up card only starts the clock on the first click; in a reachable state it changes nothing |
| Game.ClickFirstOfPair | index.js:351-355 | a first card turns face up and its id is recorded; no move is counted, the result and feedback stay, and the clock runs |
| Game.ClickSecondOfPair | index.js:356-359 | a second card adds exactly one move and re-rates the stars without raising them; clicks are disabled and no id stays recorded; the result is 'Done' exactly when all cards are matched, with the clock stopped |
| Game.ClickMatch | index.js:385-391 | on a match, exactly the cards with the recorded id become matched and stay face up, and no other card changes; 'Done' and a stopped clock exactly when every card is matched |
| Game.ClickMismatch | index.js:392-398 | on a mismatch, both cards stay face up; the timeout will turn back exactly the two selected-and-unmatched cards |
| Game.FeedbackDoneTurnsBack | index.js:384-398 | the timeout re-enables clicks and turns back exactly the captured cards; matched cards stay face up and nothing is left pending |
| Game.AtMostTwoPending | index.js:350-398 | in every reachable state at most two cards are face up and unmatched, and every matched card is face up |
| Game.NoTicksAfterWin | index.js:454-458 | after 'Done' every card is matched and the clock is stopped, so ticks change nothing |
| Game.TickAdvancesClock | index.js:251-258 | during a game each tick adds exactly one second and keeps seconds below 60 |
| Game.ResetRestarts | index.js:156-173 | a reset brings back 0 moves, 3 stars, 0:00 with the clock stopped, no result, and a freshly dealt face-down board |
| Game.Step | index.js:328-362 | every event keeps the invariant |
| Game.Run | index.js:328-362 | every sequence of events keeps the invariant |
| Game.StepMoves | index.js:357-358 | without a reset, one event adds at most one move and never raises the stars |
| Game.CooldownIgnoresClicks | index.js:329 | during the feedback pause any run of clicks and ticks leaves cards, moves, stars, recorded id and result unchanged, and clicks stay disabled |
| Game.RunMonotone | index.js:283-290 | within one game, moves never decrease and grow by at most one per event, and stars never increase from the initial 3 |
| Game.GameSession.constructor | index.js:66-76 | the initial model values, with a board dealt from the oracle; satisfies the invariant |
| Game.GameSession.Click | index.js:328-362 | the in-place click handler matches `ClickStep` and keeps the invariant |
| Game.GameSession.MatchAndRespond | index.js:381-401 | the in-place pair resolution matches `MatchStep` |
| Game.GameSession.CheckWin | index.js:454-463 | reports 'Done' and stops the clock exactly when all cards are matched |
| Game.GameSession.FeedbackDone | index.js:384-398 | the in-place timeout matches `FeedbackDoneStep` and keeps the invariant |
| Game.GameSession.Tick | index.js:251-258 | the interval tick matches `TickStep` and keeps the invariant |
| Game.GameSession.Reset | index.js:156-173 | the in-place reset matches `ResetStep` with a new deal and keeps the invariant |

## Left out

- DOM construction and querying are presentation and are not modelled. This covers `removeAll`, the `render` templates, `adjustBoardHeight`, the star, moves and status renderers, and the symbol panel.
- The `data-name` attribute and `model.character` are left out. They read a `characterName` field that cards do not have, and only the status line displays them.
- The `meaning` text of a card is left out because only the symbol panel shows it.
- The `setTimeout`/`setInterval` scheduling is replaced by events, because the model has no clock of its own.
  - `FeedbackDone` stands for the 1100 ms timeout that re-enables clicks (index.js:384), together with the deselect timeout that only a mismatch schedules (index.js:396-398), taken as one atomic step.
  - `Tick` stands for one firing of the interval.
  - The 300 ms delay before a reset re-renders the board is not modelled. The reset and the new deal are one step, so clicks on the old board during those 300 ms are not modelled.
- The flash animations (index.js:402-444) are left out because the overlay colours are cosmetic.
- The dialog opened 1.3 s after a win is left out. So are the modal's focus trap, its open and close, its Escape and Tab keys, and the rules panel. This is interface plumbing.
- `Math.random` is an oracle of indices with `0 <= rand[i] < i`. No distribution is modelled.
- `console.log` is left out. So is resolving the clicked element (LI, IMG or DIV) to its button: a click names the board position directly.
- `activateCard` and the focus of the re-rendered board are left out because they only move keyboard focus. `Keyboard.Target` gives the card that receives it.
- Game.ResetStep: a reset during the feedback pause leaves clicks disabled until the pending timeout fires. The cards that timeout captured are no longer on the board, so the model lets it only re-enable clicks.
- Timer.Clock.Start: the source's closure starts at 0:00 while `model.time` keeps its old value until the first tick. The model keeps one reading and sets it to 0:00 at start. In every reachable state that old value is already 0:00, because a game starts only after initialisation or a reset.
