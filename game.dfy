/**
 * The turn state machine: the board's click handler (index.js:328-362),
 * `matchAndRespond` (index.js:381-401), `checkWin` (index.js:454-463) and
 * `octopus.reset` (index.js:156-173), over the shared `model` object
 * (index.js:39-76) and the board's `clickEnabled` flag (index.js:327).
 *
 * The card buttons' `aria-selected` and `data-matched` attributes become
 * the `selected` and `matched` fields of a `BoardCard`.  The delayed
 * callbacks become events: `FeedbackDone` is the 1100 ms timeout that
 * re-enables clicks together with the one that deselects the captured
 * unmatched cards (index.js:384, 396-398), taken as one step; `Tick` is
 * one firing of the timer interval.
 */
module Game {
  import opened Wrappers
  import opened Deck
  import opened Stars
  import opened Timer

  /** A card button on the board: its symbol id and its two flags. */
  datatype BoardCard = BoardCard(id: nat, selected: bool, matched: bool)

  /** `model.matchingResult`: '', 'match', 'different' or 'Done'. */
  datatype MatchingResult = NoResult | Match | Different | Done

  /**
   * The pending feedback timeout, if any, with the board positions that
   * it will deselect.
   */
  datatype Feedback = Idle | Cooling(deselect: set<nat>)

  /** Everything the turn logic reads and writes. */
  datatype GameState = GameState(
    cards: seq<BoardCard>,
    selectedId: Option<nat>,
    moves: nat,
    stars: nat,
    firstClick: bool,
    clickEnabled: bool,
    matchingResult: MatchingResult,
    feedback: Feedback,
    clock: Time,
    running: bool)

  /** The buttons `boardView.render` creates for a dealt deck, all face down. */
  function FreshBoard(deck: seq<Card>): seq<BoardCard> {
    seq(|deck|, k requires 0 <= k < |deck| => BoardCard(deck[k].id, false, false))
  }

  /** The state after `octopus.init()`: the model's initial values and a dealt board. */
  function InitialState(deck: seq<Card>): GameState {
    GameState(FreshBoard(deck), None, 0, InitialStars, true, true, NoResult, Idle, Time(0, 0), false)
  }

  /** Positions that are selected but not matched (face up, awaiting resolution). */
  function Pending(cards: seq<BoardCard>): set<nat> {
    set k: nat | k < |cards| && cards[k].selected && !cards[k].matched
  }

  /** `trueDataMatchedAttr` on every card whose id is `id` (index.js:386, 389). */
  function MarkMatched(cards: seq<BoardCard>, id: nat): seq<BoardCard> {
    seq(|cards|, k requires 0 <= k < |cards| =>
      if cards[k].id == id then cards[k].(matched := true) else cards[k])
  }

  /** `falseAriaSelectedAttr` on the captured positions (index.js:451-453). */
  function Deselect(cards: seq<BoardCard>, positions: set<nat>): seq<BoardCard> {
    seq(|cards|, k requires 0 <= k < |cards| =>
      if k in positions then cards[k].(selected := false) else cards[k])
  }

  /** `this.cards.every(card => data-matched)` (index.js:455). */
  predicate AllMatched(cards: seq<BoardCard>) {
    forall k :: 0 <= k < |cards| ==> cards[k].matched
  }

  /** `checkWin`, index.js:454-463: when all cards match, report 'Done' and stop the clock. */
  function CheckWinStep(s: GameState): GameState {
    if AllMatched(s.cards) then s.(matchingResult := Done, running := false) else s
  }

  /** `matchAndRespond(firstId, secondId)`, index.js:381-401. */
  function MatchStep(s: GameState, firstId: nat, secondId: nat): GameState {
    var cooling := s.(clickEnabled := false);
    var resolved :=
      if firstId == secondId then
        CheckWinStep(cooling.(matchingResult := Match, cards := MarkMatched(s.cards, firstId),
                              feedback := Cooling({})))
      else
        cooling.(matchingResult := Different, feedback := Cooling(Pending(s.cards)));
    resolved.(selectedId := None)
  }

  /** The board's click handler on the card at position `p`, index.js:328-362. */
  function ClickStep(s: GameState, p: nat): GameState
    requires p < |s.cards|
  {
    if !s.clickEnabled then s
    else
      var started := if s.firstClick then s.(firstClick := false, clock := Time(0, 0), running := true) else s;
      if started.cards[p].selected then started
      else
        var currentId := s.cards[p].id;
        var shown := started.(cards := started.cards[p := started.cards[p].(selected := true)]);
        match s.selectedId
        case None => shown.(selectedId := Some(currentId))
        case Some(firstId) =>
          var counted := shown.(moves := shown.moves + 1, stars := DetermineNum(shown.moves + 1, shown.stars));
          MatchStep(counted, firstId, currentId)
  }

  /** The feedback timeout fires: clicks are enabled and the captured cards turned back. */
  function FeedbackDoneStep(s: GameState): GameState {
    match s.feedback
    case Idle => s
    case Cooling(positions) => s.(clickEnabled := true, cards := Deselect(s.cards, positions), feedback := Idle)
  }

  /** One firing of the timer interval, if it is running. */
  function TickStep(s: GameState): GameState {
    if s.running then s.(clock := Advance(s.clock)) else s
  }

  /**
   * `octopus.reset`, index.js:156-173, with the board re-dealt from `deck`.
   * A pending feedback timeout still re-enables clicks later, but the cards
   * it captured are no longer on the board.
   */
  function ResetStep(s: GameState, deck: seq<Card>): GameState {
    s.(moves := 0, stars := InitialStars, matchingResult := NoResult, selectedId := None,
       firstClick := true, cards := FreshBoard(deck), clock := Time(0, 0), running := false,
       feedback := if s.feedback.Cooling? then Cooling({}) else Idle)
  }

  // ---------------------------------------------------------------------
  // The invariant of reachable states

  /** No symbol id is on more than two cards. */
  predicate NoThreeAlike(cards: seq<BoardCard>) {
    forall i, j, k :: 0 <= i < j < k < |cards| ==>
      !(cards[i].id == cards[j].id && cards[j].id == cards[k].id)
  }

  /** Matched cards stay face up: `data-matched` implies `aria-selected`. */
  predicate MatchedSelected(cards: seq<BoardCard>) {
    forall k :: 0 <= k < |cards| ==> cards[k].matched ==> cards[k].selected
  }

  predicate NoneSelected(cards: seq<BoardCard>) {
    forall k :: 0 <= k < |cards| ==> !cards[k].selected
  }

  /** The pending first card of a pair is the only unresolved card, and has the recorded id. */
  predicate OneFaceUp(cards: seq<BoardCard>, id: nat) {
    exists q :: 0 <= q < |cards| && Pending(cards) == {q} && cards[q].id == id
  }

  predicate Inv(s: GameState) {
    && |s.cards| == DeckSize
    && NoThreeAlike(s.cards)
    && MatchedSelected(s.cards)
    && s.stars == Rating(s.moves)
    && s.clock.seconds < 60
    && (s.firstClick ==> NoneSelected(s.cards) && s.clock == Time(0, 0) && !s.running)
    && (s.clickEnabled <==> s.feedback.Idle?)
    && (s.selectedId.Some? ==> s.clickEnabled && OneFaceUp(s.cards, s.selectedId.value))
    && (s.selectedId.None? && s.clickEnabled ==> Pending(s.cards) == {})
    && (s.feedback.Cooling? ==>
          s.selectedId.None? && Pending(s.cards) == s.feedback.deselect && |s.feedback.deselect| <= 2)
    && (s.matchingResult == Done <==> AllMatched(s.cards))
    && (s.running <==> !s.firstClick && !AllMatched(s.cards))
  }

  // ---------------------------------------------------------------------
  // Helper facts about the card flags

  lemma PendingAfterSelect(cards: seq<BoardCard>, p: nat)
    requires p < |cards| && !cards[p].selected && MatchedSelected(cards)
    ensures Pending(cards[p := cards[p].(selected := true)]) == Pending(cards) + {p}
  {
  }

  lemma PendingNone(cards: seq<BoardCard>)
    requires NoneSelected(cards)
    ensures Pending(cards) == {}
  {
    assert forall k :: k in Pending(cards) ==> false;
  }

  /** A third card cannot share the id of two others. */
  lemma OnlyPair(cards: seq<BoardCard>, a: nat, b: nat, c: nat)
    requires NoThreeAlike(cards) && a < |cards| && b < |cards| && c < |cards|
    requires a != b && a != c && b != c
    requires cards[a].id == cards[b].id
    ensures cards[c].id != cards[a].id
  {
    var x, y, z := cards[a].id, cards[b].id, cards[c].id;
    if a < b {
      if c < a { assert !(z == x && x == y); }
      else if c < b { assert !(x == z && z == y); }
      else { assert !(x == y && y == z); }
    } else {
      if c < b { assert !(z == y && y == x); }
      else if c < a { assert !(y == z && z == x); }
      else { assert !(y == x && x == z); }
    }
  }

  lemma TwoElements(a: nat, b: nat)
    requires a != b
    ensures |{a, b}| == 2
  {
  }

  /** Counting an element in a growing prefix. */
  lemma PrefixCount<T>(s: seq<T>, n: nat, x: T)
    requires n < |s|
    ensures multiset(s[..n + 1])[x] == multiset(s[..n])[x] + (if s[n] == x then 1 else 0)
  {
    assert s[..n + 1] == s[..n] + [s[n]];
  }

  lemma PrefixCountGrows<T>(s: seq<T>, m: nat, n: nat, x: T)
    requires m <= n <= |s|
    ensures multiset(s[..m])[x] <= multiset(s[..n])[x]
  {
    assert s[..n] == s[..m] + s[m..n];
  }

  /** An element three times in a sequence counts three times in its multiset. */
  lemma ThreeCopies<T>(s: seq<T>, i: nat, j: nat, k: nat)
    requires i < j < k < |s| && s[i] == s[j] && s[j] == s[k]
    ensures multiset(s)[s[i]] >= 3
  {
    var x := s[i];
    PrefixCount(s, i, x);
    PrefixCountGrows(s, i + 1, j, x);
    PrefixCount(s, j, x);
    PrefixCountGrows(s, j + 1, k, x);
    PrefixCount(s, k, x);
    PrefixCountGrows(s, k + 1, |s|, x);
    assert s[..|s|] == s;
  }

  lemma SameIdSameCard(cat: seq<Card>, c: Card, d: Card)
    requires DistinctIds(cat) && c in cat && d in cat && c.id == d.id
    ensures c == d
  {
    var i :| 0 <= i < |cat| && cat[i] == c;
    var j :| 0 <= j < |cat| && cat[j] == d;
    assert !(i < j) && !(j < i);
  }

  /** A deck of cards with distinct ids, each at most twice, has no id three times. */
  lemma AtMostTwiceNoThree(deck: seq<Card>, cat: seq<Card>)
    requires DistinctIds(cat)
    requires forall c :: c in deck ==> c in cat
    requires forall c :: c in cat ==> multiset(deck)[c] <= 2
    ensures NoThreeAlike(FreshBoard(deck))
  {
    var board := FreshBoard(deck);
    forall i, j, k | 0 <= i < j < k < |board|
      ensures !(board[i].id == board[j].id && board[j].id == board[k].id)
    {
      if board[i].id == board[j].id && board[j].id == board[k].id {
        assert deck[i] in deck && deck[j] in deck && deck[k] in deck;
        SameIdSameCard(cat, deck[i], deck[j]);
        SameIdSameCard(cat, deck[j], deck[k]);
        ThreeCopies(deck, i, j, k);
        assert false;
      }
    }
  }

  /** A dealt board has 16 cards, none of them face up, no id three times. */
  lemma FreshBoardPaired(rand: seq<nat>)
    requires RandomOracle(rand, DeckSize)
    ensures |FreshBoard(DealSpec(rand))| == DeckSize
    ensures NoThreeAlike(FreshBoard(DealSpec(rand)))
    ensures NoneSelected(FreshBoard(DealSpec(rand)))
  {
    DealPairs(rand);
    CatalogueIds();
    AtMostTwiceNoThree(DealSpec(rand), Catalogue);
  }

  // ---------------------------------------------------------------------
  // Each event keeps the invariant

  /** A new game starts in a state of the invariant. */
  lemma InitialInv(rand: seq<nat>)
    requires RandomOracle(rand, DeckSize)
    ensures Inv(InitialState(DealSpec(rand)))
  {
    var board := FreshBoard(DealSpec(rand));
    FreshBoardPaired(rand);
    PendingNone(board);
    assert !board[0].matched;
  }

  lemma ResetKeepsInv(s: GameState, rand: seq<nat>)
    requires Inv(s) && RandomOracle(rand, DeckSize)
    ensures Inv(ResetStep(s, DealSpec(rand)))
  {
    var board := FreshBoard(DealSpec(rand));
    FreshBoardPaired(rand);
    PendingNone(board);
    assert !board[0].matched;
  }

  lemma TickKeepsInv(s: GameState)
    requires Inv(s)
    ensures Inv(TickStep(s))
  {
  }

  /** Turning back the pending cards leaves ids and matched flags alone and nothing pending. */
  lemma DeselectPending(cards: seq<BoardCard>)
    requires MatchedSelected(cards) && NoThreeAlike(cards)
    ensures var r := Deselect(cards, Pending(cards));
      && |r| == |cards|
      && (forall k :: 0 <= k < |r| ==> r[k].id == cards[k].id && r[k].matched == cards[k].matched)
      && MatchedSelected(r) && NoThreeAlike(r)
      && Pending(r) == {}
      && AllMatched(r) == AllMatched(cards)
  {
    var r := Deselect(cards, Pending(cards));
    assert forall k :: 0 <= k < |r| ==> r[k].id == cards[k].id && r[k].matched == cards[k].matched;
    forall k: nat | k < |r| ensures !(r[k].selected && !r[k].matched) {
      if k !in Pending(cards) {
        assert !(cards[k].selected && !cards[k].matched);
      }
    }
    assert Pending(r) == {};
  }

  lemma FeedbackDoneKeepsInv(s: GameState)
    requires Inv(s)
    ensures Inv(FeedbackDoneStep(s))
  {
    if s.feedback.Cooling? {
      DeselectPending(s.cards);
    }
  }

  lemma ClickKeepsInv(s: GameState, p: nat)
    requires Inv(s) && p < |s.cards|
    ensures Inv(ClickStep(s, p))
  {
    if s.clickEnabled && !s.cards[p].selected {
      var shownCards := s.cards[p := s.cards[p].(selected := true)];
      PendingAfterSelect(s.cards, p);
      match s.selectedId
      case None =>
        assert Pending(s.cards) == {};
        assert Pending(shownCards) == {p};
        assert OneFaceUp(shownCards, s.cards[p].id);
        assert !AllMatched(shownCards) by { assert !shownCards[p].matched; }
      case Some(firstId) =>
        var q :| 0 <= q < |s.cards| && Pending(s.cards) == {q} && s.cards[q].id == firstId;
        assert q != p;
        assert Pending(shownCards) == {q, p};
        DetermineNumFollowsRating(s.moves);
        if firstId == s.cards[p].id {
          SecondCardMatchKeepsInv(s, p, q);
        } else {
          TwoElements(q, p);
          assert !AllMatched(shownCards) by { assert !shownCards[p].matched; }
        }
    }
  }

  lemma SecondCardMatchKeepsInv(s: GameState, p: nat, q: nat)
    requires Inv(s) && p < |s.cards| && q < |s.cards| && p != q
    requires s.clickEnabled && !s.cards[p].selected
    requires s.selectedId == Some(s.cards[q].id) && Pending(s.cards) == {q}
    requires s.cards[p].id == s.cards[q].id
    ensures Inv(ClickStep(s, p))
    ensures ClickStep(s, p).cards[p].matched && ClickStep(s, p).cards[q].matched
    ensures Pending(ClickStep(s, p).cards) == {}
  {
    var id := s.cards[q].id;
    var shownCards := s.cards[p := s.cards[p].(selected := true)];
    var matchedCards := MarkMatched(shownCards, id);
    DetermineNumFollowsRating(s.moves);
    forall k | 0 <= k < |shownCards| && k != p && k != q
      ensures matchedCards[k] == s.cards[k]
    {
      OnlyPair(s.cards, q, p, k);
    }
    forall k: nat | k < |matchedCards| ensures !(matchedCards[k].selected && !matchedCards[k].matched) {
      if k != p && k != q {
        assert k !in Pending(s.cards);
      }
    }
    assert Pending(matchedCards) == {};
    assert MatchedSelected(matchedCards);
    assert NoThreeAlike(matchedCards) by {
      assert forall k :: 0 <= k < |matchedCards| ==> matchedCards[k].id == s.cards[k].id;
    }
  }

  // ---------------------------------------------------------------------
  // What a click does

  /**
   * A click on a card that is already face up only starts the clock on the
   * game's first click; in a reachable state that never happens, so such a
   * click changes nothing.
   */
  lemma ClickOnSelectedCard(s: GameState, p: nat)
    requires p < |s.cards| && s.clickEnabled && s.cards[p].selected
    ensures ClickStep(s, p).cards == s.cards && ClickStep(s, p).moves == s.moves
    ensures ClickStep(s, p).selectedId == s.selectedId && ClickStep(s, p).clickEnabled
    ensures !ClickStep(s, p).firstClick
    ensures ClickStep(s, p).running == (s.running || s.firstClick)
    ensures Inv(s) ==> ClickStep(s, p) == s
  {
  }

  /** The first card of a pair: it turns face up and its id is recorded; no move is counted. */
  lemma ClickFirstOfPair(s: GameState, p: nat)
    requires Inv(s) && p < |s.cards| && s.clickEnabled && !s.cards[p].selected
    requires s.selectedId.None?
    ensures var r := ClickStep(s, p);
      && r.selectedId == Some(s.cards[p].id)
      && r.moves == s.moves && r.stars == s.stars && r.clickEnabled
      && r.matchingResult == s.matchingResult && r.feedback == s.feedback
      && r.cards == s.cards[p := BoardCard(s.cards[p].id, true, false)]
      && Pending(r.cards) == {p}
      && r.running
  {
    PendingAfterSelect(s.cards, p);
  }

  /**
   * The second card of a pair: exactly one move is counted, the rating is
   * re-evaluated, clicks are disabled and no card id stays recorded.
   */
  lemma ClickSecondOfPair(s: GameState, p: nat)
    requires Inv(s) && p < |s.cards| && s.clickEnabled && !s.cards[p].selected
    requires s.selectedId.Some?
    ensures var r := ClickStep(s, p);
      && r.moves == s.moves + 1
      && r.stars == DetermineNum(s.moves + 1, s.stars) && r.stars == Rating(r.moves)
      && r.stars <= s.stars
      && !r.clickEnabled && r.feedback.Cooling?
      && r.selectedId == None
      && (r.matchingResult == Done <==> AllMatched(r.cards))
      && (r.matchingResult == Done ==> !r.running)
  {
    DetermineNumFollowsRating(s.moves);
    RatingNonIncreasing(s.moves, s.moves + 1);
    ClickKeepsInv(s, p);
  }

  /**
   * A matching pair: exactly the cards with the recorded id become matched
   * (and stay face up), no other card changes, and the result is 'Done'
   * precisely when every card is now matched.
   */
  lemma ClickMatch(s: GameState, p: nat)
    requires Inv(s) && p < |s.cards| && s.clickEnabled && !s.cards[p].selected
    requires s.selectedId == Some(s.cards[p].id)
    ensures var r := ClickStep(s, p);
      && |r.cards| == |s.cards|
      && (forall k :: 0 <= k < |s.cards| ==>
            r.cards[k] == if s.cards[k].id == s.cards[p].id then BoardCard(s.cards[k].id, true, true) else s.cards[k])
      && r.feedback == Cooling({})
      && r.matchingResult == (if AllMatched(r.cards) then Done else Match)
      && r.running == (s.running && !AllMatched(r.cards))
  {
    var q :| 0 <= q < |s.cards| && Pending(s.cards) == {q} && s.cards[q].id == s.cards[p].id;
    assert q in Pending(s.cards);
    forall k | 0 <= k < |s.cards| && k != p && k != q
      ensures s.cards[k].id != s.cards[p].id
    {
      OnlyPair(s.cards, q, p, k);
    }
  }

  /**
   * A mismatching pair: both cards stay face up for the feedback time, and
   * the timeout will turn back exactly those two, the selected and
   * unmatched cards at resolution time.
   */
  lemma ClickMismatch(s: GameState, p: nat)
    requires Inv(s) && p < |s.cards| && s.clickEnabled && !s.cards[p].selected
    requires s.selectedId.Some? && s.selectedId != Some(s.cards[p].id)
    ensures var r := ClickStep(s, p);
      && r.cards == s.cards[p := BoardCard(s.cards[p].id, true, false)]
      && r.matchingResult == Different
      && r.feedback == Cooling(Pending(r.cards))
      && |Pending(r.cards)| == 2 && p in Pending(r.cards)
      && r.running == s.running
  {
    var q :| 0 <= q < |s.cards| && Pending(s.cards) == {q} && s.cards[q].id == s.selectedId.value;
    PendingAfterSelect(s.cards, p);
    assert q != p;
    TwoElements(q, p);
  }

  /**
   * The feedback timeout re-enables clicks and turns back exactly the cards
   * it captured; matched cards stay face up and nothing is left pending.
   */
  lemma FeedbackDoneTurnsBack(s: GameState)
    requires Inv(s) && s.feedback.Cooling?
    ensures var r := FeedbackDoneStep(s);
      && r.clickEnabled && r.feedback.Idle?
      && |r.cards| == |s.cards|
      && (forall k :: 0 <= k < |s.cards| ==>
            r.cards[k].id == s.cards[k].id && r.cards[k].matched == s.cards[k].matched
            && r.cards[k].selected == (s.cards[k].selected && k !in s.feedback.deselect))
      && (forall k :: 0 <= k < |s.cards| && s.cards[k].matched ==> r.cards[k].selected)
      && Pending(r.cards) == {}
      && r.moves == s.moves && r.matchingResult == s.matchingResult
  {
    FeedbackDoneKeepsInv(s);
  }

  /** In every reachable state at most two cards are face up without being matched. */
  lemma AtMostTwoPending(s: GameState)
    requires Inv(s)
    ensures |Pending(s.cards)| <= 2
    ensures forall k :: 0 <= k < |s.cards| && s.cards[k].matched ==> s.cards[k].selected
  {
    if s.selectedId.Some? {
      var q :| 0 <= q < |s.cards| && Pending(s.cards) == {q} && s.cards[q].id == s.selectedId.value;
    }
  }

  /** After the win the clock is stopped: later ticks change nothing. */
  lemma NoTicksAfterWin(s: GameState)
    requires Inv(s) && s.matchingResult == Done
    ensures AllMatched(s.cards) && !s.running
    ensures TickStep(s) == s
  {
  }

  /** A running clock moves by exactly one second per tick and keeps seconds below 60. */
  lemma TickAdvancesClock(s: GameState)
    requires Inv(s) && s.running
    ensures TotalSeconds(TickStep(s).clock) == TotalSeconds(s.clock) + 1
    ensures TickStep(s).clock.seconds < 60
  {
  }

  /** Replay: counters, rating, clock and result are back to their initial values. */
  lemma ResetRestarts(s: GameState, rand: seq<nat>)
    requires Inv(s) && RandomOracle(rand, DeckSize)
    ensures var r := ResetStep(s, DealSpec(rand));
      && r.moves == 0 && r.stars == InitialStars && r.clock == Time(0, 0) && !r.running
      && r.firstClick && r.selectedId.None? && r.matchingResult == NoResult
      && |r.cards| == DeckSize
      && (forall k :: 0 <= k < |r.cards| ==> !r.cards[k].selected && !r.cards[k].matched)
      && (forall k :: 0 <= k < |r.cards| ==> r.cards[k].id == DealSpec(rand)[k].id)
      && r.clickEnabled == s.clickEnabled
  {
    FreshBoardPaired(rand);
  }

  // ---------------------------------------------------------------------
  // Runs of events

  datatype Event = Click(position: nat) | FeedbackDone | Tick | Reset(rand: seq<nat>)

  /** An event the page can deliver: a card on the board, a valid random oracle. */
  predicate EventOk(e: Event) {
    match e
    case Click(p) => p < DeckSize
    case Reset(rand) => RandomOracle(rand, DeckSize)
    case _ => true
  }

  function Step(s: GameState, e: Event): (r: GameState)
    requires Inv(s) && EventOk(e)
    ensures Inv(r)
  {
    match e
    case Click(p) => ClickKeepsInv(s, p); ClickStep(s, p)
    case FeedbackDone => FeedbackDoneKeepsInv(s); FeedbackDoneStep(s)
    case Tick => TickKeepsInv(s); TickStep(s)
    case Reset(rand) => ResetKeepsInv(s, rand); ResetStep(s, DealSpec(rand))
  }

  function Run(s: GameState, events: seq<Event>): (r: GameState)
    requires Inv(s) && forall k :: 0 <= k < |events| ==> EventOk(events[k])
    ensures Inv(r)
    decreases |events|
  {
    if events == [] then s else Run(Step(s, events[0]), events[1..])
  }

  /** One event adds at most one move, and only a reset lowers the count. */
  lemma StepMoves(s: GameState, e: Event)
    requires Inv(s) && EventOk(e) && !e.Reset?
    ensures s.moves <= Step(s, e).moves <= s.moves + 1
    ensures Step(s, e).stars <= s.stars
  {
    RatingNonIncreasing(s.moves, Step(s, e).moves);
  }

  /**
   * Within a game (no replay) the move count never decreases, grows by at
   * most one per event, and the star rating never increases.
   */
  lemma {:induction false} RunMonotone(s: GameState, events: seq<Event>)
    requires Inv(s) && forall k :: 0 <= k < |events| ==> EventOk(events[k]) && !events[k].Reset?
    ensures s.moves <= Run(s, events).moves <= s.moves + |events|
    ensures Run(s, events).stars <= s.stars
    decreases |events|
  {
    if events != [] {
      StepMoves(s, events[0]);
      RunMonotone(Step(s, events[0]), events[1..]);
    }
  }

  /** An event of the feedback pause that the page still delivers: a click on a card or a tick. */
  predicate ClickOrTick(e: Event) {
    (e.Click? && e.position < DeckSize) || e.Tick?
  }

  /**
   * While the feedback timeout is pending, clicks are ignored: however many
   * clicks and ticks arrive, no card turns, no move is counted, no id is
   * recorded, and the rating and result stay; only the clock runs on.
   */
  lemma {:induction false} CooldownIgnoresClicks(s: GameState, events: seq<Event>)
    requires Inv(s) && s.feedback.Cooling?
    requires forall k :: 0 <= k < |events| ==> ClickOrTick(events[k])
    ensures forall k :: 0 <= k < |events| ==> EventOk(events[k])
    ensures var r := Run(s, events);
      && r.cards == s.cards && r.moves == s.moves && r.stars == s.stars
      && r.selectedId == s.selectedId && r.matchingResult == s.matchingResult
      && r.feedback == s.feedback && !r.clickEnabled
    decreases |events|
  {
    assert forall k :: 0 <= k < |events| ==> EventOk(events[k]);
    if events != [] {
      var next := Step(s, events[0]);
      assert forall k :: 0 <= k < |events[1..]| ==> ClickOrTick(events[1..][k]) by {
        forall k | 0 <= k < |events[1..]| ensures ClickOrTick(events[1..][k]) {
          assert events[1..][k] == events[k + 1];
        }
      }
      CooldownIgnoresClicks(next, events[1..]);
    }
  }

  // ---------------------------------------------------------------------
  // The game session object

  /**
   * The page's mutable state: `model` (cards' flags, `selectedId`, `moves`,
   * `stars`, `firstClick`, `matchingResult`), the board's `clickEnabled`,
   * the pending feedback timeout and the timer.
   */
  class GameSession {
    var cards: seq<BoardCard>
    var selectedId: Option<nat>
    var moves: nat
    var stars: nat
    var firstClick: bool
    var clickEnabled: bool
    var matchingResult: MatchingResult
    var feedback: Feedback
    const timer: Clock

    function State(): GameState
      reads this, timer
    {
      GameState(cards, selectedId, moves, stars, firstClick, clickEnabled, matchingResult,
                feedback, timer.Reading(), timer.running)
    }

    ghost predicate Valid()
      reads this, timer
    {
      Inv(State())
    }

    /** `octopus.init()`: initial model values and a board dealt with `rand`. */
    constructor (rand: seq<nat>)
      requires RandomOracle(rand, DeckSize)
      ensures Valid() && fresh(timer)
      ensures State() == InitialState(DealSpec(rand))
    {
      var deck := Deal(rand);
      cards := FreshBoard(deck);
      selectedId := None;
      moves := 0;
      stars := InitialStars;
      firstClick := true;
      clickEnabled := true;
      matchingResult := NoResult;
      feedback := Idle;
      timer := new Clock();
      InitialInv(rand);
    }

    /** A click on the card at board position `p`. */
    method Click(p: nat)
      requires Valid() && p < |cards|
      modifies this, timer
      ensures Valid()
      ensures State() == ClickStep(old(State()), p)
    {
      ClickKeepsInv(State(), p);
      if !clickEnabled {
        return;
      }
      if firstClick {
        timer.Start();
        firstClick := false;
      }
      var currentId := cards[p].id;
      var firstId := selectedId;
      if cards[p].selected {
        return;
      }
      cards := cards[p := cards[p].(selected := true)];
      match firstId {
        case None =>
          selectedId := Some(currentId);
        case Some(f) =>
          moves := moves + 1;
          stars := DetermineNum(moves, stars);
          MatchAndRespond(f, currentId);
      }
    }

    /** Resolves the pair `firstId`, `secondId`. */
    method MatchAndRespond(firstId: nat, secondId: nat)
      modifies this, timer
      ensures State() == MatchStep(old(State()), firstId, secondId)
    {
      clickEnabled := false;
      if firstId == secondId {
        matchingResult := Match;
        cards := MarkMatched(cards, firstId);
        feedback := Cooling({});
        CheckWin();
      } else {
        matchingResult := Different;
        feedback := Cooling(Pending(cards));
      }
      selectedId := None;
    }

    /** Reports the win and stops the clock once every card is matched. */
    method CheckWin()
      modifies this, timer
      ensures State() == CheckWinStep(old(State()))
    {
      if AllMatched(cards) {
        matchingResult := Done;
        timer.Stop();
      }
    }

    /** The feedback timeout fires. */
    method FeedbackDone()
      requires Valid()
      modifies this
      ensures Valid()
      ensures State() == FeedbackDoneStep(old(State()))
    {
      FeedbackDoneKeepsInv(State());
      match feedback {
        case Idle =>
        case Cooling(positions) =>
          clickEnabled := true;
          cards := Deselect(cards, positions);
          feedback := Idle;
      }
    }

    /** One firing of the timer interval. */
    method Tick()
      requires Valid()
      modifies timer
      ensures Valid()
      ensures State() == TickStep(old(State()))
    {
      TickKeepsInv(State());
      timer.Tick();
    }

    /** Replay with a board re-dealt from `rand`. */
    method Reset(rand: seq<nat>)
      requires Valid() && RandomOracle(rand, DeckSize)
      modifies this, timer
      ensures Valid()
      ensures State() == ResetStep(old(State()), DealSpec(rand))
    {
      ResetKeepsInv(State(), rand);
      moves := 0;
      stars := InitialStars;
      matchingResult := NoResult;
      selectedId := None;
      firstClick := true;
      timer.Reset();
      var deck := Deal(rand);
      cards := FreshBoard(deck);
      if feedback.Cooling? {
        feedback := Cooling({});
      }
    }
  }
}
