/**
 * The star rating, `starsView.determineNum`, index.js:283-290: once more
 * than 12 moves have been made the rating is overwritten with a value
 * chosen by a nested conditional; otherwise it is left as it is.
 */
module Stars {

  /** The rating a game starts with (`model.stars`, index.js:75). */
  const InitialStars := 3

  /**
   * The rating after `determineNum(moves)` when it was `stars` before.  The
   * conditional tests `moves > 16` before `moves > 20`, so its 0 branch can
   * never be taken.
   */
  function DetermineNum(moves: nat, stars: nat): (r: nat)
    ensures moves <= 12 ==> r == stars
    ensures 13 <= moves <= 16 ==> r == 2
    ensures moves > 16 ==> r == 1
    ensures moves > 12 ==> r != 0
  {
    if moves > 12 then
      var starsNum: int := if moves > 16 then 1 else if moves > 20 then 0 else 2;
      starsNum
    else stars
  }

  /** A rating of at least one star never drops to zero. */
  lemma DetermineNumNeverZero(moves: nat, stars: nat)
    requires stars >= 1
    ensures DetermineNum(moves, stars) >= 1
  {
  }

  /** The rating a game shows after `moves` moves, as a function of moves alone. */
  function Rating(moves: nat): (r: nat)
    ensures 1 <= r <= InitialStars
  {
    if moves <= 12 then InitialStars else if moves <= 16 then 2 else 1
  }

  /** Re-evaluating after each move keeps the rating equal to `Rating(moves)`. */
  lemma DetermineNumFollowsRating(moves: nat)
    ensures DetermineNum(moves + 1, Rating(moves)) == Rating(moves + 1)
    ensures DetermineNum(0, InitialStars) == Rating(0)
  {
  }

  /** More moves never give more stars. */
  lemma RatingNonIncreasing(fewer: nat, more: nat)
    requires fewer <= more
    ensures Rating(more) <= Rating(fewer)
  {
  }
}
