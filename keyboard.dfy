/**
 * Keyboard navigation on the 4 x 4 board, `boardView.handleInput`,
 * index.js:467-525, with the key table of index.js:364-371.  A card's
 * order is its board position 0..15 (`data-num`); the result is the
 * position that receives focus, or `None` when no card is activated.
 * Focus and tab-index changes (`activateCard`) are the DOM side of it.
 */
module Keyboard {
  import opened Wrappers

  const Columns := 4
  const Cards := 16

  datatype Direction = Right | Left | Down | Up | Home | End

  /** `interactiveKeys`: End 35, Home 36 and the arrows 37..40. */
  function KeyDirection(keyCode: int): (r: Option<Direction>)
    ensures r.Some? <==> 35 <= keyCode <= 40
  {
    if keyCode == 35 then Some(End)
    else if keyCode == 36 then Some(Home)
    else if keyCode == 37 then Some(Left)
    else if keyCode == 38 then Some(Up)
    else if keyCode == 39 then Some(Right)
    else if keyCode == 40 then Some(Down)
    else None
  }

  /** The `switch (direction)` of `handleInput`. */
  function Target(order: nat, direction: Direction): (r: Option<nat>)
    requires order < Cards
    ensures r.Some? ==> r.value < Cards
  {
    match direction
    case Right => if order != 15 then Some(order + 1) else None
    case Left => if order != 0 then Some(order - 1) else None
    case Down =>
      if 12 <= order <= 14 then Some(order - 11)
      else if order != 15 then Some(order + 4)
      else None
    case Up =>
      if 1 <= order <= 3 then Some(order + 11)
      else if order != 0 then Some(order - 4)
      else None
    case Home =>
      if order <= 3 then Some(0)
      else if order <= 7 then Some(4)
      else if order <= 11 then Some(8)
      else Some(12)
    case End =>
      if order >= 12 then Some(15)
      else if order >= 8 then Some(11)
      else if order >= 4 then Some(7)
      else Some(3)
  }

  /** A keydown on the card at `order`: keys outside the table do nothing. */
  function HandleKey(order: nat, keyCode: int): (r: Option<nat>)
    requires order < Cards
    ensures r.Some? ==> r.value < Cards && KeyDirection(keyCode).Some?
  {
    match KeyDirection(keyCode)
    case None => None
    case Some(direction) => Target(order, direction)
  }

  /** A card's place when the board is read column by column. */
  function ColumnMajor(order: nat): nat {
    (order % Columns) * Columns + order / Columns
  }

  /**
   * Down and Up walk the board column by column: Down is the next card in
   * column order (the last row wraps to the top of the next column), Up is
   * the previous one.
   */
  lemma DownUpColumnOrder(order: nat)
    requires order < Cards
    ensures order < Cards - 1 ==>
      Target(order, Down).Some? && ColumnMajor(Target(order, Down).value) == ColumnMajor(order) + 1
    ensures 0 < order ==>
      Target(order, Up).Some? && ColumnMajor(Target(order, Up).value) + 1 == ColumnMajor(order)
  {
  }

  /** Only the first and the last card lack an arrow move, each in two directions. */
  lemma ArrowsStopAtCorners(order: nat)
    requires order < Cards
    ensures Target(order, Right).None? <==> order == Cards - 1
    ensures Target(order, Down).None? <==> order == Cards - 1
    ensures Target(order, Left).None? <==> order == 0
    ensures Target(order, Up).None? <==> order == 0
  {
  }

  /** Left undoes Right and Up undoes Down, on every card that can move. */
  lemma ArrowInverses(order: nat)
    requires order < Cards - 1
    ensures Target(order, Right).Some? && Target(Target(order, Right).value, Left) == Some(order)
    ensures Target(order, Down).Some? && Target(Target(order, Down).value, Up) == Some(order)
  {
  }

  /** Right undoes Left and Down undoes Up, on every card that can move. */
  lemma ArrowInversesBack(order: nat)
    requires 0 < order < Cards
    ensures Target(order, Left).Some? && Target(Target(order, Left).value, Right) == Some(order)
    ensures Target(order, Up).Some? && Target(Target(order, Up).value, Down) == Some(order)
  {
  }

  /** Home goes to the first card of the row, End to its last card. */
  lemma HomeEndInRow(order: nat)
    requires order < Cards
    ensures Target(order, Home) == Some(order - order % Columns)
    ensures Target(order, End) == Some(order - order % Columns + Columns - 1)
    ensures Target(order, Home).value / Columns == order / Columns
    ensures Target(order, End).value / Columns == order / Columns
  {
  }

  /** Pressing Home or End twice is the same as pressing it once. */
  lemma HomeEndIdempotent(order: nat)
    requires order < Cards
    ensures Target(Target(order, Home).value, Home) == Target(order, Home)
    ensures Target(Target(order, End).value, End) == Target(order, End)
  {
  }
}
