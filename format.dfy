/**
 * Text the game shows: the `MM:SS` timer string built from `zeroPadded`
 * (index.js:24, 270-274) and the summary sentence of
 * `modalView.generateResultStr` (index.js:614-625).
 *
 * JavaScript turns numbers into decimal text when it builds a template
 * string; `Decimal` is that conversion, and `ParseDecimal` is its inverse.
 */
module Format {
  import opened Wrappers

  /** The character of decimal digit `d`. */
  function DigitChar(d: nat): (c: char)
    requires d < 10
    ensures '0' <= c <= '9'
  {
    (('0' as int) + d) as char
  }

  /** The value of a decimal digit character (0 for any other character). */
  function DigitValue(c: char): nat {
    if '0' <= c <= '9' then (c as int) - ('0' as int) else 0
  }

  predicate IsDigits(s: string) {
    forall k :: 0 <= k < |s| ==> '0' <= s[k] <= '9'
  }

  /** The decimal text of `n`, without leading zeros (JavaScript's `${n}`). */
  function Decimal(n: nat): (r: string)
    ensures |r| >= 1 && IsDigits(r)
    decreases n
  {
    if n < 10 then [DigitChar(n)] else Decimal(n / 10) + [DigitChar(n % 10)]
  }

  /** The value of a string of decimal digits. */
  function ParseDecimal(s: string): nat
    decreases |s|
  {
    if s == [] then 0 else ParseDecimal(s[..|s| - 1]) * 10 + DigitValue(s[|s| - 1])
  }

  /** Reading the decimal text of `n` gives back `n`. */
  lemma {:induction false} ParseDecimalInverts(n: nat)
    ensures ParseDecimal(Decimal(n)) == n
    decreases n
  {
    var r := Decimal(n);
    if n >= 10 {
      ParseDecimalInverts(n / 10);
      assert r[..|r| - 1] == Decimal(n / 10);
    }
  }

  /** The decimal text of `n` starts with the digit 0 exactly when `n` is 0. */
  lemma {:induction false} DecimalLeadingDigit(n: nat)
    ensures Decimal(n)[0] == '0' <==> n == 0
    decreases n
  {
    if n >= 10 {
      DecimalLeadingDigit(n / 10);
    }
  }

  /** A leading zero does not change the value of a digit string. */
  lemma {:induction false} ParseLeadingZero(s: string)
    ensures ParseDecimal("0" + s) == ParseDecimal(s)
    decreases |s|
  {
    if s != [] {
      var t := "0" + s;
      assert t[..|t| - 1] == "0" + s[..|s| - 1];
      ParseLeadingZero(s[..|s| - 1]);
    }
  }

  /** `zeroPadded`, index.js:24: single digits get a leading "0". */
  function ZeroPadded(num: nat): string {
    if num < 10 then "0" + Decimal(num) else Decimal(num)
  }

  /**
   * The padded text has at least two digits, starts with "0" exactly when
   * `num < 10` (then it has exactly two), and still reads as `num`.
   */
  lemma ZeroPaddedShape(num: nat)
    ensures |ZeroPadded(num)| >= 2 && IsDigits(ZeroPadded(num))
    ensures ZeroPadded(num)[0] == '0' <==> num < 10
    ensures num < 100 ==> |ZeroPadded(num)| == 2
    ensures ParseDecimal(ZeroPadded(num)) == num
  {
    DecimalLeadingDigit(num);
    ParseDecimalInverts(num);
    if num < 10 {
      ParseLeadingZero(Decimal(num));
    } else {
      var r := Decimal(num);
      assert r == Decimal(num / 10) + [DigitChar(num % 10)];
      if num < 100 {
        assert Decimal(num / 10) == [DigitChar(num / 10)];
      }
    }
  }

  /** The timer text `MM:SS`, index.js:271-272. */
  function TimeString(minutes: nat, seconds: nat): string {
    ZeroPadded(minutes) + ":" + ZeroPadded(seconds)
  }

  /**
   * The timer text is the padded minutes, a colon and exactly two second
   * digits, and both numbers can be read back from it; below 100 minutes it
   * is exactly five characters wide.
   */
  lemma TimeStringShape(minutes: nat, seconds: nat)
    requires seconds < 60
    ensures var r := TimeString(minutes, seconds);
      var m := |ZeroPadded(minutes)|;
      && |r| == m + 3
      && r[m] == ':'
      && ParseDecimal(r[..m]) == minutes
      && ParseDecimal(r[m + 1..]) == seconds
    ensures minutes < 100 ==> |TimeString(minutes, seconds)| == 5
  {
    ZeroPaddedShape(minutes);
    ZeroPaddedShape(seconds);
    var r := TimeString(minutes, seconds);
    var m := |ZeroPadded(minutes)|;
    assert r[..m] == ZeroPadded(minutes);
    assert r[m + 1..] == ZeroPadded(seconds);
  }

  /** The unit word for a count: singular for 1, plural otherwise. */
  function Unit(count: nat, singular: string): string {
    if count == 1 then singular else singular + "s"
  }

  /** The word is the singular exactly when the count is 1. */
  lemma UnitSingular(count: nat, singular: string)
    ensures Unit(count, singular) == singular <==> count == 1
  {
    if count != 1 {
      assert |Unit(count, singular)| == |singular| + 1;
    }
  }

  /** "`count` `unit`", as in "1 move" or "3 moves". */
  function Counted(count: nat, singular: string): string {
    Decimal(count) + " " + Unit(count, singular)
  }

  /** `modalView.generateResultStr(moves, seconds, minutes)`, index.js:614-625. */
  function ResultStr(moves: nat, seconds: nat, minutes: nat): string {
    if minutes > 0 then
      Counted(moves, "move") + " in " + Counted(minutes, "minute")
        + (if seconds > 0 then " and " + Counted(seconds, "second") else "")
    else
      Counted(moves, "move") + " in " + Counted(seconds, "second")
  }

  /** The words of a sentence: the pieces between single spaces. */
  function Words(s: string): (r: seq<string>)
    ensures |r| >= 1
    decreases |s|
  {
    if s == [] then [[]]
    else
      var rest := Words(s[1..]);
      if s[0] == ' ' then [[]] + rest else [[s[0]] + rest[0]] + rest[1..]
  }

  /** Splitting at a space splits the two sides independently. */
  lemma {:induction false} WordsSep(x: string, y: string)
    ensures Words(x + " " + y) == Words(x) + Words(y)
    decreases |x|
  {
    if x == [] {
      assert (x + " " + y)[1..] == y;
    } else {
      assert (x + " " + y)[1..] == x[1..] + " " + y;
      WordsSep(x[1..], y);
    }
  }

  /** Text without a space is one word. */
  lemma {:induction false} WordsSingle(a: string)
    requires ' ' !in a
    ensures Words(a) == [a]
    decreases |a|
  {
    if a != [] {
      WordsSingle(a[1..]);
      assert [a[0]] + a[1..] == a;
    }
  }

  lemma DecimalHasNoSpace(n: nat)
    ensures ' ' !in Decimal(n)
  {
    var d := Decimal(n);
    forall k | 0 <= k < |d| ensures d[k] != ' ' {
      assert '0' <= d[k] <= '9';
    }
  }

  /** "`count` `unit`" is two words: the number and the unit. */
  lemma CountedWords(count: nat, singular: string)
    requires ' ' !in singular
    ensures Words(Counted(count, singular)) == [Decimal(count), Unit(count, singular)]
  {
    DecimalHasNoSpace(count);
    var u := Unit(count, singular);
    assert ' ' !in u by {
      assert u == singular || u == singular + "s";
      assert ' ' !in "s";
    }
    WordsSep(Decimal(count), u);
    WordsSingle(Decimal(count));
    WordsSingle(u);
  }

  /** The connecting word between two clauses is one word of its own. */
  lemma ConnectiveWords(x: string, word: string, y: string)
    requires ' ' !in word
    ensures Words(x + " " + word + " " + y) == Words(x) + [word] + Words(y)
  {
    WordsSep(x + " " + word, y);
    WordsSep(x, word);
    WordsSingle(word);
  }

  /** With no minutes: "M move(s) in S second(s)". */
  lemma ResultWordsNoMinutes(moves: nat, seconds: nat)
    ensures Words(ResultStr(moves, seconds, 0)) ==
      [Decimal(moves), Unit(moves, "move"), "in", Decimal(seconds), Unit(seconds, "second")]
  {
    var movesClause, secondsClause := Counted(moves, "move"), Counted(seconds, "second");
    assert ResultStr(moves, seconds, 0) == movesClause + " " + "in" + " " + secondsClause;
    ConnectiveWords(movesClause, "in", secondsClause);
    CountedWords(moves, "move");
    CountedWords(seconds, "second");
  }

  /** "M move(s) in N minute(s)", the sentence's head when there are minutes. */
  lemma MinutesHeadWords(moves: nat, minutes: nat)
    ensures Words(Counted(moves, "move") + " in " + Counted(minutes, "minute")) ==
      [Decimal(moves), Unit(moves, "move"), "in", Decimal(minutes), Unit(minutes, "minute")]
  {
    var movesClause, minutesClause := Counted(moves, "move"), Counted(minutes, "minute");
    assert movesClause + " in " + minutesClause == movesClause + " " + "in" + " " + minutesClause;
    ConnectiveWords(movesClause, "in", minutesClause);
    CountedWords(moves, "move");
    CountedWords(minutes, "minute");
  }

  /** With minutes but no seconds: "M move(s) in N minute(s)", no seconds clause. */
  lemma ResultWordsWholeMinutes(moves: nat, minutes: nat)
    requires minutes > 0
    ensures Words(ResultStr(moves, 0, minutes)) ==
      [Decimal(moves), Unit(moves, "move"), "in", Decimal(minutes), Unit(minutes, "minute")]
  {
    assert ResultStr(moves, 0, minutes) == Counted(moves, "move") + " in " + Counted(minutes, "minute");
    MinutesHeadWords(moves, minutes);
  }

  /** With minutes and seconds the sentence is its head, " and ", and the seconds clause. */
  lemma ResultStrWithSeconds(moves: nat, seconds: nat, minutes: nat)
    requires minutes > 0 && seconds > 0
    ensures ResultStr(moves, seconds, minutes) ==
      (Counted(moves, "move") + " in " + Counted(minutes, "minute")) + " " + "and" + " " + Counted(seconds, "second")
  {
    var head := Counted(moves, "move") + " in " + Counted(minutes, "minute");
    var secondsClause := Counted(seconds, "second");
    assert " and " + secondsClause == " " + "and" + " " + secondsClause;
    assert head + (" and " + secondsClause) == head + " " + "and" + " " + secondsClause;
  }

  /** With minutes and seconds: "M move(s) in N minute(s) and S second(s)". */
  lemma ResultWordsMinutesAndSeconds(moves: nat, seconds: nat, minutes: nat)
    requires minutes > 0 && seconds > 0
    ensures Words(ResultStr(moves, seconds, minutes)) ==
      [Decimal(moves), Unit(moves, "move"), "in", Decimal(minutes), Unit(minutes, "minute")] +
      ["and", Decimal(seconds), Unit(seconds, "second")]
  {
    var head := Counted(moves, "move") + " in " + Counted(minutes, "minute");
    var secondsClause := Counted(seconds, "second");
    ResultStrWithSeconds(moves, seconds, minutes);
    ConnectiveWords(head, "and", secondsClause);
    MinutesHeadWords(moves, minutes);
    CountedWords(seconds, "second");
  }

  /** The three numbers a summary sentence reports. */
  datatype Summary = Summary(moves: nat, minutes: nat, seconds: nat)

  /** Reads the numbers back from the words of a summary sentence. */
  function ReadSummary(words: seq<string>): Option<Summary> {
    if |words| == 5 && words[2] == "in" && words[4] in {"minute", "minutes"} then
      Some(Summary(ParseDecimal(words[0]), ParseDecimal(words[3]), 0))
    else if |words| == 5 && words[2] == "in" && words[4] in {"second", "seconds"} then
      Some(Summary(ParseDecimal(words[0]), 0, ParseDecimal(words[3])))
    else if |words| == 8 && words[2] == "in" && words[5] == "and" then
      Some(Summary(ParseDecimal(words[0]), ParseDecimal(words[3]), ParseDecimal(words[6])))
    else None
  }

  /**
   * The summary sentence is unambiguous: moves, minutes and seconds can all
   * be read back from it (an omitted clause reads as 0).
   */
  lemma ResultStrReadsBack(moves: nat, seconds: nat, minutes: nat)
    ensures ReadSummary(Words(ResultStr(moves, seconds, minutes))) == Some(Summary(moves, minutes, seconds))
  {
    ParseDecimalInverts(moves);
    ParseDecimalInverts(minutes);
    ParseDecimalInverts(seconds);
    if minutes == 0 {
      ResultWordsNoMinutes(moves, seconds);
      assert "second" + "s" == "seconds";
    } else if seconds == 0 {
      ResultWordsWholeMinutes(moves, minutes);
      assert "minute" + "s" == "minutes";
    } else {
      ResultWordsMinutesAndSeconds(moves, seconds, minutes);
    }
  }

  /** A sample sentence without minutes. */
  lemma ResultStrSecondsExample()
    ensures ResultStr(1, 5, 0) == "1 move in 5 seconds"
  {
    assert Decimal(1) == "1" && Decimal(5) == "5";
  }

  /** A sample sentence of one whole minute. */
  lemma ResultStrMinuteExample()
    ensures ResultStr(3, 0, 1) == "3 moves in 1 minute"
  {
    assert Decimal(1) == "1" && Decimal(3) == "3";
  }
}
