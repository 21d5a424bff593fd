/** Python's `int(text)` for a decimal number: surrounding spaces, a sign and single underscores between digits. */
module PyInt {
  import opened Wrappers
  import opened Json
  import opened Clock

  /** What comes before the last digit, without an underscore between them. */
  function Before(s: string): (init: string)
    requires s != ""
    ensures |init| < |s|
  {
    var init := s[..|s| - 1];
    if init != "" && init[|init| - 1] == '_' then init[..|init| - 1] else init
  }

  /** Digits, with single underscores between them. */
  predicate Grouped(s: string)
    decreases |s|
  {
    s != "" && Digit(s[|s| - 1]) && (|s| == 1 || Grouped(Before(s)))
  }

  function Value(s: string): nat
    requires Grouped(s)
    decreases |s|
  {
    if |s| == 1 then DigitValue(s[0]) else 10 * Value(Before(s)) + DigitValue(s[|s| - 1])
  }

  function Unsigned(s: string): string {
    if s != "" && (s[0] == '+' || s[0] == '-') then s[1..] else s
  }

  /** The number a text reads as; None where `int` raises. */
  function ParseInt(s: string): Option<int> {
    var text := Strip(s);
    var digits := Unsigned(text);
    if !Grouped(digits) then None
    else
      var value: int := Value(digits);
      Some(if text[0] == '-' then -value else value)
  }

  /** Two plain digits read as they are written. */
  lemma TwoDigitsRead(s: string)
    requires |s| == 2 && Digit(s[0]) && Digit(s[1])
    ensures ParseInt(s) == Some(10 * DigitValue(s[0]) + DigitValue(s[1]))
  {
    StripStrips(s);
    assert Strip(s) == s && Unsigned(s) == s;
    assert Before(s) == [s[0]];
    assert Grouped([s[0]]) && Value([s[0]]) == DigitValue(s[0]);
    assert Grouped(s) && Value(s) == 10 * Value(Before(s)) + DigitValue(s[1]);
  }
}
