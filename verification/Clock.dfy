/** Times of day as the settings hold them: zero-padded "HH:MM" strings. */
module Clock {
  const DAY_MINUTES := 1440

  predicate Digit(c: char) {
    '0' <= c <= '9'
  }

  function DigitValue(c: char): (v: int)
    requires Digit(c)
    ensures 0 <= v <= 9
  {
    c as int - '0' as int
  }

  function DigitChar(v: int): (c: char)
    requires 0 <= v <= 9
    ensures Digit(c) && DigitValue(c) == v
  {
    ('0' as int + v) as char
  }

  /** The pattern a saved time must match in full. */
  predicate IsTime(s: string) {
    && |s| == 5
    && (|| ((s[0] == '0' || s[0] == '1') && Digit(s[1]))
        || (s[0] == '2' && '0' <= s[1] <= '3'))
    && s[2] == ':'
    && '0' <= s[3] <= '5'
    && Digit(s[4])
  }

  type Time = s: string | IsTime(s) witness "00:00"

  /** The minute of the day. */
  function Minute(s: Time): (m: int)
    ensures 0 <= m < DAY_MINUTES
  {
    (10 * DigitValue(s[0]) + DigitValue(s[1])) * 60 + 10 * DigitValue(s[3]) + DigitValue(s[4])
  }

  function TwoDigits(v: int): string
    requires 0 <= v < 100
  {
    [DigitChar(v / 10), DigitChar(v % 10)]
  }

  function Format(hour: int, minute: int): (s: Time)
    requires 0 <= hour < 24 && 0 <= minute < 60
    ensures Minute(s) == hour * 60 + minute
  {
    TwoDigits(hour) + ":" + TwoDigits(minute)
  }

  /** String comparison, character by character. */
  predicate Before(a: string, b: string) {
    if a == [] || b == [] then b != []
    else a[0] < b[0] || (a[0] == b[0] && Before(a[1..], b[1..]))
  }

  /** Comparing two times as strings compares the times: the zero padding makes the alphabetical order the clock's. */
  lemma TimesCompareAsStrings(a: Time, b: Time)
    ensures Before(a, b) <==> Minute(a) < Minute(b)
    ensures a == b <==> Minute(a) == Minute(b)
  {
    assert a == [a[0], a[1], a[2], a[3], a[4]] && b == [b[0], b[1], b[2], b[3], b[4]];
    FivePlaces(a, b);
  }

  lemma FivePlaces(a: string, b: string)
    requires |a| == |b| == 5
    ensures Before(a, b)
       <==> (|| a[0] < b[0]
             || (a[0] == b[0] && a[1] < b[1])
             || (a[0] == b[0] && a[1] == b[1] && a[2] < b[2])
             || (a[0] == b[0] && a[1] == b[1] && a[2] == b[2] && a[3] < b[3])
             || (a[0] == b[0] && a[1] == b[1] && a[2] == b[2] && a[3] == b[3] && a[4] < b[4]))
  {
    assert Before(a, b) <==> a[0] < b[0] || (a[0] == b[0] && Before(a[1..], b[1..]));
    assert Before(a[1..], b[1..]) <==> a[1] < b[1] || (a[1] == b[1] && Before(a[2..], b[2..]));
    assert Before(a[2..], b[2..]) <==> a[2] < b[2] || (a[2] == b[2] && Before(a[3..], b[3..]));
    assert Before(a[3..], b[3..]) <==> a[3] < b[3] || (a[3] == b[3] && Before(a[4..], b[4..]));
    assert Before(a[4..], b[4..]) <==> a[4] < b[4];
  }
}
