/** Strings as the library uses them: non-empty strings (Psalm's
    `non-empty-string`), PHP's decimal rendering of an int, and `implode`. */
module Text {

  /** A string with at least one character. */
  type NonEmptyString = s: string | |s| > 0 witness "?"

  /** The decimal digits of a natural number, most significant first. */
  function Digits(n: nat): (s: string)
    ensures |s| > 0
    decreases n
  {
    var d := ['0', '1', '2', '3', '4', '5', '6', '7', '8', '9'][n % 10];
    if n < 10 then [d] else Digits(n / 10) + [d]
  }

  /** PHP's `(string) $int`: an optional minus sign followed by the digits. */
  function IntToString(i: int): NonEmptyString
  {
    if i < 0 then "-" + Digits(-i) else Digits(i)
  }

  /** PHP's `implode(sep, parts)`. */
  function Join(parts: seq<string>, sep: string): (s: string)
    ensures |parts| > 0 ==> |s| >= |parts[0]|
    decreases |parts|
  {
    if parts == [] then ""
    else if |parts| == 1 then parts[0]
    else parts[0] + sep + Join(parts[1..], sep)
  }
}
