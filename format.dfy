/** Decimal rendering and parsing of unsigned integers, the padding that
    printf applies to a field written `%*s` or `%*llu` (ISO/IEC 9899:2011
    section 7.21.6.1), and the character classes scanf relies on. */
module Format {

  /** The characters isspace() accepts in the "C" locale. */
  predicate IsSpace(c: char) {
    c == ' ' || c == '\t' || c == '\n' || c == '\r' || c as int == 0x0B || c as int == 0x0C
  }

  predicate IsDigit(c: char) {
    '0' <= c <= '9'
  }

  predicate AllDigits(s: string) {
    forall i | 0 <= i < |s| :: IsDigit(s[i])
  }

  predicate AllBlanks(s: string) {
    forall i | 0 <= i < |s| :: s[i] == ' '
  }

  /** No character of s ends a line. */
  predicate NoNewline(s: string) {
    forall i | 0 <= i < |s| :: s[i] != '\n'
  }

  function DigitChar(d: nat): (c: char)
    requires d < 10
    ensures IsDigit(c) && DigitValue(c) == d
  {
    (48 + d) as char
  }

  function DigitValue(c: char): (d: nat)
    requires IsDigit(c)
    ensures d < 10
  {
    c as int - '0' as int
  }

  /** The decimal digits of n, most significant first, without leading
      zeros: what `%u` and `%llu` print with no width. */
  function Dec(n: nat): (s: string)
    ensures 1 <= |s| && AllDigits(s)
    ensures s[0] == '0' ==> n == 0
    decreases n
  {
    if n < 10 then [DigitChar(n)] else Dec(n / 10) + [DigitChar(n % 10)]
  }

  /** The number a string of decimal digits denotes. */
  function DigitsValue(s: string): nat
    requires AllDigits(s)
  {
    if s == [] then 0 else DigitsValue(s[..|s| - 1]) * 10 + DigitValue(s[|s| - 1])
  }

  /** Reading back what Dec wrote gives the number again. */
  lemma {:induction false} DecRoundTrip(n: nat)
    ensures DigitsValue(Dec(n)) == n
    decreases n
  {
    if n >= 10 {
      DecRoundTrip(n / 10);
      var s := Dec(n);
      assert s[..|s| - 1] == Dec(n / 10);
    }
  }

  function Pow10(k: nat): (p: nat)
    ensures p >= 1
  {
    if k == 0 then 1 else 10 * Pow10(k - 1)
  }

  /** A number below 10^k has at most k decimal digits. */
  lemma {:induction false} DecLength(n: nat, k: nat)
    requires 1 <= k && n < Pow10(k)
    ensures |Dec(n)| <= k
    decreases n
  {
    if n >= 10 {
      assert n / 10 < Pow10(k - 1);
      DecLength(n / 10, k - 1);
    }
  }

  function Spaces(n: nat): (s: string)
    ensures |s| == n && AllBlanks(s)
  {
    seq(n, _ => ' ')
  }

  /** `%*s`: s right-justified in a field of at least width characters; a
      longer s is printed whole, never truncated. */
  function PadLeft(s: string, width: nat): (r: string)
    ensures |r| == if |s| < width then width else |s|
    ensures r[|r| - |s|..] == s && AllBlanks(r[..|r| - |s|])
    ensures NoNewline(s) ==> NoNewline(r)
  {
    if |s| < width then Spaces(width - |s|) + s else s
  }

  /** `%*llu`: the decimal digits of n right-justified in a field of at least
      width characters, never truncated. */
  function FormatUnsigned(n: nat, width: nat): (r: string)
    ensures |r| == if |Dec(n)| < width then width else |Dec(n)|
    ensures r[|r| - |Dec(n)|..] == Dec(n) && AllBlanks(r[..|r| - |Dec(n)|])
    ensures NoNewline(r)
  {
    var r := PadLeft(Dec(n), width);
    assert forall i | 0 <= i < |r| :: r[i] == ' ' || IsDigit(r[i]) by {
      forall i | 0 <= i < |r|
        ensures r[i] == ' ' || IsDigit(r[i])
      {
        var pad := |r| - |Dec(n)|;
        if i < pad {
          assert r[..pad][i] == r[i];
        } else {
          assert r[pad..][i - pad] == r[i];
        }
      }
    }
    r
  }

  /** The number of line ends in s. */
  function CountNewlines(s: string): nat {
    if s == [] then 0 else CountNewlines(s[..|s| - 1]) + (if s[|s| - 1] == '\n' then 1 else 0)
  }

  lemma {:induction false} CountNewlinesAppend(a: string, b: string)
    ensures CountNewlines(a + b) == CountNewlines(a) + CountNewlines(b)
    decreases |b|
  {
    if b != [] {
      assert (a + b)[..|a + b| - 1] == a + b[..|b| - 1];
      CountNewlinesAppend(a, b[..|b| - 1]);
    } else {
      assert a + b == a;
    }
  }

  /** A string with no line end in it followed by one line end is exactly
      one line. */
  lemma OneLine(s: string)
    requires NoNewline(s)
    ensures CountNewlines(s + "\n") == 1
  {
    assert (s + "\n")[..|s|] == s;
    NoNewlineCount(s);
  }

  lemma {:induction false} NoNewlineCount(s: string)
    requires NoNewline(s)
    ensures CountNewlines(s) == 0
    decreases |s|
  {
    if s != [] {
      NoNewlineCount(s[..|s| - 1]);
    }
  }
}
