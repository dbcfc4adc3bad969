/** Small shared vocabulary: optional values, results, and the few pieces of
    Python string behaviour (`str(int)`, `str.join`, `textwrap.indent`) that the
    rest of the model relies on. */
module Base {

  datatype Option<+T> = None | Some(value: T) {
    function GetOr(default: T): T {
      match this
      case Some(v) => v
      case None => default
    }
  }

  /** A Python call that either returns a value or raises; the error carries
      the exception's message. */
  datatype Result<+T> = Success(value: T) | Failure(error: string)

  predicate IsDigit(c: char) {
    '0' <= c <= '9'
  }

  predicate AllDigits(s: string) {
    forall k :: 0 <= k < |s| ==> IsDigit(s[k])
  }

  function DigitChar(d: nat): char
    requires d < 10
  {
    ['0', '1', '2', '3', '4', '5', '6', '7', '8', '9'][d]
  }

  /** Python's `str(n)` for a non-negative integer. */
  function NatToString(n: nat): (s: string)
    ensures |s| >= 1 && AllDigits(s)
    ensures n < 10 <==> |s| == 1
    decreases n
  {
    if n < 10 then [DigitChar(n)] else NatToString(n / 10) + [DigitChar(n % 10)]
  }

  /** Python's `str(i)` for any integer. */
  function IntToString(i: int): string {
    if i < 0 then "-" + NatToString(-i) else NatToString(i)
  }

  lemma DigitCharInjective(a: nat, b: nat)
    requires a < 10 && b < 10 && DigitChar(a) == DigitChar(b)
    ensures a == b
  {
  }

  /** Decimal rendering is injective: distinct counters give distinct texts. */
  lemma {:induction false} NatToStringInjective(a: nat, b: nat)
    requires NatToString(a) == NatToString(b)
    ensures a == b
    decreases a
  {
    var sa, sb := NatToString(a), NatToString(b);
    if a < 10 {
      assert |sb| == 1;
      DigitCharInjective(a, b);
    } else {
      assert b >= 10;
      assert sa[|sa| - 1] == DigitChar(a % 10) && sb[|sb| - 1] == DigitChar(b % 10);
      DigitCharInjective(a % 10, b % 10);
      assert sa[..|sa| - 1] == NatToString(a / 10);
      assert sb[..|sb| - 1] == NatToString(b / 10);
      NatToStringInjective(a / 10, b / 10);
    }
  }

  /** Python's `sep.join(parts)`. */
  function Join(sep: string, parts: seq<string>): string
    decreases |parts|
  {
    if |parts| == 0 then ""
    else if |parts| == 1 then parts[0]
    else parts[0] + sep + Join(sep, parts[1..])
  }

  /** The characters that Python's `str.strip()` removes, restricted to ASCII. */
  predicate IsSpace(c: char) {
    c == ' ' || c == '\t' || c == '\n' || c == '\r' || c == '\U{0B}' || c == '\U{0C}'
  }

  predicate HasNonSpace(s: string) {
    exists k :: 0 <= k < |s| && !IsSpace(s[k])
  }

  /** Length of the first line of `s`, its line break included. */
  function LineEnd(s: string): (k: nat)
    requires |s| > 0
    ensures 1 <= k <= |s|
    ensures forall j :: 0 <= j < k - 1 ==> s[j] != '\n'
    ensures k < |s| ==> s[k - 1] == '\n'
    decreases |s|
  {
    if s[0] == '\n' || |s| == 1 then 1 else 1 + LineEnd(s[1..])
  }

  /** `textwrap.indent(s, prefix)`: every line (in the sense of
      `splitlines(True)`, with '\n' as the only line break) that is not blank
      gets `prefix` in front. */
  function Indent(s: string, prefix: string): string
    decreases |s|
  {
    if |s| == 0 then ""
    else
      var k := LineEnd(s);
      var line := s[..k];
      (if HasNonSpace(line) then prefix + line else line) + Indent(s[k..], prefix)
  }

  function CountChar(s: string, c: char): nat
    decreases |s|
  {
    if |s| == 0 then 0 else (if s[0] == c then 1 else 0) + CountChar(s[1..], c)
  }

  lemma {:induction false} CountCharAppend(a: string, b: string, c: char)
    ensures CountChar(a + b, c) == CountChar(a, c) + CountChar(b, c)
    decreases |a|
  {
    if |a| == 0 {
      assert a + b == b;
    } else {
      assert (a + b)[1..] == a[1..] + b;
      CountCharAppend(a[1..], b, c);
    }
  }

  /** Indenting never adds or removes line breaks when the prefix has none. */
  lemma {:induction false} IndentKeepsLineBreaks(s: string, prefix: string)
    requires CountChar(prefix, '\n') == 0
    ensures CountChar(Indent(s, prefix), '\n') == CountChar(s, '\n')
    decreases |s|
  {
    if |s| > 0 {
      var k := LineEnd(s);
      var line := s[..k];
      assert s == line + s[k..];
      CountCharAppend(line, s[k..], '\n');
      IndentKeepsLineBreaks(s[k..], prefix);
      if HasNonSpace(line) {
        CountCharAppend(prefix, line, '\n');
        CountCharAppend(prefix + line, Indent(s[k..], prefix), '\n');
      } else {
        CountCharAppend(line, Indent(s[k..], prefix), '\n');
      }
    }
  }

  /** A text whose first character is not blank starts with the prefix once indented. */
  lemma IndentStartsWithPrefix(s: string, prefix: string)
    requires |s| > 0 && !IsSpace(s[0])
    ensures prefix + s[..LineEnd(s)] <= Indent(s, prefix)
  {
    var k := LineEnd(s);
    assert s[..k][0] == s[0];
    assert HasNonSpace(s[..k]);
  }
}
