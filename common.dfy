/**
 * Helpers shared by the calculator, the mnemonic hook and the image route:
 * an Option type, JavaScript's `Math.round`, decimal digit strings and the
 * whitespace class that `String.prototype.trim`, `parseInt` and the regular
 * expression class `\s` share.
 */
module Common {

  datatype Option<+T> = None | Some(value: T)

  /** JavaScript `Math.round`: the nearest integer, halves rounded up (towards +infinity). */
  function Round(x: real): int {
    (x + 0.5).Floor
  }

  /** `Math.round(x)` kept as a number. */
  function RoundR(x: real): real {
    Round(x) as real
  }

  /** `Math.round(x * 10) / 10`: one decimal place, as ages are shown. */
  function RoundTenth(x: real): real {
    Round(x * 10.0) as real / 10.0
  }

  lemma {:induction false} RoundMonotone(x: real, y: real)
    requires x <= y
    ensures Round(x) <= Round(y)
  {
    assert x + 0.5 <= y + 0.5;
  }

  predicate IsDigit(c: char) {
    '0' <= c <= '9'
  }

  predicate AllDigits(s: string) {
    forall i :: 0 <= i < |s| ==> IsDigit(s[i])
  }

  function DigitValue(c: char): nat
    requires IsDigit(c)
  {
    c as int - '0' as int
  }

  function DigitChar(d: nat): (c: char)
    requires d < 10
    ensures IsDigit(c) && DigitValue(c) == d
  {
    ('0' as int + d) as char
  }

  /** The decimal value of a string of ASCII digits, leading zeros allowed. */
  function DigitsValue(s: string): nat
    requires AllDigits(s)
  {
    if s == [] then 0 else DigitsValue(s[..|s| - 1]) * 10 + DigitValue(s[|s| - 1])
  }

  /** The canonical decimal spelling of a natural number (`String(n)`). */
  function NatToString(n: nat): (s: string)
    ensures |s| > 0 && AllDigits(s)
  {
    if n < 10 then [DigitChar(n)] else NatToString(n / 10) + [DigitChar(n % 10)]
  }

  /** Reading back the decimal spelling of `n` gives `n`. */
  lemma {:induction false} NatToStringValue(n: nat)
    ensures DigitsValue(NatToString(n)) == n
  {
    var s := NatToString(n);
    if n >= 10 {
      NatToStringValue(n / 10);
      assert s[..|s| - 1] == NatToString(n / 10);
    }
  }

  lemma NatToStringInjective(m: nat, n: nat)
    requires NatToString(m) == NatToString(n)
    ensures m == n
  {
    NatToStringValue(m);
    NatToStringValue(n);
  }

  /**
   * The whitespace of ECMAScript (WhiteSpace and LineTerminator): what `trim`
   * removes, what `parseInt` skips and what the regular-expression class `\s` matches.
   */
  predicate IsJsSpace(c: char) {
    c == '\t' || c == '\n' || c == '\U{B}' || c == '\U{C}' || c == '\r' || c == ' '
    || c == '\U{A0}' || c == '\U{1680}' || ('\U{2000}' <= c <= '\U{200A}')
    || c == '\U{2028}' || c == '\U{2029}' || c == '\U{202F}' || c == '\U{205F}'
    || c == '\U{3000}' || c == '\U{FEFF}'
  }

  /** Leading whitespace removed. */
  function TrimStart(s: string): (r: string)
    ensures |r| <= |s|
    ensures r == s[|s| - |r|..]
    ensures r == [] || !IsJsSpace(r[0])
    ensures forall i :: 0 <= i < |s| - |r| ==> IsJsSpace(s[i])
  {
    if s != [] && IsJsSpace(s[0]) then
      var r := TrimStart(s[1..]);
      assert s[1..][|s| - 1 - |r|..] == s[|s| - |r|..];
      assert forall i :: 1 <= i < |s| - |r| ==> s[i] == s[1..][i - 1];
      r
    else s
  }

  lemma TrimStartNoSpace(s: string)
    requires s == [] || !IsJsSpace(s[0])
    ensures TrimStart(s) == s
  {
  }

  /** Trailing whitespace removed. */
  function TrimEnd(s: string): (r: string)
    ensures |r| <= |s|
    ensures r == s[..|r|]
    ensures r == [] || !IsJsSpace(r[|r| - 1])
    ensures forall i :: |r| <= i < |s| ==> IsJsSpace(s[i])
  {
    if s != [] && IsJsSpace(s[|s| - 1]) then TrimEnd(s[..|s| - 1]) else s
  }

  /** `String.prototype.trim`. */
  function Trim(s: string): string {
    TrimEnd(TrimStart(s))
  }

  /** `!value` for a string that may be null: null or the empty string. */
  predicate Blank(value: Option<string>) {
    value.None? || value.value == ""
  }

  /** The decimal value of a two-digit string. */
  lemma TwoDigitsValue(s: string)
    requires |s| == 2 && AllDigits(s)
    ensures DigitsValue(s) == DigitValue(s[0]) * 10 + DigitValue(s[1])
  {
    assert s[..|s| - 1] == [s[0]] && [s[0]][..0] == [];
    assert DigitsValue(s[..1]) == DigitValue(s[0]);
  }

  predicate StartsWith(s: string, prefix: string) {
    |prefix| <= |s| && s[..|prefix|] == prefix
  }

  predicate EndsWith(s: string, suffix: string) {
    |suffix| <= |s| && s[|s| - |suffix|..] == suffix
  }

  /** `Array.prototype.join(sep)` over strings. */
  function Join(sep: string, xs: seq<string>): string {
    if xs == [] then [] else if |xs| == 1 then xs[0] else xs[0] + sep + Join(sep, xs[1..])
  }

  /** How often `c` occurs after a filter keeps (`head == [x]`) or drops (`head == []`) the front element `x`. */
  lemma CountCons<T>(x: T, head: seq<T>, rest: seq<T>, tail: seq<T>, result: seq<T>, whole: seq<T>, c: T)
    requires result == head + rest && whole == [x] + tail
    ensures multiset(result)[c] == multiset(head)[c] + multiset(rest)[c]
    ensures multiset(whole)[c] == (if x == c then 1 else 0) + multiset(tail)[c]
  {
    assert multiset(head + rest) == multiset(head) + multiset(rest);
    assert multiset([x] + tail) == multiset([x]) + multiset(tail);
  }
}
