/**
 The Python text operations the modelled code relies on: decimal printing,
 `int(...)` on a string, `strip`, `lower`, prefix and suffix tests and
 splitting at a separator.
 */
module PyText {

  datatype Option<+T> = None | Some(value: T)

  predicate IsDigit(c: char) {
    '0' <= c <= '9'
  }

  predicate AllDigits(s: string) {
    forall i :: 0 <= i < |s| ==> IsDigit(s[i])
  }

  function DigitChar(d: nat): (c: char)
    requires d < 10
    ensures IsDigit(c)
  {
    ('0' as int + d) as char
  }

  function DigitValue(c: char): (d: nat)
    requires IsDigit(c)
    ensures d < 10
  {
    c as int - '0' as int
  }

  /** `str(n)` for a non-negative integer. */
  function Decimal(n: nat): (s: string)
    ensures s != "" && AllDigits(s)
  {
    if n < 10 then [DigitChar(n)] else Decimal(n / 10) + [DigitChar(n % 10)]
  }

  /** The number a run of digits denotes, leading zeros allowed. */
  function DigitsValue(s: string): nat
    requires AllDigits(s)
  {
    if s == "" then 0
    else
      assert IsDigit(s[|s| - 1]);
      10 * DigitsValue(s[..|s| - 1]) + DigitValue(s[|s| - 1])
  }

  lemma {:induction false} DecimalRoundTrip(n: nat)
    ensures DigitsValue(Decimal(n)) == n
  {
    if n < 10 {
      assert Decimal(n)[..0] == "";
    } else {
      DecimalRoundTrip(n / 10);
      assert Decimal(n)[..|Decimal(n)| - 1] == Decimal(n / 10);
    }
  }

  lemma DecimalInjective(m: nat, n: nat)
    requires Decimal(m) == Decimal(n)
    ensures m == n
  {
    DecimalRoundTrip(m);
    DecimalRoundTrip(n);
  }

  lemma {:induction false} DecimalLengthMonotone(m: nat, n: nat)
    requires m <= n
    ensures |Decimal(m)| <= |Decimal(n)|
  {
    if m >= 10 {
      DecimalLengthMonotone(m / 10, n / 10);
    }
  }

  /** Python's `str.isspace` characters, which `strip` and `int` remove. */
  predicate IsSpace(c: char) {
    '\U{9}' <= c <= '\U{d}' || '\U{1c}' <= c <= ' ' || c == '\U{85}' || c == '\U{a0}' || c == '\U{1680}' ||
    '\U{2000}' <= c <= '\U{200a}' || c == '\U{2028}' || c == '\U{2029}' || c == '\U{202f}' || c == '\U{205f}' ||
    c == '\U{3000}'
  }

  function StripLeft(s: string): string {
    if s != "" && IsSpace(s[0]) then StripLeft(s[1..]) else s
  }

  function StripRight(s: string): string {
    if s != "" && IsSpace(s[|s| - 1]) then StripRight(s[..|s| - 1]) else s
  }

  /** `s.strip()` */
  function Strip(s: string): string {
    StripRight(StripLeft(s))
  }

  lemma StripNothing(s: string)
    requires s != "" ==> !IsSpace(s[0]) && !IsSpace(s[|s| - 1])
    ensures Strip(s) == s
  {
  }

  /** `s.lower()` on the ASCII letters; other characters are kept. */
  function LowerChar(c: char): char {
    if 'A' <= c <= 'Z' then (c as int + 32) as char else c
  }

  function Lower(s: string): (r: string)
    ensures |r| == |s|
  {
    seq(|s|, i requires 0 <= i < |s| => LowerChar(s[i]))
  }

  /** `s.startswith(p)` */
  predicate StartsWith(s: string, p: string) {
    p <= s
  }

  /** `s.endswith(p)` */
  predicate EndsWith(s: string, p: string) {
    |p| <= |s| && s[|s| - |p|..] == p
  }

  /** The index of the first `c` in `s`, or `|s|` when there is none. */
  function FirstIndex(s: string, c: char): (i: nat)
    ensures i <= |s|
    ensures i < |s| ==> s[i] == c
    ensures forall j :: 0 <= j < i ==> s[j] != c
  {
    if s == "" || s[0] == c then 0 else 1 + FirstIndex(s[1..], c)
  }

  /** `s.rsplit(c, 1)`: the parts before and after the last `c`. */
  function SplitLast(s: string, c: char): Option<(string, string)> {
    if s == "" then None
    else if s[|s| - 1] == c then Some((s[..|s| - 1], ""))
    else match SplitLast(s[..|s| - 1], c)
      case None => None
      case Some((head, tail)) => Some((head, tail + [s[|s| - 1]]))
  }

  lemma {:induction false} SplitLastAt(head: string, c: char, tail: string)
    requires c !in tail
    ensures SplitLast(head + [c] + tail, c) == Some((head, tail))
  {
    var s := head + [c] + tail;
    if tail == "" {
      assert s[..|s| - 1] == head;
    } else {
      var front := tail[..|tail| - 1];
      assert s[..|s| - 1] == head + [c] + front;
      assert tail == front + [tail[|tail| - 1]];
      SplitLastAt(head, c, front);
    }
  }

  lemma {:induction false} SplitLastJoins(s: string, c: char)
    ensures SplitLast(s, c).None? <==> c !in s
    ensures SplitLast(s, c).Some? ==>
              var (head, tail) := SplitLast(s, c).value;
              s == head + [c] + tail && c !in tail
  {
    if s != "" {
      assert s == s[..|s| - 1] + [s[|s| - 1]];
      SplitLastJoins(s[..|s| - 1], c);
    }
  }

  /** Digits with single underscores between them, as `int` accepts. */
  predicate IsIntBody(s: string) {
    && s != "" && IsDigit(s[0]) && IsDigit(s[|s| - 1])
    && (forall i :: 0 <= i < |s| ==> IsDigit(s[i]) || s[i] == '_')
    && (forall i :: 0 <= i < |s| - 1 ==> !(s[i] == '_' && s[i + 1] == '_'))
  }

  function WithoutUnderscores(s: string): (r: string)
    requires forall i :: 0 <= i < |s| ==> IsDigit(s[i]) || s[i] == '_'
    ensures AllDigits(r)
    ensures AllDigits(s) ==> r == s
  {
    if s == "" then ""
    else if s[0] == '_' then WithoutUnderscores(s[1..])
    else [s[0]] + WithoutUnderscores(s[1..])
  }

  /** `int(s)`; None is the ValueError. */
  function ParseInt(s: string): Option<int> {
    var t := Strip(s);
    var body := if t != "" && (t[0] == '+' || t[0] == '-') then t[1..] else t;
    if !IsIntBody(body) then None
    else
      var n: int := DigitsValue(WithoutUnderscores(body));
      Some(if t[0] == '-' then -n else n)
  }

  lemma ParseIntOfDigits(s: string)
    requires s != "" && AllDigits(s)
    ensures ParseInt(s) == Some(DigitsValue(s))
  {
    StripNothing(s);
  }

  /** `int(str(n)) == n` */
  lemma ParseIntOfDecimal(n: nat)
    ensures ParseInt(Decimal(n)) == Some(n)
  {
    ParseIntOfDigits(Decimal(n));
    DecimalRoundTrip(n);
  }

  /** `strip` takes off spaces at both ends and nothing else. */
  lemma StripTrims(s: string) returns (left: string, right: string)
    ensures s == left + Strip(s) + right
    ensures forall i :: 0 <= i < |left| ==> IsSpace(left[i])
    ensures forall i :: 0 <= i < |right| ==> IsSpace(right[i])
    ensures Strip(s) != "" ==> !IsSpace(Strip(s)[0]) && !IsSpace(Strip(s)[|Strip(s)| - 1])
  {
    left := StripLeftTrims(s);
    right := StripRightTrims(StripLeft(s));
  }

  lemma {:induction false} StripLeftTrims(s: string) returns (left: string)
    ensures s == left + StripLeft(s) && (forall i :: 0 <= i < |left| ==> IsSpace(left[i]))
    ensures StripLeft(s) != "" ==> !IsSpace(StripLeft(s)[0])
  {
    if s != "" && IsSpace(s[0]) {
      left := StripLeftTrims(s[1..]);
      left := [s[0]] + left;
    } else {
      left := "";
    }
  }

  lemma {:induction false} StripRightTrims(s: string) returns (right: string)
    ensures s == StripRight(s) + right && (forall i :: 0 <= i < |right| ==> IsSpace(right[i]))
    ensures StripRight(s) != "" ==> s != "" && StripRight(s)[0] == s[0] && !IsSpace(StripRight(s)[|StripRight(s)| - 1])
  {
    if s != "" && IsSpace(s[|s| - 1]) {
      right := StripRightTrims(s[..|s| - 1]);
      right := right + [s[|s| - 1]];
    } else {
      right := "";
    }
  }

  /** `int` reads a sign and digits. */
  lemma ParseIntSigned(sign: char, d: string)
    requires (sign == '+' || sign == '-') && d != "" && AllDigits(d)
    ensures ParseInt([sign] + d) == Some(if sign == '-' then -(DigitsValue(d) as int) else DigitsValue(d))
  {
    hide Strip, DigitsValue, IsIntBody, WithoutUnderscores;
    var s := [sign] + d;
    assert s[1..] == d && s[0] == sign && s[|s| - 1] == d[|d| - 1];
    StripNothing(s);
    DigitsAreIntBody(d);
  }

  lemma DigitsAreIntBody(d: string)
    requires d != "" && AllDigits(d)
    ensures IsIntBody(d) && WithoutUnderscores(d) == d
  {
  }

  /** It refuses text without a digit, and text with a character it has no use for. */
  lemma ParseIntRefuses(s: string)
    requires (forall i :: 0 <= i < |s| ==> !IsDigit(s[i])) ||
             (exists i :: 0 <= i < |s| && !IsDigit(s[i]) && !IsSpace(s[i]) && s[i] !in ['_', '+', '-'])
    ensures ParseInt(s) == None
  {
    hide Strip;
    var left, right := StripTrims(s);
    var t := Strip(s);
    assert forall i :: 0 <= i < |t| ==> t[i] == s[|left| + i];
    if i :| 0 <= i < |s| && !IsDigit(s[i]) && !IsSpace(s[i]) && s[i] !in ['_', '+', '-'] {
      CharInMiddle(s, left, t, right, i);
    }
  }

  lemma CharInMiddle(s: string, left: string, t: string, right: string, i: nat)
    requires s == left + t + right && i < |s| && !IsSpace(s[i])
    requires (forall k :: 0 <= k < |left| ==> IsSpace(left[k])) && (forall k :: 0 <= k < |right| ==> IsSpace(right[k]))
    ensures |left| <= i < |left| + |t| && t[i - |left|] == s[i]
  {
    assert forall k :: 0 <= k < |left| ==> s[k] == left[k];
    assert forall k :: 0 <= k < |right| ==> s[|left| + |t| + k] == right[k];
    assert forall k :: |left| + |t| <= k < |s| ==> s[k] == right[k - |left| - |t|];
  }
}
