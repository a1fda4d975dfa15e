/**
 The URL-safe alphabet of section 5 of RFC 4648: the encoder that pads to a
 multiple of four, and Python's lenient decoder, which skips characters outside
 the alphabet and stops at the padding.
 */
module Base64Url {
  import opened PyText
  import opened Utf8

  predicate IsUrlSafe(c: char) {
    'A' <= c <= 'Z' || 'a' <= c <= 'z' || '0' <= c <= '9' || c == '-' || c == '_'
  }

  function Char64(i: nat): (c: char)
    requires i < 64
    ensures IsUrlSafe(c)
  {
    if i < 26 then ('A' as int + i) as char
    else if i < 52 then ('a' as int + i - 26) as char
    else if i < 62 then ('0' as int + i - 52) as char
    else if i == 62 then '-' else '_'
  }

  /** The decoder also reads the standard characters 62 and 63. */
  function Value64(c: char): (v: Option<nat>)
    ensures v.Some? ==> v.value < 64
  {
    if 'A' <= c <= 'Z' then Some(c as int - 'A' as int)
    else if 'a' <= c <= 'z' then Some(c as int - 'a' as int + 26)
    else if '0' <= c <= '9' then Some(c as int - '0' as int + 52)
    else if c == '-' || c == '+' then Some(62)
    else if c == '_' || c == '/' then Some(63)
    else None
  }

  lemma Value64OfChar64(i: nat)
    requires i < 64
    ensures Value64(Char64(i)) == Some(i)
  {
  }

  /** The four six-bit groups of three bytes, missing ones taken as zero. */
  function Sextet(b: seq<Byte>, i: nat): (v: nat)
    requires |b| == 3 && i < 4
    ensures v < 64
  {
    match i
    case 0 => b[0] / 4
    case 1 => b[0] % 4 * 16 + b[1] / 16
    case 2 => b[1] % 16 * 4 + b[2] / 64
    case _ => b[2] % 64
  }

  function Two(b: seq<Byte>): string
    requires |b| == 3
  {
    [Char64(Sextet(b, 0)), Char64(Sextet(b, 1))]
  }

  function Three(b: seq<Byte>): string
    requires |b| == 3
  {
    Two(b) + [Char64(Sextet(b, 2))]
  }

  function Group(b: seq<Byte>): string
    requires |b| == 3
  {
    Three(b) + [Char64(Sextet(b, 3))]
  }

  /** `base64.urlsafe_b64encode` */
  function Encode64(b: seq<Byte>): string {
    if b == [] then ""
    else if |b| == 1 then Two([b[0], 0, 0]) + "=="
    else if |b| == 2 then Three([b[0], b[1], 0]) + "="
    else Group(b[..3]) + Encode64(b[3..])
  }

  /** `s.rstrip("=")` */
  function StripPadding(s: string): string {
    if s != "" && s[|s| - 1] == '=' then StripPadding(s[..|s| - 1]) else s
  }

  function Repeat(c: char, n: nat): string {
    seq(n, i => c)
  }

  /** Padding up to the next multiple of four. */
  function Pad(s: string): string {
    s + Repeat('=', (4 - |s| % 4) % 4)
  }

  /**
   `binascii.a2b_base64` in its default mode: `quad` characters of the current
   group are read, `left` holds their unused bits, `pads` counts padding seen.
   */
  function Scan64(s: string, quad: nat, left: nat, pads: nat): Option<seq<Byte>>
    requires quad < 4 && left < 64
    requires (quad == 2 ==> left < 16) && (quad == 3 ==> left < 4)
  {
    if s == "" then (if quad == 0 then Some([]) else None)
    else if s[0] == '=' then
      if quad < 2 then Scan64(s[1..], quad, left, pads)
      else if quad + pads + 1 >= 4 then Some([])
      else Scan64(s[1..], quad, left, pads + 1)
    else match Value64(s[0])
      case None => Scan64(s[1..], quad, left, pads)
      case Some(v) =>
        if quad == 0 then Scan64(s[1..], 1, v, 0)
        else if quad == 1 then Emit(left * 4 + v / 16, Scan64(s[1..], 2, v % 16, 0))
        else if quad == 2 then Emit(left * 16 + v / 4, Scan64(s[1..], 3, v % 4, 0))
        else Emit(left * 64 + v, Scan64(s[1..], 0, 0, 0))
  }

  function Emit(b: Byte, rest: Option<seq<Byte>>): Option<seq<Byte>> {
    match rest case None => None case Some(r) => Some([b] + r)
  }

  function Decode64(s: string): Option<seq<Byte>> {
    Scan64(s, 0, 0, 0)
  }

  lemma SextetsGiveBytes(b: seq<Byte>)
    requires |b| == 3
    ensures Sextet(b, 0) * 4 + Sextet(b, 1) / 16 == b[0]
    ensures Sextet(b, 1) % 16 * 16 + Sextet(b, 2) / 4 == b[1]
    ensures Sextet(b, 2) % 4 * 64 + Sextet(b, 3) == b[2]
  {
  }

  lemma Scan64Step(s: string, quad: nat, left: nat, v: nat, rest: string)
    requires quad < 4 && left < 64 && (quad == 2 ==> left < 16) && (quad == 3 ==> left < 4)
    requires v < 64 && s == [Char64(v)] + rest
    ensures Scan64(s, quad, left, 0) ==
            if quad == 0 then Scan64(rest, 1, v, 0)
            else if quad == 1 then Emit(left * 4 + v / 16, Scan64(rest, 2, v % 16, 0))
            else if quad == 2 then Emit(left * 16 + v / 4, Scan64(rest, 3, v % 4, 0))
            else Emit(left * 64 + v, Scan64(rest, 0, 0, 0))
  {
    Value64OfChar64(v);
    assert s[1..] == rest;
    hide Char64, Value64;
  }

  /** The first two characters of a group give its first byte. */
  lemma ScanTwo(b: seq<Byte>, rest: string)
    requires |b| == 3
    ensures Scan64(Two(b) + rest, 0, 0, 0) == Emit(b[0], Scan64(rest, 2, Sextet(b, 1) % 16, 0))
  {
    var tail := [Char64(Sextet(b, 1))] + rest;
    SextetsGiveBytes(b);
    assert Two(b) + rest == [Char64(Sextet(b, 0))] + tail;
    hide Sextet, Scan64, Char64;
    Scan64Step([Char64(Sextet(b, 0))] + tail, 0, 0, Sextet(b, 0), tail);
    Scan64Step(tail, 1, Sextet(b, 0), Sextet(b, 1), rest);
  }

  lemma ScanThree(b: seq<Byte>, rest: string)
    requires |b| == 3
    ensures Scan64(Three(b) + rest, 0, 0, 0) == Emit(b[0], Emit(b[1], Scan64(rest, 3, Sextet(b, 2) % 4, 0)))
  {
    var tail := [Char64(Sextet(b, 2))] + rest;
    SextetsGiveBytes(b);
    ScanTwo(b, tail);
    assert Three(b) + rest == Two(b) + tail;
    hide Sextet, Scan64, Char64;
    Scan64Step(tail, 2, Sextet(b, 1) % 16, Sextet(b, 2), rest);
  }

  lemma ScanGroup(b: seq<Byte>, rest: string)
    requires |b| == 3
    ensures Scan64(Group(b) + rest, 0, 0, 0) == Emit(b[0], Emit(b[1], Emit(b[2], Scan64(rest, 0, 0, 0))))
  {
    var tail := [Char64(Sextet(b, 3))] + rest;
    SextetsGiveBytes(b);
    ScanThree(b, tail);
    assert Group(b) + rest == Three(b) + tail;
    hide Sextet, Scan64, Char64;
    Scan64Step(tail, 3, Sextet(b, 2) % 4, Sextet(b, 3), rest);
  }

  /** Padding ends the text of a partial group. */
  lemma ScanPadding(left: nat)
    requires left < 16
    ensures Scan64("==", 2, left, 0) == Some([])
    ensures left < 4 ==> Scan64("=", 3, left, 0) == Some([])
  {
    assert "=="[1..] == "=";
  }

  lemma Rejoin(b: seq<Byte>)
    requires |b| >= 3
    ensures [b[0]] + ([b[1]] + ([b[2]] + b[3..])) == b
  {
  }

  /** Decoding inverts encoding, for every length modulo three. */
  lemma {:induction false} DecodeInvertsEncode(b: seq<Byte>)
    ensures Decode64(Encode64(b)) == Some(b)
  {
    if |b| == 1 {
      var full := [b[0], 0, 0];
      ScanTwo(full, "==");
      ScanPadding(Sextet(full, 1) % 16);
      hide Scan64, Sextet, Two;
      assert [b[0]] + [] == b;
    } else if |b| == 2 {
      var full := [b[0], b[1], 0];
      ScanThree(full, "=");
      ScanPadding(Sextet(full, 2) % 4);
      hide Scan64, Sextet, Three;
      assert [b[0]] + ([b[1]] + []) == b;
    } else if |b| > 2 {
      ScanGroup(b[..3], Encode64(b[3..]));
      DecodeInvertsEncode(b[3..]);
      assert Encode64(b) == Group(b[..3]) + Encode64(b[3..]);
      Rejoin(b);
      hide Scan64, Group, Encode64;
    }
  }

  /** Text a cookie can carry: no padding, no separator, only ASCII. */
  predicate IsPlain(s: string) {
    forall i :: 0 <= i < |s| ==> IsUrlSafe(s[i])
  }

  function PaddingOf(length: nat): (n: nat)
    ensures n < 3
  {
    (3 - length % 3) % 3
  }

  /** The encoder's output is plain text followed by at most two '='. */
  lemma {:induction false} EncodeShape(b: seq<Byte>) returns (text: string)
    ensures Encode64(b) == text + Repeat('=', PaddingOf(|b|)) && IsPlain(text) && (|text| + PaddingOf(|b|)) % 4 == 0
  {
    if |b| < 3 {
      text := ShortShape(b);
    } else {
      var rest := EncodeShape(b[3..]);
      text := Group(b[..3]) + rest;
      PlainGroup(b[..3]);
      PaddingRepeats(|b|, |rest|);
      assert Encode64(b) == Group(b[..3]) + Encode64(b[3..]);
      hide Group, PaddingOf, Encode64;
    }
  }

  lemma PaddingRepeats(n: nat, length: nat)
    requires n >= 3 && (length + PaddingOf(n - 3)) % 4 == 0
    ensures PaddingOf(n) == PaddingOf(n - 3) && (4 + length + PaddingOf(n)) % 4 == 0
  {
  }

  lemma ShortShape(b: seq<Byte>) returns (text: string)
    requires |b| < 3
    ensures Encode64(b) == text + Repeat('=', PaddingOf(|b|)) && IsPlain(text) && (|text| + PaddingOf(|b|)) % 4 == 0
  {
    if |b| == 0 {
      text := "";
    } else if |b| == 1 {
      text := Two([b[0], 0, 0]);
      assert Repeat('=', 2) == "==";
    } else {
      text := Three([b[0], b[1], 0]);
      assert Repeat('=', 1) == "=";
    }
    hide Sextet;
  }

  lemma PlainGroup(b: seq<Byte>)
    requires |b| == 3
    ensures IsPlain(Group(b)) && |Group(b)| == 4
  {
  }

  lemma {:induction false} StripPaddingIs(text: string, n: nat)
    requires '=' !in text
    ensures StripPadding(text + Repeat('=', n)) == text
  {
    var s := text + Repeat('=', n);
    if n == 0 {
      assert s == text;
    } else {
      assert s[..|s| - 1] == text + Repeat('=', n - 1);
      StripPaddingIs(text, n - 1);
    }
  }

  lemma PaddingFits(length: nat, n: nat)
    requires n < 3 && (length + n) % 4 == 0
    ensures (4 - length % 4) % 4 == n
  {
  }

  /** Stripping the padding and putting it back gives the encoder's output again. */
  lemma PaddingRestored(b: seq<Byte>)
    ensures Pad(StripPadding(Encode64(b))) == Encode64(b)
    ensures IsPlain(StripPadding(Encode64(b)))
  {
    var text := EncodeShape(b);
    var n := PaddingOf(|b|);
    assert '=' !in text;
    PaddingFits(|text|, n);
    hide Encode64, PaddingOf;
    StripPaddingIs(text, n);
  }

  /** The decoder skips what belongs to neither alphabet, the padding aside. */
  lemma {:induction false} NoiseSkipped(a: string, c: char, b: string, quad: nat, left: nat, pads: nat)
    requires !IsUrlSafe(c) && c !in ['+', '/', '=']
    requires quad < 4 && left < 64 && (quad == 2 ==> left < 16) && (quad == 3 ==> left < 4)
    ensures Scan64(a + [c] + b, quad, left, pads) == Scan64(a + b, quad, left, pads)
  {
    hide Emit;
    if a == "" {
      assert a + [c] + b == [c] + b && ([c] + b)[1..] == b && a + b == b;
    } else {
      var rest := a[1..];
      assert (a + [c] + b)[0] == a[0] == (a + b)[0];
      assert (a + [c] + b)[1..] == rest + [c] + b && (a + b)[1..] == rest + b;
      if a[0] == '=' {
        NoiseSkipped(rest, c, b, quad, left, pads);
        if quad >= 2 && quad + pads + 1 < 4 { NoiseSkipped(rest, c, b, quad, left, pads + 1); }
      } else {
        match Value64(a[0])
        case None => NoiseSkipped(rest, c, b, quad, left, pads);
        case Some(v) =>
          if quad == 0 { NoiseSkipped(rest, c, b, 1, v, 0); }
          else if quad == 1 { NoiseSkipped(rest, c, b, 2, v % 16, 0); }
          else if quad == 2 { NoiseSkipped(rest, c, b, 3, v % 4, 0); }
          else { NoiseSkipped(rest, c, b, 0, 0, 0); }
      }
    }
  }
}
