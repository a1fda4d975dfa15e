/** Strict UTF-8, as `str.encode` and `bytes.decode` implement it. */
module Utf8 {
  import opened PyText

  type Byte = b: nat | b < 256

  function EncodeChar(c: char): (bytes: seq<Byte>)
    ensures 1 <= |bytes| <= 4
  {
    var n := c as int;
    if n < 0x80 then [n]
    else if n < 0x800 then [0xC0 + n / 64, 0x80 + n % 64]
    else if n < 0x10000 then [0xE0 + n / 4096, 0x80 + n / 64 % 64, 0x80 + n % 64]
    else [0xF0 + n / 262144, 0x80 + n / 4096 % 64, 0x80 + n / 64 % 64, 0x80 + n % 64]
  }

  function Encode(s: string): seq<Byte> {
    if s == "" then [] else EncodeChar(s[0]) + Encode(s[1..])
  }

  predicate IsContinuation(b: Byte) {
    0x80 <= b < 0xC0
  }

  /** The first code point and its length in bytes; overlong forms and surrogates are errors. */
  function DecodeFirst(b: seq<Byte>): (r: Option<(char, nat)>)
    requires b != []
    ensures r.Some? ==> 1 <= r.value.1 <= |b|
  {
    if b[0] < 0x80 then Some((b[0] as char, 1))
    else if b[0] < 0xE0 then
      if |b| < 2 || !IsContinuation(b[1]) || b[0] < 0xC2 then None
      else
        var n: nat := (b[0] as int - 0xC0) * 64 + (b[1] as int - 0x80);
        Some((n as char, 2))
    else if b[0] < 0xF0 then
      if |b| < 3 || !IsContinuation(b[1]) || !IsContinuation(b[2]) then None
      else
        var n: nat := (b[0] as int - 0xE0) * 4096 + (b[1] as int - 0x80) * 64 + (b[2] as int - 0x80);
        if n < 0x800 || 0xD800 <= n < 0xE000 then None else Some((n as char, 3))
    else
      if |b| < 4 || !IsContinuation(b[1]) || !IsContinuation(b[2]) || !IsContinuation(b[3]) then None
      else
        var n: nat := (b[0] as int - 0xF0) * 262144 + (b[1] as int - 0x80) * 4096 + (b[2] as int - 0x80) * 64 +
                      (b[3] as int - 0x80);
        if n < 0x10000 || n >= 0x110000 then None else Some((n as char, 4))
  }

  function Decode(b: seq<Byte>): Option<string> {
    if b == [] then Some("")
    else match DecodeFirst(b)
      case None => None
      case Some((c, n)) => match Decode(b[n..]) case None => None case Some(r) => Some([c] + r)
  }

  lemma Digits64(n: nat)
    ensures n == n / 64 * 64 + n % 64
    ensures n / 64 == n / 4096 * 64 + n / 64 % 64
    ensures n / 4096 == n / 262144 * 64 + n / 4096 % 64
  {
  }

  lemma DecodeFirstOfChar(c: char, rest: seq<Byte>)
    ensures DecodeFirst(EncodeChar(c) + rest) == Some((c, |EncodeChar(c)|))
  {
    Digits64(c as int);
  }

  lemma {:induction false} RoundTrip(s: string)
    ensures Decode(Encode(s)) == Some(s)
  {
    if s != "" {
      DecodeFirstOfChar(s[0], Encode(s[1..]));
      assert Encode(s)[|EncodeChar(s[0])|..] == Encode(s[1..]);
      RoundTrip(s[1..]);
      assert s == [s[0]] + s[1..];
    }
  }

  /** Parts below 64 are the digits of the number they make. */
  lemma DigitsOf(x: nat, y: nat)
    requires y < 64
    ensures (x * 64 + y) / 64 == x && (x * 64 + y) % 64 == y
  {
  }

  lemma DigitsOfThree(x: nat, y: nat, z: nat)
    requires y < 64 && z < 64
    ensures var n := x * 4096 + y * 64 + z; n / 4096 == x && n / 64 % 64 == y && n % 64 == z
  {
    DigitsOf(x * 64 + y, z);
    DigitsOf(x, y);
    Digits64(x * 4096 + y * 64 + z);
  }

  lemma DigitsOfFour(w: nat, x: nat, y: nat, z: nat)
    requires x < 64 && y < 64 && z < 64
    ensures var n := w * 262144 + x * 4096 + y * 64 + z;
            n / 262144 == w && n / 4096 % 64 == x && n / 64 % 64 == y && n % 64 == z
  {
    DigitsOfThree(w * 64 + x, y, z);
    DigitsOf(w, x);
    Digits64(w * 262144 + x * 4096 + y * 64 + z);
  }

  lemma FirstIsCanonical(b: seq<Byte>)
    requires b != [] && DecodeFirst(b).Some?
    ensures var (c, n) := DecodeFirst(b).value; b[..n] == EncodeChar(c)
  {
    if 0xC2 <= b[0] < 0xE0 {
      DigitsOf(b[0] - 0xC0, b[1] - 0x80);
    } else if 0xE0 <= b[0] < 0xF0 {
      DigitsOfThree(b[0] - 0xE0, b[1] - 0x80, b[2] - 0x80);
    } else if 0xF0 <= b[0] {
      DigitsOfFour(b[0] - 0xF0, b[1] - 0x80, b[2] - 0x80, b[3] - 0x80);
    }
  }

  /** Decoding is strict: bytes that decode are the encoding of what they decode to. */
  lemma {:induction false} DecodedIsCanonical(b: seq<Byte>)
    requires Decode(b).Some?
    ensures Encode(Decode(b).value) == b
  {
    hide DecodeFirst, EncodeChar;
    if b != [] {
      var (c, n) := DecodeFirst(b).value;
      FirstIsCanonical(b);
      DecodedIsCanonical(b[n..]);
      var r := Decode(b[n..]).value;
      assert ([c] + r)[0] == c && ([c] + r)[1..] == r;
      assert b == b[..n] + b[n..];
    }
  }
}
