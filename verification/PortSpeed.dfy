/**
 The two CASE expressions that turn a port speed text into Mbps and back, in the
 semantics of the SQL dialect: `/` on integers is decimal division with four
 fraction digits, and CAST reads the leading digits.
 */
module PortSpeed {
  import opened PyText

  /** What the INTEGER column can hold. */
  const MAX_INT := 2147483647
  const MAX_UNSIGNED := 18446744073709551615

  type Mbps = n: nat | n <= MAX_INT

  /** `REPLACE(s, w, '')` */
  function Without(s: string, w: string): string
    requires w != ""
  {
    if s == "" then ""
    else if w <= s then Without(s[|w|..], w)
    else [s[0]] + Without(s[1..], w)
  }

  function LeadingDigits(s: string): (r: string)
    ensures AllDigits(r) && r <= s
  {
    if s != "" && IsDigit(s[0]) then [s[0]] + LeadingDigits(s[1..]) else ""
  }

  /** `CAST(s AS UNSIGNED)`: spaces, a sign, then the leading digits; saturating, negatives wrapped. */
  function CastUnsigned(s: string): nat {
    var t := StripLeft(s);
    var signed := t != "" && (t[0] == '-' || t[0] == '+');
    var v := DigitsValue(LeadingDigits(if signed then t[1..] else t));
    var bounded := if v <= MAX_UNSIGNED then v else MAX_UNSIGNED;
    if signed && t[0] == '-' && bounded > 0 then MAX_UNSIGNED + 1 - bounded else bounded
  }

  /** The upgrade; None is NULL. LIKE ignores letter case, REPLACE does not. */
  function ParseSpeed(text: Option<string>): Option<nat> {
    if text.None? || text.value == "" then None
    else
      var s := text.value;
      if EndsWith(Lower(s), "gbps") then Some(CastUnsigned(Without(s, "Gbps")) * 1000)
      else if EndsWith(Lower(s), "mbps") then Some(CastUnsigned(Without(s, "Mbps")))
      else if AllDigits(s) then Some(CastUnsigned(s))
      else None
  }

  /** `n / 1000` as text, for a multiple of 1000. */
  function ThousandthText(n: nat): string {
    Decimal(n / 1000) + ".0000"
  }

  /** The downgrade. */
  function PrintSpeed(n: Mbps): string {
    if n >= 1000 && n % 1000 == 0 then ThousandthText(n) + "Gbps" else Decimal(n) + "Mbps"
  }

  lemma {:induction false} LeadingDigitsOf(d: string, rest: string)
    requires AllDigits(d) && (rest == "" || !IsDigit(rest[0]))
    ensures LeadingDigits(d + rest) == d
  {
    if d == "" {
      assert d + rest == rest;
    } else {
      assert (d + rest)[1..] == d[1..] + rest;
      LeadingDigitsOf(d[1..], rest);
      assert d == [d[0]] + d[1..];
    }
  }

  lemma CastOfDecimal(n: nat, rest: string)
    requires n <= MAX_UNSIGNED && (rest == "" || !IsDigit(rest[0]))
    ensures CastUnsigned(Decimal(n) + rest) == n
  {
    var s := Decimal(n) + rest;
    assert IsDigit(s[0]);
    assert StripLeft(s) == s;
    LeadingDigitsOf(Decimal(n), rest);
    DecimalRoundTrip(n);
  }

  /** A sign is read; a negative number wraps around as the cast to unsigned does. */
  lemma CastOfSigned(sign: char, n: nat)
    requires (sign == '+' || sign == '-') && 0 < n <= MAX_UNSIGNED
    ensures CastUnsigned([sign] + Decimal(n)) == if sign == '-' then 18446744073709551616 - n else n
    ensures CastsCleanly([sign] + Decimal(n))
  {
    var (d, s) := (Decimal(n), [sign] + Decimal(n));
    assert s[1..] == d && StripLeft(s) == s && d + "" == d;
    LeadingDigitsOf(d, "");
    DecimalRoundTrip(n);
    assert d[|d|..] == "";
  }

  lemma {:induction false} WithoutCleanPrefix(d: string, w: string)
    requires w != "" && w[0] !in d
    ensures Without(d + w, w) == d
  {
    if d == "" {
      assert d + w == w && w[|w|..] == "";
    } else {
      assert (d + w)[0] == d[0] && (d + w)[1..] == d[1..] + w;
      WithoutCleanPrefix(d[1..], w);
      assert d == [d[0]] + d[1..];
    }
  }

  lemma UnitSuffix(d: string, w: string, low: string)
    requires |w| == |low| && Lower(w) == low
    ensures EndsWith(Lower(d + w), low)
  {
    var s := Lower(d + w);
    assert s[|s| - |low|..] == low by {
      forall i | 0 <= i < |low| ensures s[|d| + i] == low[i] {
        assert (d + w)[|d| + i] == w[i] && Lower(w)[i] == LowerChar(w[i]);
      }
    }
  }

  lemma NotGbps(d: string)
    ensures !EndsWith(Lower(d + "Mbps"), "gbps")
  {
    var s := Lower(d + "Mbps");
    assert s[|d|] == LowerChar('M');
  }

  /** A number with or without fraction before its unit is read back. */
  lemma ParseOfGbps(k: nat, fraction: string)
    requires k <= MAX_UNSIGNED && (fraction == "" || fraction == ".0000")
    ensures ParseSpeed(Some(Decimal(k) + fraction + "Gbps")) == Some(k * 1000)
  {
    var d := Decimal(k) + fraction;
    assert 'G' !in d;
    UnitSuffix(d, "Gbps", "gbps");
    WithoutCleanPrefix(d, "Gbps");
    CastOfDecimal(k, fraction);
  }

  lemma ParseOfMbps(n: nat)
    requires n <= MAX_UNSIGNED
    ensures ParseSpeed(Some(Decimal(n) + "Mbps")) == Some(n)
  {
    assert 'M' !in Decimal(n);
    UnitSuffix(Decimal(n), "Mbps", "mbps");
    NotGbps(Decimal(n));
    WithoutCleanPrefix(Decimal(n), "Mbps");
    assert Decimal(n) + "" == Decimal(n);
    CastOfDecimal(n, "");
  }

  /** Downgrading and upgrading again gives every speed back. */
  lemma SpeedRoundTrip(n: Mbps)
    ensures ParseSpeed(Some(PrintSpeed(n))) == Some(n)
  {
    hide ParseSpeed, Decimal;
    if n >= 1000 && n % 1000 == 0 {
      ParseOfGbps(n / 1000, ".0000");
    } else {
      ParseOfMbps(n);
    }
  }

  /** So no two speeds share a text. */
  lemma PrintInjective(m: Mbps, n: Mbps)
    requires PrintSpeed(m) == PrintSpeed(n)
    ensures m == n
  {
    SpeedRoundTrip(m);
    SpeedRoundTrip(n);
  }

  /** No whole number of gigabits prints in the short form: 1000 becomes "1.0000Gbps", not "1Gbps". */
  lemma GigabitsPrintLong(k: nat)
    requires 1 <= k && 1000 * k <= MAX_INT
    ensures PrintSpeed(1000 * k) == Decimal(k) + ".0000Gbps" != Decimal(k) + "Gbps"
  {
    hide Decimal;
    assert 1000 * k / 1000 == k;
    var (long, short) := (Decimal(k) + ".0000Gbps", Decimal(k) + "Gbps");
    assert |long| == |Decimal(k)| + 9 && |short| == |Decimal(k)| + 4;
  }

  // ----- the same upgrade in strict SQL mode -----

  /** In strict mode an UPDATE fails where a cast would warn: no digits, or text left behind them. */
  predicate CastsCleanly(s: string) {
    var t := StripLeft(s);
    var unsigned := if t != "" && (t[0] == '-' || t[0] == '+') then t[1..] else t;
    var digits := LeadingDigits(unsigned);
    digits != "" && StripRight(unsigned[|digits|..]) == ""
  }

  datatype Strict = Fails | Stored(speed: Option<nat>)

  function CastStrict(s: string): Strict {
    if CastsCleanly(s) then Stored(Some(CastUnsigned(s))) else Fails
  }

  function ParseStrict(text: Option<string>): Strict {
    if text.None? || text.value == "" then Stored(None)
    else
      var s := text.value;
      if EndsWith(Lower(s), "gbps") then
        match CastStrict(Without(s, "Gbps"))
        case Fails => Fails
        case Stored(v) => Stored(if v.Some? then Some(v.value * 1000) else None)
      else if EndsWith(Lower(s), "mbps") then CastStrict(Without(s, "Mbps"))
      else if AllDigits(s) then CastStrict(s)
      else Stored(None)
  }

  /** Where strict mode does not fail it stores what the other mode stores. */
  lemma StrictAgrees(text: Option<string>)
    requires ParseStrict(text).Stored?
    ensures ParseStrict(text).speed == ParseSpeed(text)
  {
    hide CastUnsigned, CastsCleanly, Without, Lower;
  }

  predicate WholeGigabits(n: nat) {
    n >= 1000 && n % 1000 == 0
  }

  lemma CleanDecimal(n: nat, rest: string)
    requires rest == "" || rest[0] == '.'
    ensures CastsCleanly(Decimal(n) + rest) <==> rest == ""
  {
    var s := Decimal(n) + rest;
    assert IsDigit(s[0]);
    assert StripLeft(s) == s;
    LeadingDigitsOf(Decimal(n), rest);
    assert s[|Decimal(n)|..] == rest;
    if rest != "" { StripRightKeeps(rest); }
  }

  lemma {:induction false} StripRightKeeps(s: string)
    requires s != "" && !IsSpace(s[0])
    ensures StripRight(s) != ""
  {
    if |s| > 1 && IsSpace(s[|s| - 1]) { StripRightKeeps(s[..|s| - 1]); }
  }

  /** In strict mode a speed survives the round trip exactly when it is no whole number of gigabits. */
  lemma StrictRoundTripIff(n: Mbps)
    ensures ParseStrict(Some(PrintSpeed(n))) == if WholeGigabits(n) then Fails else Stored(Some(n))
  {
    hide Decimal, CastUnsigned, CastsCleanly, ParseSpeed;
    var d := Decimal(if WholeGigabits(n) then n / 1000 else n);
    if WholeGigabits(n) {
      UnitSuffix(d + ".0000", "Gbps", "gbps");
      WithoutCleanPrefix(d + ".0000", "Gbps");
      CleanDecimal(n / 1000, ".0000");
    } else {
      UnitSuffix(d, "Mbps", "mbps");
      NotGbps(d);
      WithoutCleanPrefix(d, "Mbps");
      assert d + "" == d;
      CleanDecimal(n, "");
      SpeedRoundTrip(n);
      StrictAgrees(Some(PrintSpeed(n)));
    }
  }

  function PrintAll(speeds: seq<Mbps>): seq<Option<string>> {
    if speeds == [] then [] else [Some(PrintSpeed(speeds[0]))] + PrintAll(speeds[1..])
  }

  /** The UPDATE over the whole table: one failing row fails it. */
  function UpgradeStrict(texts: seq<Option<string>>): Option<seq<Option<nat>>> {
    if texts == [] then Some([])
    else match (ParseStrict(texts[0]), UpgradeStrict(texts[1..]))
      case (Stored(v), Some(rest)) => Some([v] + rest)
      case _ => None
  }

  /** In strict mode downgrading a table and upgrading it again succeeds unless some speed is whole gigabits. */
  lemma {:induction false} StrictTableRoundTripIff(speeds: seq<Mbps>)
    ensures var again := UpgradeStrict(PrintAll(speeds));
            && (again.Some? <==> forall i :: 0 <= i < |speeds| ==> !WholeGigabits(speeds[i]))
            && (again.Some? ==> |again.value| == |speeds| &&
                                forall i :: 0 <= i < |speeds| ==> again.value[i] == Some(speeds[i]))
  {
    hide ParseStrict, PrintSpeed, WholeGigabits;
    if speeds != [] {
      var rest := speeds[1..];
      StrictTableRoundTripIff(rest);
      StrictRoundTripIff(speeds[0]);
      assert PrintAll(speeds)[1..] == PrintAll(rest);
      assert forall i :: 0 < i < |speeds| ==> speeds[i] == rest[i - 1];
      assert forall i :: 0 <= i < |rest| ==> rest[i] == speeds[i + 1];
    }
  }

  /** Plain digits are taken as Mbps. */
  lemma ParseOfDigits(n: nat)
    requires n <= MAX_UNSIGNED
    ensures ParseSpeed(Some(Decimal(n))) == Some(n)
  {
    hide CastUnsigned, Decimal;
    var d := Decimal(n);
    DigitIsNoUnit(d);
    assert d + "" == d;
    CastOfDecimal(n, "");
  }

  lemma DigitIsNoUnit(d: string)
    requires d != "" && IsDigit(d[|d| - 1])
    ensures !EndsWith(Lower(d), "gbps") && !EndsWith(Lower(d), "mbps")
  {
    var s := Lower(d);
    assert s[|d| - 1] == LowerChar(d[|d| - 1]);
    if |d| >= 4 { assert s[|d| - 4..][3] == s[|d| - 1]; }
  }

  /** A text without unit that is no number becomes NULL, and an empty one stays out. */
  lemma ParseOfOther(text: string)
    requires !EndsWith(Lower(text), "gbps") && !EndsWith(Lower(text), "mbps")
    requires exists i :: 0 <= i < |text| && !('0' <= text[i] <= '9')
    ensures ParseSpeed(Some(text)) == None
    ensures ParseSpeed(Some("")) == None && ParseSpeed(None) == None
  {
    var i :| 0 <= i < |text| && !('0' <= text[i] <= '9');
    assert !IsDigit(text[i]);
    hide CastUnsigned, Without, Lower;
  }
}
