/**
 The Range header of the media runner: its parser, the slice it selects and the
 response, against the selection that section 14.1.2 of RFC 9110 defines.
 */
module ByteRange {
  import opened PyText

  type Byte = b: nat | b < 256

  const UNIT := "bytes="

  /** The text after `bytes=`; None is a 416. */
  function SpecOf(header: string): Option<string> {
    if !StartsWith(Lower(header), UNIT) then None
    else
      var eq := FirstIndex(header, '=');
      var spec := Strip(if eq < |header| then header[eq + 1..] else "");
      if ',' in spec then None else Some(spec)
  }

  /** The numbers on both sides of the first dash; None is a 416. */
  function ParseSpec(spec: string, size: nat): (r: Option<(nat, nat)>)
    ensures r.Some? ==> r.value.0 <= r.value.1 < size
  {
    var dash := FirstIndex(spec, '-');
    var startText := spec[..dash];
    var endText := if dash < |spec| then spec[dash + 1..] else "";
    if startText == "" then
      match ParseInt(endText)
      case None => None
      case Some(suffix) => Checked(if size - suffix > 0 then size - suffix else 0, size - 1, size)
    else
      match ParseInt(startText)
      case None => None
      case Some(start) =>
        if endText == "" then Checked(start, size - 1, size)
        else match ParseInt(endText)
          case None => None
          case Some(end) => Checked(start, end, size)
  }

  function ParseByteRange(header: string, size: nat): (r: Option<(nat, nat)>)
    ensures r.Some? ==> r.value.0 <= r.value.1 < size
  {
    match SpecOf(header) case None => None case Some(spec) => ParseSpec(spec, size)
  }

  /** The final guard and clamp. */
  function Checked(start: int, end: int, size: nat): (r: Option<(nat, nat)>)
    ensures r.Some? ==> r.value.0 <= r.value.1 < size
  {
    if start < 0 || start >= size || end < start then None
    else Some((start, if end < size - 1 then end else size - 1))
  }

  /** The three forms of a range that the grammar allows. */
  datatype RangeSpec = FirstLast(first: nat, last: nat) | FirstOnly(first: nat) | Suffix(length: nat)

  function SpecText(spec: RangeSpec): string {
    match spec
    case FirstLast(first, last) => Decimal(first) + "-" + Decimal(last)
    case FirstOnly(first) => Decimal(first) + "-"
    case Suffix(length) => "-" + Decimal(length)
  }

  /** The byte positions a range selects from a representation of `size` bytes. */
  predicate Selects(spec: RangeSpec, size: nat, p: nat) {
    p < size &&
    match spec
    case FirstLast(first, last) => first <= p <= last
    case FirstOnly(first) => first <= p
    case Suffix(length) => size - length <= p
  }

  /** What the parser computes for a range in one of the three forms. */
  function RangeOf(spec: RangeSpec, size: nat): Option<(nat, nat)> {
    match spec
    case FirstLast(first, last) => Checked(first, last, size)
    case FirstOnly(first) => Checked(first, size - 1, size)
    case Suffix(length) => Checked(if size - length > 0 then size - length else 0, size - 1, size)
  }

  lemma FirstIndexAt(head: string, c: char, tail: string)
    requires c !in head
    ensures FirstIndex(head + [c] + tail, c) == |head|
  {
    var s := head + [c] + tail;
    assert s[|head|] == c && s[..|head|] == head;
    FirstIndexMinimal(s, c, |head|);
  }

  lemma {:induction false} FirstIndexMinimal(s: string, c: char, k: nat)
    requires k < |s| && s[k] == c
    ensures FirstIndex(s, c) <= k
  {
    if k > 0 && s[0] != c { FirstIndexMinimal(s[1..], c, k - 1); }
  }

  lemma DigitsAreClean(s: string)
    requires AllDigits(s)
    ensures ',' !in s && '-' !in s && '=' !in s
    ensures s != "" ==> !IsSpace(s[0]) && !IsSpace(s[|s| - 1])
  {
  }

  lemma SpecTextIsClean(spec: RangeSpec)
    ensures ',' !in SpecText(spec) && Strip(SpecText(spec)) == SpecText(spec)
  {
    var s := SpecText(spec);
    match spec
    case FirstLast(first, last) => DigitsAreClean(Decimal(first)); DigitsAreClean(Decimal(last));
    case FirstOnly(first) => DigitsAreClean(Decimal(first));
    case Suffix(length) => DigitsAreClean(Decimal(length));
    StripNothing(s);
  }

  /** Splitting the text at its first dash recovers the two numbers. */
  lemma SpecTextSplits(spec: RangeSpec)
    ensures var s := SpecText(spec);
            var dash := FirstIndex(s, '-');
            && dash < |s|
            && match spec
               case FirstLast(first, last) => s[..dash] == Decimal(first) && s[dash + 1..] == Decimal(last)
               case FirstOnly(first) => s[..dash] == Decimal(first) && s[dash + 1..] == ""
               case Suffix(length) => s[..dash] == "" && s[dash + 1..] == Decimal(length)
  {
    match spec
    case FirstLast(first, last) =>
      DigitsAreClean(Decimal(first));
      FirstIndexAt(Decimal(first), '-', Decimal(last));
    case FirstOnly(first) =>
      DigitsAreClean(Decimal(first));
      FirstIndexAt(Decimal(first), '-', "");
      assert Decimal(first) + ['-'] + "" == SpecText(spec);
    case Suffix(length) =>
      FirstIndexAt("", '-', Decimal(length));
      assert "" + ['-'] + Decimal(length) == SpecText(spec);
  }

  lemma SpecOfHeader(unit: string, s: string)
    requires Lower(unit) == "bytes" && ',' !in s && Strip(s) == s
    ensures SpecOf(unit + "=" + s) == Some(s)
  {
    UnitIsClean(unit);
    LowerPrefix(unit, s);
    FirstIndexAt(unit, '=', s);
    hide Lower, Strip, FirstIndex;
    assert (unit + "=" + s)[|unit| + 1..] == s;
  }

  lemma ParseSpecText(spec: RangeSpec, size: nat)
    ensures ParseSpec(SpecText(spec), size) == RangeOf(spec, size)
  {
    SpecTextSplits(spec);
    match spec
    case FirstLast(first, last) => ParseIntOfDecimal(first); ParseIntOfDecimal(last); hide ParseInt, Decimal;
    case FirstOnly(first) => ParseIntOfDecimal(first); hide ParseInt, Decimal;
    case Suffix(length) => ParseIntOfDecimal(length); hide ParseInt, Decimal;
  }

  /** A header in one of the three forms, the unit in any letter case, is read as meant. */
  lemma ParsesSpec(unit: string, spec: RangeSpec, size: nat)
    requires Lower(unit) == "bytes"
    ensures ParseByteRange(unit + "=" + SpecText(spec), size) == RangeOf(spec, size)
  {
    SpecTextIsClean(spec);
    SpecOfHeader(unit, SpecText(spec));
    ParseSpecText(spec, size);
    hide SpecOf, ParseSpec, SpecText, RangeOf, Lower;
  }

  lemma UnitIsClean(unit: string)
    requires Lower(unit) == "bytes"
    ensures '=' !in unit
  {
    forall i | 0 <= i < |unit| ensures unit[i] != '=' {
      assert Lower(unit)[i] == LowerChar(unit[i]);
    }
  }

  lemma LowerPrefix(unit: string, s: string)
    requires Lower(unit) == "bytes"
    ensures StartsWith(Lower(unit + "=" + s), UNIT)
  {
    var low := Lower(unit + "=" + s);
    forall i | 0 <= i < 6 ensures low[i] == UNIT[i] {
      if i < 5 { assert Lower(unit)[i] == LowerChar(unit[i]); }
    }
    assert low[..6] == UNIT;
  }

  /**
   A range is accepted exactly when it selects some byte, and then start..end are
   exactly the selected positions.
   */
  lemma AcceptedIffSelectsSome(unit: string, spec: RangeSpec, size: nat)
    requires Lower(unit) == "bytes"
    ensures var r := ParseByteRange(unit + "=" + SpecText(spec), size);
            && (r.Some? <==> exists p :: Selects(spec, size, p))
            && (r.Some? ==> forall p: nat :: Selects(spec, size, p) <==> r.value.0 <= p <= r.value.1)
  {
    ParsesSpec(unit, spec, size);
    var r := RangeOf(spec, size);
    if r.Some? { assert Selects(spec, size, r.value.0); }
  }

  // ----- the response -----

  datatype Response =
    | Whole(length: nat, body: seq<Byte>)
    | Partial(start: nat, end: nat, size: nat, length: nat, body: seq<Byte>)
    | Unsatisfiable

  /** `handle.seek(start); handle.read(length)` */
  function ReadAt(content: seq<Byte>, start: nat, length: nat): (body: seq<Byte>)
    requires start <= |content|
  {
    if start + length <= |content| then content[start..start + length] else content[start..]
  }

  function RangeResponse(rangeHeader: Option<string>, isHead: bool, content: seq<Byte>): Response {
    var header := Strip(if rangeHeader.None? then "" else rangeHeader.value);
    if header == "" then Whole(|content|, if isHead then [] else content)
    else match ParseByteRange(header, |content|)
      case None => Unsatisfiable
      case Some((start, end)) =>
        var length := end - start + 1;
        Partial(start, end, |content|, length, if isHead then [] else ReadAt(content, start, length))
  }

  /** A partial body has the announced length and holds the announced bytes. */
  lemma PartialBodyIsExact(rangeHeader: Option<string>, content: seq<Byte>)
    requires RangeResponse(rangeHeader, false, content).Partial?
    ensures var r := RangeResponse(rangeHeader, false, content);
            && r.start <= r.end < r.size == |content|
            && |r.body| == r.length == r.end - r.start + 1
            && r.body == content[r.start..r.end + 1]
  {
    hide Strip, ParseByteRange;
  }

  /** The body a client gets for one first-last request. */
  function Fetch(content: seq<Byte>, first: nat, last: nat): seq<Byte> {
    var r := RangeResponse(Some("bytes" + "=" + SpecText(FirstLast(first, last))), false, content);
    if r.Partial? then r.body else []
  }

  lemma HeaderIsClean(unit: string, first: nat, last: nat)
    requires unit != "" && !IsSpace(unit[0])
    ensures var header := unit + "=" + SpecText(FirstLast(first, last)); header != "" && Strip(header) == header
  {
    DigitsAreClean(Decimal(last));
    StripNothing(unit + "=" + SpecText(FirstLast(first, last)));
  }

  lemma ResponseToSpec(unit: string, first: nat, last: nat, content: seq<Byte>)
    requires Lower(unit) == "bytes" && unit != "" && !IsSpace(unit[0]) && first <= last && first < |content|
    ensures var end := if last < |content| - 1 then last else |content| - 1;
            RangeResponse(Some(unit + "=" + SpecText(FirstLast(first, last))), false, content) ==
            Partial(first, end, |content|, end - first + 1, content[first..end + 1])
  {
    hide ParseByteRange, SpecText, Strip, Lower;
    HeaderIsClean(unit, first, last);
    ParsesSpec(unit, FirstLast(first, last), |content|);
  }

  lemma FetchIsSlice(content: seq<Byte>, first: nat, last: nat)
    requires first <= last && first < |content|
    ensures Fetch(content, first, last) == content[first..if last < |content| then last + 1 else |content|]
  {
    assert Lower("bytes") == "bytes";
    hide RangeResponse, SpecText, Lower;
    ResponseToSpec("bytes", first, last, content);
  }

  /** Requests from `from` on, each up to the next cut. */
  function FetchAll(content: seq<Byte>, from: nat, cuts: seq<nat>): seq<Byte>
    decreases |cuts|
  {
    if cuts == [] then []
    else (if cuts[0] > 0 then Fetch(content, from, cuts[0] - 1) else []) + FetchAll(content, cuts[0], cuts[1..])
  }

  /** Cuts rise strictly inside the file; the last one reaches its end or lies beyond. */
  predicate CoversFrom(content: seq<Byte>, from: nat, cuts: seq<nat>)
    decreases |cuts|
  {
    if cuts == [] then from >= |content|
    else from < |content| && from < cuts[0] && CoversFrom(content, cuts[0], cuts[1..])
  }

  /** Consecutive ranges that cover a file concatenate to the file, an overshooting last one included. */
  lemma {:induction false} ConsecutiveRangesGiveFile(content: seq<Byte>, from: nat, cuts: seq<nat>)
    requires CoversFrom(content, from, cuts) && from <= |content|
    ensures FetchAll(content, from, cuts) == content[from..]
    decreases |cuts|
  {
    hide Fetch;
    if cuts != [] {
      FetchIsSlice(content, from, cuts[0] - 1);
      if cuts[0] <= |content| {
        ConsecutiveRangesGiveFile(content, cuts[0], cuts[1..]);
      } else {
        assert cuts[1..] == [];
      }
    }
  }

  // ----- headers outside the three forms -----

  /** Without a range a GET yields the whole content, and a HEAD its length. */
  lemma WithoutRange(rangeHeader: Option<string>, isHead: bool, content: seq<Byte>)
    requires rangeHeader.None? || (forall i :: 0 <= i < |rangeHeader.value| ==> rangeHeader.value[i] in [' ', '\t'])
    ensures RangeResponse(rangeHeader, isHead, content) == Whole(|content|, if isHead then [] else content)
  {
    if rangeHeader.Some? { StripBlanks(rangeHeader.value); }
  }

  lemma {:induction false} StripBlanks(s: string)
    requires forall i :: 0 <= i < |s| ==> s[i] in [' ', '\t']
    ensures Strip(s) == ""
  {
    if s != "" {
      assert Strip(s) == Strip(s[1..]);
      StripBlanks(s[1..]);
    }
  }

  /** With one, the response is partial exactly when the range is accepted; a HEAD has its numbers and no body. */
  lemma WithRange(header: string, isHead: bool, content: seq<Byte>)
    requires header != "" && Strip(header) == header
    ensures var (r, range) := (RangeResponse(Some(header), isHead, content), ParseByteRange(header, |content|));
            && (range.None? ==> r == Unsatisfiable)
            && (range.Some? ==> r.Partial? && (r.start, r.end) == range.value && r.size == |content| &&
                                r.length == r.end - r.start + 1 && (isHead ==> r.body == []))
  {
    hide ParseByteRange, Strip;
  }

  /** Another unit is refused. */
  lemma OtherUnitRefused(header: string, size: nat)
    requires |header| < 6 || Lower(header[..6]) != "bytes="
    ensures ParseByteRange(header, size) == None
  {
    if |header| >= 6 {
      assert Lower(header)[..6] == Lower(header[..6]);
    }
  }

  /** A list of ranges is refused, and so is a specifier with a text that `int` does not read. */
  lemma BadSpecRefused(unit: string, a: string, b: string, size: nat)
    requires Lower(unit) == "bytes" && '-' !in a && Strip(a + "-" + b) == a + "-" + b
    requires ',' in a || ',' in b || (a == "" && ParseInt(b).None?) ||
             (a != "" && ParseInt(a).None?) || (b != "" && ParseInt(b).None?)
    ensures ParseByteRange(unit + "=" + (a + "-" + b), size) == None
  {
    hide ParseInt, Lower, Strip;
    var spec := a + "-" + b;
    FirstIndexAt(a, '-', b);
    assert spec[..|a|] == a && spec[|a| + 1..] == b;
    SpecAfterUnit(unit, spec);
    if ',' in spec {
    } else {
      assert ParseSpec(spec, size) == None;
    }
  }

  lemma SpecAfterUnit(unit: string, s: string)
    requires Lower(unit) == "bytes" && Strip(s) == s
    ensures SpecOf(unit + "=" + s) == if ',' in s then None else Some(s)
  {
    UnitIsClean(unit);
    LowerPrefix(unit, s);
    FirstIndexAt(unit, '=', s);
    hide Lower, Strip, FirstIndex;
    assert (unit + "=" + s)[|unit| + 1..] == s;
  }

  /** A number without a dash is read as if a dash followed. */
  lemma NoDashReadsAsOpen(unit: string, first: nat, size: nat)
    requires Lower(unit) == "bytes"
    ensures ParseByteRange(unit + "=" + Decimal(first), size) == RangeOf(FirstOnly(first), size)
  {
    hide ParseInt, Lower, Strip, Decimal;
    DecimalIsPlain(first);
    SpecAfterUnit(unit, Decimal(first));
    ParseIntOfDecimal(first);
  }

  lemma DecimalIsPlain(n: nat)
    ensures Strip(Decimal(n)) == Decimal(n) && ',' !in Decimal(n) && Decimal(n) != ""
    ensures FirstIndex(Decimal(n), '-') == |Decimal(n)| && Decimal(n)[..|Decimal(n)|] == Decimal(n)
  {
    StripNothing(Decimal(n));
    DigitsAreClean(Decimal(n));
  }
}
