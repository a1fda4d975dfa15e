/** The signed session cookie of the IPMI proxy. */
module SessionCookie {
  import opened PyText
  import opened Base64Url
  import Utf8

  predicate IsHex(s: string) {
    forall i :: 0 <= i < |s| ==> IsDigit(s[i]) || 'a' <= s[i] <= 'f'
  }

  /** The keyed hash of a text, as a hexadecimal digest. */
  type Mac = f: string -> string | forall p :: IsHex(f(p)) witness p => ""

  ghost predicate ReadsDecimals(read: string -> Option<int>) {
    forall n: nat :: read(Decimal(n)) == Some(n)
  }

  lemma ParseIntReadsDecimals()
    ensures ReadsDecimals(ParseInt)
  {
    forall n: nat ensures ParseInt(Decimal(n)) == Some(n) {
      ParseIntOfDecimal(n);
    }
  }

  /** `int` on text: any reading that gives a printed natural number back, such as `ParseInt`. */
  type IntReader = read: string -> Option<int> | ReadsDecimals(read)
    ghost witness (ParseIntReadsDecimals(); ParseInt)

  datatype Verdict = Accepted(uuid: string) | Rejected | Raised

  predicate IsAscii(s: string) {
    forall i :: 0 <= i < |s| ==> s[i] as int < 128
  }

  /** `int(time.time()) + max(1, ttl)` */
  function Expiry(now: real, ttl: int): nat
    requires now >= 0.0
  {
    now.Floor + if ttl > 1 then ttl else 1
  }

  function MakeCookie(mac: Mac, uuid: string, ttl: int, now: real): string
    requires now >= 0.0
  {
    var payload := uuid + "." + Decimal(Expiry(now, ttl));
    StripPadding(Encode64(Utf8.Encode(payload))) + "." + mac(payload)
  }

  /** The payload text of the first part, or None when decoding raises. */
  function Payload(b64: string): Option<string> {
    if !IsAscii(b64) then None
    else match Decode64(Pad(b64))
      case None => None
      case Some(bytes) => Utf8.Decode(bytes)
  }

  function VerifyCookie(mac: Mac, read: IntReader, value: Option<string>, now: real): Verdict {
    if value.None? || value.value == "" then Rejected
    else match SplitLast(value.value, '.')
      case None => Rejected
      case Some((b64, sig)) =>
        match Payload(b64)
        case None => Rejected
        case Some(payload) =>
          match SplitLast(payload, '.')
          case None => Rejected
          case Some((uuid, expText)) =>
            match read(expText)
            case None => Rejected
            case Some(exp) =>
              if !IsAscii(sig) then Raised   // compare_digest refuses non-ASCII text
              else if sig != mac(payload) then Rejected
              else if now > exp as real then Rejected
              else Accepted(uuid)
  }

  lemma PayloadRoundTrip(payload: string)
    ensures var b64 := StripPadding(Encode64(Utf8.Encode(payload)));
            Payload(b64) == Some(payload) && '.' !in b64
  {
    PaddingRestored(Utf8.Encode(payload));
    DecodeInvertsEncode(Utf8.Encode(payload));
    Utf8.RoundTrip(payload);
  }

  /**
   A fresh cookie yields its uuid, whatever characters that has, up to and
   including the expiry second, and is rejected afterwards.
   */
  lemma CookieRoundTrip(mac: Mac, read: IntReader, uuid: string, ttl: int, issued: real, now: real)
    requires issued >= 0.0
    ensures VerifyCookie(mac, read, Some(MakeCookie(mac, uuid, ttl, issued)), now) ==
            if now <= (issued.Floor + if ttl > 1 then ttl else 1) as real then Accepted(uuid) else Rejected
  {
    hide Payload, StripPadding, Encode64, Utf8.Encode, Decimal;
    var expText := Decimal(Expiry(issued, ttl));
    var payload := uuid + ['.'] + expText;
    var b64 := StripPadding(Encode64(Utf8.Encode(payload)));
    PayloadRoundTrip(payload);
    DigestIsClean(mac, payload);
    SplitLastAt(b64, '.', mac(payload));
    SplitLastAt(uuid, '.', expText);
    assert payload == uuid + "." + expText;
    assert MakeCookie(mac, uuid, ttl, issued) == b64 + ['.'] + mac(payload);
  }

  lemma DigestIsClean(mac: Mac, payload: string)
    ensures IsAscii(mac(payload)) && '.' !in mac(payload)
  {
    assert IsHex(mac(payload));
  }

  /**
   Whatever value is presented, a uuid is returned only with the digest of that
   uuid and an expiry that has not passed.
   */
  lemma AcceptedOnlyIfSigned(mac: Mac, read: IntReader, value: string, now: real)
    returns (b64: string, expText: string)
    requires VerifyCookie(mac, read, Some(value), now).Accepted?
    ensures var uuid := VerifyCookie(mac, read, Some(value), now).uuid;
            && value == b64 + "." + mac(uuid + "." + expText)
            && read(expText).Some? && now <= read(expText).value as real
            && Payload(b64) == Some(uuid + "." + expText)
  {
    SplitLastJoins(value, '.');
    b64 := SplitLast(value, '.').value.0;
    SplitLastJoins(Payload(b64).value, '.');
    expText := SplitLast(Payload(b64).value, '.').value.1;
  }

  /** The cookie parses in every respect, but its signature is not ASCII. */
  ghost predicate ParsesWithOddSignature(read: IntReader, value: string) {
    exists b64, sig, uuid, expText ::
      && value == b64 + ['.'] + sig && '.' !in sig && '.' !in expText
      && Payload(b64) == Some(uuid + ['.'] + expText) && read(expText).Some? && !IsAscii(sig)
  }

  /** Verification raises, instead of rejecting, exactly for such values. */
  lemma RaisesIff(mac: Mac, read: IntReader, value: string, now: real)
    ensures VerifyCookie(mac, read, Some(value), now).Raised? <==> ParsesWithOddSignature(read, value)
  {
    hide Payload;
    if VerifyCookie(mac, read, Some(value), now).Raised? {
      SplitLastJoins(value, '.');
      var (b64, sig) := SplitLast(value, '.').value;
      SplitLastJoins(Payload(b64).value, '.');
      var (uuid, expText) := SplitLast(Payload(b64).value, '.').value;
      assert value == b64 + ['.'] + sig && Payload(b64) == Some(uuid + ['.'] + expText);
    }
    if ParsesWithOddSignature(read, value) {
      var b64, sig, uuid, expText :|
        && value == b64 + ['.'] + sig && '.' !in sig && '.' !in expText
        && Payload(b64) == Some(uuid + ['.'] + expText) && read(expText).Some? && !IsAscii(sig);
      SplitLastAt(b64, '.', sig);
      SplitLastAt(uuid, '.', expText);
    }
  }

  lemma OddSignature(text: string, c: char)
    requires c as int >= 128
    ensures !IsAscii(text + [c])
  {
    assert (text + [c])[|text|] == c;
  }

  /** Any fresh cookie with a non-ASCII character appended is one. */
  lemma AppendedCharacterRaises(mac: Mac, read: IntReader, uuid: string, ttl: int, issued: real, now: real, c: char)
    requires issued >= 0.0 && c as int >= 128
    ensures VerifyCookie(mac, read, Some(MakeCookie(mac, uuid, ttl, issued) + [c]), now) == Raised
  {
    hide VerifyCookie, Payload, StripPadding, Encode64, Utf8.Encode, Decimal, IsAscii;
    var expText := Decimal(Expiry(issued, ttl));
    var payload := uuid + ['.'] + expText;
    var b64 := StripPadding(Encode64(Utf8.Encode(payload)));
    var sig := mac(payload) + [c];
    PayloadRoundTrip(payload);
    OddSignature(mac(payload), c);
    assert IsHex(mac(payload));
    var value := MakeCookie(mac, uuid, ttl, issued) + [c];
    assert payload == uuid + "." + expText;
    assert value == b64 + ['.'] + sig;
    RaisesIff(mac, read, value, now);
  }

  /** A value is accepted exactly when it is a text, its digest and an expiry that has not passed. */
  lemma AcceptedIff(mac: Mac, read: IntReader, value: string, now: real, uuid: string)
    ensures VerifyCookie(mac, read, Some(value), now) == Accepted(uuid) <==>
            exists b64, expText ::
              && value == b64 + ['.'] + mac(uuid + ['.'] + expText) && '.' !in expText
              && Payload(b64) == Some(uuid + ['.'] + expText)
              && read(expText).Some? && now <= read(expText).value as real
  {
    hide Payload;
    if VerifyCookie(mac, read, Some(value), now) == Accepted(uuid) {
      SplitLastJoins(value, '.');
      var b64 := SplitLast(value, '.').value.0;
      SplitLastJoins(Payload(b64).value, '.');
      var expText := SplitLast(Payload(b64).value, '.').value.1;
      assert Payload(b64) == Some(uuid + ['.'] + expText);
    }
    if b64, expText :|
      && value == b64 + ['.'] + mac(uuid + ['.'] + expText) && '.' !in expText
      && Payload(b64) == Some(uuid + ['.'] + expText)
      && read(expText).Some? && now <= read(expText).value as real
    {
      DigestIsClean(mac, uuid + ['.'] + expText);
      SplitLastAt(b64, '.', mac(uuid + ['.'] + expText));
      SplitLastAt(uuid, '.', expText);
    }
  }

  /** No cookie, one without a dot, and one whose first part is not ASCII are rejected. */
  lemma RejectedTexts(mac: Mac, read: IntReader, value: string, b64: string, sig: string, now: real)
    ensures VerifyCookie(mac, read, None, now) == Rejected
    ensures '.' !in value ==> VerifyCookie(mac, read, Some(value), now) == Rejected
    ensures '.' !in sig && (exists i :: 0 <= i < |b64| && b64[i] as int >= 128) ==>
              VerifyCookie(mac, read, Some(b64 + ['.'] + sig), now) == Rejected
  {
    SplitLastJoins(value, '.');
    if '.' !in sig { SplitLastAt(b64, '.', sig); }
  }
}
