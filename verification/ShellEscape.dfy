/**
 Escaping of template parameters for a double-quoted shell string, and what
 becomes of an escaped value when `re.sub` inserts it for `${V:-default}`.
 */
module ShellEscape {
  import opened PyText
  import Sub = ScriptSubstitution

  predicate IsSpecial(c: char) {
    c == '\\' || c == '`' || c == '$' || c == '"'
  }

  /** Control characters other than tab, and both newline characters. */
  predicate IsRemoved(c: char) {
    c < ' ' && c != '\t'
  }

  function Cleaned(s: string): string {
    if s == "" then ""
    else if IsRemoved(s[0]) then Cleaned(s[1..])
    else [s[0]] + Cleaned(s[1..])
  }

  /** `s.replace(c, "\\" + c)` for a single character. */
  function EscapeChar(s: string, c: char): string {
    if s == "" then "" else (if s[0] == c then ['\\', c] else [s[0]]) + EscapeChar(s[1..], c)
  }

  /** The four replacements, one after the other, backslash first. */
  function ShellEscapeDoubleQuoted(value: string): string {
    EscapeChar(EscapeChar(EscapeChar(EscapeChar(Cleaned(value), '\\'), '`'), '$'), '"')
  }

  /** A backslash before every character of `cs`, in one pass. */
  function EscapeSet(s: string, cs: set<char>): string {
    if s == "" then "" else (if s[0] in cs then ['\\', s[0]] else [s[0]]) + EscapeSet(s[1..], cs)
  }

  const SPECIAL: set<char> := {'\\', '`', '$', '"'}

  lemma {:induction false} EscapeCharAfterSet(s: string, cs: set<char>, c: char)
    requires c !in cs && c != '\\'
    ensures EscapeChar(EscapeSet(s, cs), c) == EscapeSet(s, cs + {c})
  {
    if s != "" {
      EscapeCharAfterSet(s[1..], cs, c);
      var tail := EscapeSet(s[1..], cs);
      if s[0] in cs {
        assert (['\\', s[0]] + tail)[1..] == [s[0]] + tail;
        assert ([s[0]] + tail)[1..] == tail;
      } else {
        assert ([s[0]] + tail)[1..] == tail;
      }
    }
  }

  lemma {:induction false} EscapeCharIsSet(s: string, c: char)
    ensures EscapeChar(s, c) == EscapeSet(s, {c})
  {
    if s != "" { EscapeCharIsSet(s[1..], c); }
  }

  /** Escaping one character after another equals escaping all four at once. */
  lemma EscapingIsOnePass(value: string)
    ensures ShellEscapeDoubleQuoted(value) == EscapeSet(Cleaned(value), SPECIAL)
  {
    var u := Cleaned(value);
    EscapeCharIsSet(u, '\\');
    EscapeCharAfterSet(u, {'\\'}, '`');
    EscapeCharAfterSet(u, {'\\'} + {'`'}, '$');
    EscapeCharAfterSet(u, {'\\'} + {'`'} + {'$'}, '"');
    assert {'\\'} + {'`'} + {'$'} + {'"'} == SPECIAL;
  }

  /**
   What a shell reads from text between double quotes; None when the text ends
   the quotes or starts an expansion.
   */
  function ReadDoubleQuoted(s: string): Option<string> {
    if s == "" then Some("")
    else if s[0] == '\\' then
      if |s| == 1 then None
      else
        var piece := if IsSpecial(s[1]) then [s[1]] else if s[1] == '\n' then "" else s[..2];
        (match ReadDoubleQuoted(s[2..]) case None => None case Some(r) => Some(piece + r))
    else if IsSpecial(s[0]) then None
    else match ReadDoubleQuoted(s[1..]) case None => None case Some(r) => Some([s[0]] + r)
  }

  lemma {:induction false} ReadEscaped(u: string)
    ensures ReadDoubleQuoted(EscapeSet(u, SPECIAL)) == Some(u)
  {
    if u != "" {
      ReadEscaped(u[1..]);
      var tail := EscapeSet(u[1..], SPECIAL);
      assert u == [u[0]] + u[1..];
      if u[0] in SPECIAL {
        assert (['\\', u[0]] + tail)[2..] == tail;
      } else {
        assert ([u[0]] + tail)[1..] == tail;
      }
    }
  }

  /** An escaped parameter reads back as the parameter, control characters aside. */
  lemma EscapedValueReadsBack(value: string)
    ensures ReadDoubleQuoted(ShellEscapeDoubleQuoted(value)) == Some(Cleaned(value))
  {
    EscapingIsOnePass(value);
    ReadEscaped(Cleaned(value));
  }

  /** The positions of `s` that survive cleaning. */
  predicate IsKeptAt(s: string, i: int) {
    0 <= i < |s| && (s[i] as int >= 32 || s[i] as int == 9)
  }

  /** `at` lists, in order, the positions of `s` that hold no character below U+0020 other than tab. */
  ghost predicate ListsKept(s: string, at: seq<nat>) {
    && (forall k :: 0 <= k < |at| ==> IsKeptAt(s, at[k]))
    && (forall j, k :: 0 <= j < k < |at| ==> at[j] < at[k])
    && (forall i :: IsKeptAt(s, i) ==> i in at)
  }

  /** The text at these positions. */
  function At(s: string, at: seq<nat>): string
    requires forall k :: 0 <= k < |at| ==> at[k] < |s|
  {
    seq(|at|, k requires 0 <= k < |at| => s[at[k]])
  }

  lemma CleanedStep(s: string)
    requires s != ""
    ensures Cleaned(s) == (if s[0] as int >= 32 || s[0] as int == 9 then [s[0]] else "") + Cleaned(s[1..])
  {
  }

  lemma {:induction false} CleanedPositions(s: string) returns (at: seq<nat>)
    ensures ListsKept(s, at) && Cleaned(s) == At(s, at)
  {
    hide ListsKept, Cleaned, At;
    if s == "" {
      at := [];
      NothingKept();
    } else {
      var rest := CleanedPositions(s[1..]);
      ListsInRange(s[1..], rest);
      var moved := seq(|rest|, k requires 0 <= k < |rest| => rest[k] + 1);
      at := if s[0] as int >= 32 || s[0] as int == 9 then [0] + moved else moved;
      PositionsMoved(s, rest, moved, at);
      ListsInRange(s, at);
      CleanedStep(s);
      TextMoved(s, rest, moved, at);
    }
  }

  lemma TextMoved(s: string, rest: seq<nat>, moved: seq<nat>, at: seq<nat>)
    requires s != "" && |moved| == |rest|
    requires forall k :: 0 <= k < |rest| ==> rest[k] < |s| - 1 && moved[k] == rest[k] + 1
    requires at == moved || at == [0] + moved
    ensures forall k :: 0 <= k < |at| ==> at[k] < |s|
    ensures At(s, at) == (if at == moved then "" else [s[0]]) + At(s[1..], rest)
  {
    assert At(s, moved) == At(s[1..], rest);
    if at != moved { assert At(s, at) == [s[0]] + At(s, moved); }
  }

  lemma NothingKept()
    ensures ListsKept("", []) && Cleaned("") == "" == At("", [])
  {
  }

  lemma ListsInRange(s: string, at: seq<nat>)
    requires ListsKept(s, at)
    ensures forall k :: 0 <= k < |at| ==> at[k] < |s|
  {
    assert forall k :: 0 <= k < |at| ==> IsKeptAt(s, at[k]);
  }

  lemma PositionsMoved(s: string, rest: seq<nat>, moved: seq<nat>, at: seq<nat>)
    requires s != "" && ListsKept(s[1..], rest)
    requires |moved| == |rest| && forall k :: 0 <= k < |rest| ==> moved[k] == rest[k] + 1
    requires at == if s[0] as int >= 32 || s[0] as int == 9 then [0] + moved else moved
    ensures ListsKept(s, at)
  {
    forall k | 0 <= k < |moved| ensures IsKeptAt(s, moved[k]) {
      assert IsKeptAt(s[1..], rest[k]) && s[1..][rest[k]] == s[moved[k]];
    }
    forall i | IsKeptAt(s, i) ensures i in at {
      if i > 0 {
        assert IsKeptAt(s[1..], i - 1);
        var k :| 0 <= k < |rest| && rest[k] == i - 1;
        assert moved[k] == i;
      } else {
        assert at[0] == 0;
      }
    }
  }

  /**
   What the shell reads back is the parameter with exactly the characters below
   U+0020 other than tab left out, in order; all of it when it has none.
   */
  lemma ReadsBackAllButControls(value: string) returns (at: seq<nat>)
    ensures ListsKept(value, at)
    ensures var read := ReadDoubleQuoted(ShellEscapeDoubleQuoted(value));
            && read.Some? && |read.value| == |at|
            && (forall k :: 0 <= k < |at| ==> read.value[k] == value[at[k]])
            && ((forall i :: 0 <= i < |value| ==> value[i] as int >= 32 || value[i] as int == 9) ==>
                  read == Some(value))
  {
    hide ReadDoubleQuoted, ShellEscapeDoubleQuoted;
    at := CleanedPositions(value);
    EscapedValueReadsBack(value);
    if forall i :: 0 <= i < |value| ==> value[i] as int >= 32 || value[i] as int == 9 {
      NothingCleaned(value);
    }
  }

  lemma {:induction false} NothingCleaned(s: string)
    requires forall i :: 0 <= i < |s| ==> s[i] as int >= 32 || s[i] as int == 9
    ensures Cleaned(s) == s
  {
    if s != "" {
      NothingCleaned(s[1..]);
      assert s == [s[0]] + s[1..] && !IsRemoved(s[0]);
    }
  }

  lemma {:induction false} TemplateOfEscaped(u: string)
    ensures Sub.ReTemplate(EscapeSet(u, SPECIAL)) == Some(EscapeSet(u, SPECIAL - {'\\'}))
  {
    if u != "" {
      TemplateOfEscaped(u[1..]);
      var tail := EscapeSet(u[1..], SPECIAL);
      if u[0] in SPECIAL {
        var s := ['\\', u[0]] + tail;
        assert s[2..] == tail && s[..2] == ['\\', u[0]];
      } else {
        assert ([u[0]] + tail)[1..] == tail;
      }
    }
  }

  lemma {:induction false} HalfEscapedLength(u: string)
    ensures |EscapeSet(u, SPECIAL - {'\\'})| <= |EscapeSet(u, SPECIAL)|
    ensures '\\' !in u ==> EscapeSet(u, SPECIAL - {'\\'}) == EscapeSet(u, SPECIAL)
    ensures '\\' in u ==> |EscapeSet(u, SPECIAL - {'\\'})| < |EscapeSet(u, SPECIAL)|
  {
    if u != "" {
      HalfEscapedLength(u[1..]);
      assert u == [u[0]] + u[1..];
    }
  }

  lemma {:induction false} CleanedKeepsBackslashes(s: string)
    ensures '\\' in Cleaned(s) <==> '\\' in s
  {
    if s != "" {
      CleanedKeepsBackslashes(s[1..]);
      assert s == [s[0]] + s[1..];
    }
  }

  /**
   An escaped parameter never makes `re.sub` raise, and `${V:-default}` gets the
   same text as `${V}` exactly when the parameter holds no backslash.
   */
  lemma DefaultFormKeepsValueIff(value: string)
    ensures Sub.ReTemplate(ShellEscapeDoubleQuoted(value)).Some?
    ensures Sub.ReTemplate(ShellEscapeDoubleQuoted(value)) == Some(ShellEscapeDoubleQuoted(value)) <==>
            '\\' !in value
  {
    EscapingIsOnePass(value);
    TemplateOfEscaped(Cleaned(value));
    HalfEscapedLength(Cleaned(value));
    CleanedKeepsBackslashes(value);
  }

  // ----- what the shell reads after `${V:-default}` was replaced -----

  /** The escapes that `re.sub` leaves: it halves the backslashes. */
  const HALF: set<char> := {'`', '$', '"'}

  /** Every backslash is followed by a character the shell does not treat specially. */
  predicate BackslashesHarmless(u: string) {
    forall i :: 0 <= i < |u| && u[i] == '\\' ==> i + 1 < |u| && !IsSpecial(u[i + 1])
  }

  predicate NoNewline(u: string) {
    forall i :: 0 <= i < |u| ==> u[i] != '\n'
  }

  lemma {:induction false} CleanedHasNoNewline(s: string)
    ensures NoNewline(Cleaned(s))
  {
    if s != "" { CleanedHasNoNewline(s[1..]); }
  }

  function Prepend(piece: string, rest: Option<string>): Option<string> {
    match rest case None => None case Some(r) => Some(piece + r)
  }

  lemma PrependsTo(piece: string, rest: Option<string>, v: string)
    ensures Prepend(piece, rest) == Some(piece + v) <==> rest == Some(v)
  {
    if rest.Some? {
      assert (piece + rest.value)[|piece|..] == rest.value && (piece + v)[|piece|..] == v;
    }
  }

  lemma ReadPlain(c: char, s: string)
    requires !IsSpecial(c)
    ensures ReadDoubleQuoted([c] + s) == Prepend([c], ReadDoubleQuoted(s))
  {
    assert ([c] + s)[1..] == s;
  }

  lemma ReadPair(c: char, s: string)
    requires c != '\n'
    ensures ReadDoubleQuoted(['\\', c] + s) == Prepend(if IsSpecial(c) then [c] else ['\\', c], ReadDoubleQuoted(s))
  {
    var t := ['\\', c] + s;
    assert t[2..] == s && t[..2] == ['\\', c];
  }

  lemma ReadBareQuote(c: char, s: string)
    requires c in HALF
    ensures ReadDoubleQuoted(['\\', '\\'] + ([c] + s)) == None
  {
    ReadPair('\\', [c] + s);
  }

  lemma EscapeSetStep(c: char, s: string, cs: set<char>)
    ensures EscapeSet([c] + s, cs) == (if c in cs then ['\\', c] else [c]) + EscapeSet(s, cs)
  {
    assert ([c] + s)[1..] == s;
  }

  /** How the reading of half-escaped text starts, at an ordinary or quoted character. */
  lemma ReadHalfEscapedChar(c: char, s: string)
    requires c != '\\' && c != '\n'
    ensures ReadDoubleQuoted(EscapeSet([c] + s, HALF)) == Prepend([c], ReadDoubleQuoted(EscapeSet(s, HALF)))
  {
    hide ReadDoubleQuoted, EscapeSet;
    EscapeSetStep(c, s, HALF);
    if c in HALF { ReadPair(c, EscapeSet(s, HALF)); } else { ReadPlain(c, EscapeSet(s, HALF)); }
  }

  /** At a backslash: it takes the next character with it, or the escape of that. */
  lemma ReadHalfEscapedPair(c: char, s: string)
    requires c != '\n'
    ensures ReadDoubleQuoted(EscapeSet(['\\'] + ([c] + s), HALF)) ==
            if c in HALF then None
            else Prepend(if c == '\\' then [c] else ['\\', c], ReadDoubleQuoted(EscapeSet(s, HALF)))
  {
    hide ReadDoubleQuoted, EscapeSet;
    EscapeSetStep('\\', [c] + s, HALF);
    EscapeSetStep(c, s, HALF);
    var tail := EscapeSet(s, HALF);
    if c in HALF {
      assert ['\\'] + (['\\', c] + tail) == ['\\', '\\'] + ([c] + tail);
      ReadBareQuote(c, tail);
    } else {
      assert ['\\'] + ([c] + tail) == ['\\', c] + tail;
      ReadPair(c, tail);
    }
  }

  lemma ReadLastBackslash()
    ensures ReadDoubleQuoted(EscapeSet(['\\'], HALF)) == None
  {
    assert EscapeSet(['\\'], HALF) == ['\\'] + EscapeSet("", HALF);
  }

  /** Half-escaped text is read as itself exactly when its backslashes are harmless; it never reads as more. */
  lemma {:induction false} ReadHalfEscaped(u: string)
    requires NoNewline(u)
    ensures var read := ReadDoubleQuoted(EscapeSet(u, HALF));
            && (read == Some(u) <==> BackslashesHarmless(u))
            && (read.Some? ==> |read.value| <= |u|)
    decreases |u|
  {
    hide ReadDoubleQuoted, EscapeSet, BackslashesHarmless;
    if u == "" {
      ReadNothing();
    } else if u[0] != '\\' {
      var s := u[1..];
      assert u == [u[0]] + s;
      ReadHalfEscaped(s);
      ReadHalfEscapedChar(u[0], s);
      PrependsTo([u[0]], ReadDoubleQuoted(EscapeSet(s, HALF)), s);
      HarmlessFrom(u, 1);
    } else if |u| == 1 {
      assert u == ['\\'];
      ReadLastBackslash();
      HarmlessFrom(u, 1);
    } else {
      var (c, s) := (u[1], u[2..]);
      assert u == ['\\'] + ([c] + s) == ['\\', c] + s;
      ReadHalfEscaped(s);
      ReadHalfEscapedPair(c, s);
      PrependsTo(['\\', c], ReadDoubleQuoted(EscapeSet(s, HALF)), s);
      HarmlessFrom(u, 2);
    }
  }

  lemma ReadNothing()
    ensures ReadDoubleQuoted(EscapeSet("", HALF)) == Some("") && BackslashesHarmless("")
  {
  }

  lemma HarmlessFrom(u: string, n: nat)
    requires u != "" && n == if u[0] == '\\' && |u| > 1 then 2 else 1
    ensures BackslashesHarmless(u) <==>
            BackslashesHarmless(u[n..]) && (u[0] == '\\' ==> n == 2 && !IsSpecial(u[1]))
  {
    if BackslashesHarmless(u) {
      assert forall i :: 0 <= i < |u| - n ==> u[n..][i] == u[n + i];
    }
    if BackslashesHarmless(u[n..]) {
      assert forall i :: n <= i < |u| ==> u[i] == u[n..][i - n];
    }
  }

  /**
   A parameter put in for `${V:-default}` reads back as the parameter, control
   characters aside, exactly when each of its backslashes is followed by an
   ordinary character; `\"` for one ends the quotes.
   */
  lemma DefaultFormReadsBackIff(value: string)
    ensures var inserted := Sub.ReTemplate(ShellEscapeDoubleQuoted(value));
            && inserted.Some?
            && (ReadDoubleQuoted(inserted.value) == Some(Cleaned(value)) <==> BackslashesHarmless(Cleaned(value)))
  {
    hide ReadDoubleQuoted, BackslashesHarmless;
    assert SPECIAL - {'\\'} == HALF;
    EscapingIsOnePass(value);
    TemplateOfEscaped(Cleaned(value));
    CleanedHasNoNewline(value);
    ReadHalfEscaped(Cleaned(value));
  }
}
