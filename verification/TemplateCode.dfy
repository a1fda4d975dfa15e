/**
 The migration that gives every VM template an immutable unique code:
 slugify a name, then append "-2", "-3", ... until the code is unused.
 */
module TemplateCode {
  import opened PyText
  import opened FreshNames

  const MAX_CODE := 128

  /** A row of `vm_templates`; an empty name counts as a missing one. */
  datatype Row = Row(id: nat, name: Option<string>, proxmoxName: Option<string>)

  predicate IsSlugWordChar(c: char) {
    'a' <= c <= 'z' || IsDigit(c)
  }

  predicate IsSlug(s: string) {
    forall i :: 0 <= i < |s| ==> IsSlugWordChar(s[i]) || s[i] == '-'
  }

  /** `re.sub(r"[^a-z0-9]+", "-", s)`; `inRun` says a foreign run was just replaced. */
  function DashRuns(s: string, inRun: bool): (r: string)
    ensures IsSlug(r)
  {
    if s == "" then ""
    else if IsSlugWordChar(s[0]) then [s[0]] + DashRuns(s[1..], false)
    else if inRun then DashRuns(s[1..], true)
    else "-" + DashRuns(s[1..], true)
  }

  function StripDashesLeft(s: string): (r: string)
    ensures IsSlug(s) ==> IsSlug(r)
  {
    if s != "" && s[0] == '-' then StripDashesLeft(s[1..]) else s
  }

  function StripDashesRight(s: string): (r: string)
    ensures IsSlug(s) ==> IsSlug(r)
  {
    if s != "" && s[|s| - 1] == '-' then StripDashesRight(s[..|s| - 1]) else s
  }

  function Prefix(s: string, n: nat): (r: string)
    ensures r <= s && |r| <= n
    ensures |s| >= n ==> |r| == n
  {
    if |s| <= n then s else s[..n]
  }

  function Slugify(value: string): (r: string)
    ensures IsSlug(r) && 1 <= |r| <= MAX_CODE
  {
    var text := StripDashesRight(StripDashesLeft(DashRuns(Lower(Strip(value)), false)));
    var short := Prefix(text, MAX_CODE);
    if short == "" then "template" else short
  }

  // ----- what a slug says about its text -----

  predicate IsWordChar(c: char) {
    'a' <= c <= 'z' || '0' <= c <= '9'
  }

  predicate IsWord(s: string) {
    s != "" && forall j :: 0 <= j < |s| ==> IsWordChar(s[j])
  }

  /** The maximal stretches of word characters, in order. */
  function Words(s: string): (words: seq<string>)
    ensures forall i :: 0 <= i < |words| ==> IsWord(words[i])
    ensures words == [] <==> forall i :: 0 <= i < |s| ==> !IsWordChar(s[i])
  {
    if s == "" then []
    else if !IsWordChar(s[0]) then Words(s[1..])
    else if |s| > 1 && IsWordChar(s[1]) then
      var rest := Words(s[1..]);
      [[s[0]] + rest[0]] + rest[1..]
    else [[s[0]]] + Words(s[1..])
  }

  function Joined(words: seq<string>): string {
    if words == [] then "" else if |words| == 1 then words[0] else words[0] + "-" + Joined(words[1..])
  }

  function DashStart(s: string): string {
    if s == "" || IsWordChar(s[0]) then "" else "-"
  }

  function DashEnd(s: string): string {
    if s == "" || IsWordChar(s[|s| - 1]) then "" else "-"
  }

  /** One dash for every stretch of other characters, the ends included. */
  function Dashed(s: string): string {
    if Words(s) == [] then (if s == "" then "" else "-")
    else DashStart(s) + Joined(Words(s)) + DashEnd(s)
  }

  lemma JoinedExtends(c: char, words: seq<string>)
    requires words != []
    ensures Joined([[c] + words[0]] + words[1..]) == [c] + Joined(words)
  {
    var more := [[c] + words[0]] + words[1..];
    assert more[1..] == words[1..];
    if |words| > 1 {
      assert [c] + words[0] + "-" + Joined(words[1..]) == [c] + (words[0] + "-" + Joined(words[1..]));
    }
  }

  lemma JoinedCons(word: string, words: seq<string>)
    ensures Joined([word] + words) == if words == [] then word else word + "-" + Joined(words)
  {
    assert ([word] + words)[1..] == words;
  }

  /** Replacing stretches of other characters, from inside one or not. */
  lemma {:induction false} DashRunsOf(s: string)
    ensures DashRuns(s, false) == Dashed(s)
    ensures DashRuns(s, true) == if s != "" && !IsWordChar(s[0]) then Dashed(s)[1..] else Dashed(s)
  {
    hide Words, Joined;
    if s != "" {
      var rest := s[1..];
      DashRunsOf(rest);
      DashedStep(s);
      assert rest != "" ==> rest[0] == s[1] && rest[|rest| - 1] == s[|s| - 1];
      assert IsSlugWordChar(s[0]) == IsWordChar(s[0]);
    }
  }

  lemma DashedStep(s: string)
    requires s != ""
    ensures IsWordChar(s[0]) ==> Dashed(s) == [s[0]] + Dashed(s[1..])
    ensures !IsWordChar(s[0]) ==>
              Dashed(s) == if |s| > 1 && !IsWordChar(s[1]) then Dashed(s[1..]) else "-" + Dashed(s[1..])
  {
    hide Dashed;
    if IsWordChar(s[0]) { DashedAtWord(s[0], s[1..]); } else { DashedAtOther(s[0], s[1..]); }
    assert s == [s[0]] + s[1..];
  }

  lemma DashedAtWord(c: char, rest: string)
    requires IsWordChar(c)
    ensures Dashed([c] + rest) == [c] + Dashed(rest)
  {
    hide Words, Joined, Dashed;
    WordsAtWord(c, rest);
    DashedIs([c] + rest);
    DashedIs(rest);
    EndsAlike(c, rest);
    var (words, end) := (Words(rest), DashEnd(rest));
    if rest == "" {
      JoinedCons([c], []);
    } else if IsWordChar(rest[0]) {
      JoinedExtends(c, words);
      assert [c] + Joined(words) + end == [c] + (Joined(words) + end);
    } else {
      JoinedCons([c], words);
      if words != [] { assert [c] + "-" + Joined(words) + end == [c] + ("-" + Joined(words) + end); }
    }
  }

  lemma DashedIs(s: string)
    ensures Words(s) != [] ==> Dashed(s) == DashStart(s) + Joined(Words(s)) + DashEnd(s)
    ensures Words(s) == [] ==> Dashed(s) == if s == "" then "" else "-"
  {
    hide Words, Joined, DashStart, DashEnd;
  }

  lemma EndsAlike(c: char, rest: string)
    requires IsWordChar(c)
    ensures DashEnd([c] + rest) == DashEnd(rest) && ([c] + rest)[0] == c
    ensures Words(rest) == [] && rest != "" ==> !IsWordChar(rest[0]) && DashEnd(rest) == "-"
    ensures Words("") == []
  {
    var s := [c] + rest;
    assert rest != "" ==> s[|s| - 1] == rest[|rest| - 1];
  }

  lemma WordsAtWord(c: char, rest: string)
    requires IsWordChar(c)
    ensures rest != "" && IsWordChar(rest[0]) ==> Words(rest) != []
    ensures Words([c] + rest) ==
            if rest != "" && IsWordChar(rest[0]) then [[c] + Words(rest)[0]] + Words(rest)[1..] else [[c]] + Words(rest)
  {
    var s := [c] + rest;
    assert s[1..] == rest && (rest != "" ==> s[1] == rest[0]);
  }

  lemma DashedAtOther(c: char, rest: string)
    requires !IsWordChar(c)
    ensures Dashed([c] + rest) == if rest != "" && !IsWordChar(rest[0]) then Dashed(rest) else "-" + Dashed(rest)
  {
    hide Joined;
    var s := [c] + rest;
    assert s[1..] == rest && (rest != "" ==> s[1] == rest[0] && s[|s| - 1] == rest[|rest| - 1]);
    assert Words(s) == Words(rest);
  }

  lemma {:induction false} JoinedEnds(words: seq<string>)
    requires words != [] && forall i :: 0 <= i < |words| ==> IsWord(words[i])
    ensures Joined(words) != "" && IsWordChar(Joined(words)[0]) && IsWordChar(Joined(words)[|Joined(words)| - 1])
  {
    if |words| > 1 { JoinedEnds(words[1..]); }
  }

  lemma StripsToJoined(s: string)
    ensures StripDashesRight(StripDashesLeft(Dashed(s))) == Joined(Words(s))
  {
    hide Words, Joined;
    var words := Words(s);
    if words != [] {
      JoinedEnds(words);
      StripsBothDashes(DashStart(s), Joined(words), DashEnd(s));
    } else {
      JoinedNothing();
      if s != "" { assert StripDashesLeft("-") == ""; }
    }
  }

  lemma JoinedNothing()
    ensures Joined([]) == ""
  {
  }

  lemma StripsBothDashes(left: string, text: string, right: string)
    requires left in ["", "-"] && right in ["", "-"] && text != "" && text[0] != '-' && text[|text| - 1] != '-'
    ensures StripDashesRight(StripDashesLeft(left + text + right)) == text
  {
    var s := left + text + right;
    assert left == "-" ==> s[1..] == text + right;
    assert StripDashesLeft(text + right) == text + right;
    assert StripDashesLeft(s) == text + right;
    assert right == "-" ==> (text + right)[..|text + right| - 1] == text;
    assert StripDashesRight(text) == text;
  }

  /** Surrounding spaces do not matter: they are no word characters. */
  lemma {:induction false} WordsOfStripped(s: string)
    ensures Words(Lower(StripLeft(s))) == Words(Lower(s)) && Words(Lower(StripRight(s))) == Words(Lower(s))
  {
    hide StripLeft, StripRight, Words, Lower;
    LeftStripKeepsWords(s);
    RightStripKeepsWords(s);
  }

  lemma LowerParts(a: string, b: string)
    ensures Lower(a + b) == Lower(a) + Lower(b)
  {
  }

  lemma {:induction false} LeftStripKeepsWords(s: string)
    ensures Words(Lower(StripLeft(s))) == Words(Lower(s))
  {
    if s != "" && IsSpace(s[0]) {
      assert s == [s[0]] + s[1..];
      LowerParts([s[0]], s[1..]);
      assert Lower(s)[1..] == Lower(s[1..]) && !IsWordChar(Lower(s)[0]);
      LeftStripKeepsWords(s[1..]);
    }
  }

  lemma {:induction false} WordsDropLast(s: string, c: char)
    requires !IsWordChar(c)
    ensures Words(s + [c]) == Words(s)
  {
    if s != "" {
      assert (s + [c])[1..] == s[1..] + [c];
      WordsDropLast(s[1..], c);
    }
  }

  lemma {:induction false} RightStripKeepsWords(s: string)
    ensures Words(Lower(StripRight(s))) == Words(Lower(s))
  {
    if s != "" && IsSpace(s[|s| - 1]) {
      var (front, c) := (s[..|s| - 1], s[|s| - 1]);
      assert s == front + [c];
      LowerParts(front, [c]);
      assert Lower([c]) == [c] && !IsWordChar(c);
      WordsDropLast(Lower(front), c);
      RightStripKeepsWords(front);
    }
  }

  /** A slug is the words of the lower-case text joined by single dashes, cut at 128, or "template" without any. */
  lemma SlugIsWordsJoined(value: string)
    ensures var words := Words(Lower(value));
            Slugify(value) == if words == [] then "template"
                              else if |Joined(words)| <= 128 then Joined(words) else Joined(words)[..128]
  {
    hide Words, Joined, Dashed, DashRuns, StripDashesLeft, StripDashesRight, StripLeft, StripRight, Lower;
    var text := Lower(Strip(value));
    DashRunsOf(text);
    StripsToJoined(text);
    WordsOfStripped(value);
    WordsOfStripped(StripLeft(value));
    if Words(text) != [] { JoinedEnds(Words(text)); } else { JoinedNothing(); }
  }

  /** Letters of either case give the same slug. */
  lemma SlugIgnoresCase(value: string)
    ensures Slugify(Lower(value)) == Slugify(value)
    ensures forall i :: 0 <= i < |value| && 'A' <= value[i] <= 'Z' ==> Lower(value)[i] as int == value[i] as int + 32
    ensures forall i :: 0 <= i < |value| && !('A' <= value[i] <= 'Z') ==> Lower(value)[i] == value[i]
  {
    SlugIsWordsJoined(value);
    SlugIsWordsJoined(Lower(value));
    assert Lower(Lower(value)) == Lower(value);
    hide Slugify, Words, Joined;
  }

  /** The word characters of a text, in order. */
  function Undashed(s: string): string {
    if s == "" then "" else (if IsWordChar(s[0]) then [s[0]] else "") + Undashed(s[1..])
  }

  lemma {:induction false} UndashedParts(a: string, b: string)
    ensures Undashed(a + b) == Undashed(a) + Undashed(b)
  {
    if a == "" {
      assert a + b == b;
    } else {
      assert (a + b)[0] == a[0] && (a + b)[1..] == a[1..] + b;
      UndashedParts(a[1..], b);
      hide IsWordChar;
    }
  }

  lemma {:induction false} UndashedWord(word: string)
    requires forall j :: 0 <= j < |word| ==> IsWordChar(word[j])
    ensures Undashed(word) == word
  {
    if word != "" {
      UndashedWord(word[1..]);
      assert word == [word[0]] + word[1..];
    }
  }

  lemma {:induction false} UndashedJoined(s: string)
    ensures Undashed(Joined(Words(s))) == Undashed(s)
  {
    hide Joined, Undashed;
    if s == "" {
      JoinedNothing();
    } else {
      var rest := s[1..];
      UndashedJoined(rest);
      assert s == [s[0]] + rest;
      UndashedParts([s[0]], rest);
      UndashedChar(s[0]);
      if IsWordChar(s[0]) {
        WordsAtWord(s[0], rest);
        if |s| > 1 && IsWordChar(s[1]) {
          JoinedExtends(s[0], Words(rest));
          UndashedParts([s[0]], Joined(Words(rest)));
        } else {
          JoinedCons([s[0]], Words(rest));
          JoinedNothing();
          UndashedParts([s[0]] + "-", Joined(Words(rest)));
          UndashedParts([s[0]], "-");
          UndashedChar('-');
        }
      }
    }
  }

  lemma UndashedChar(c: char)
    ensures Undashed([c]) == (if IsWordChar(c) then [c] else "") && Undashed("") == ""
  {
    assert [c][1..] == "" && Undashed("") == "";
  }

  predicate CleanDashes(s: string) {
    (s != "" ==> s[0] != '-') && forall i :: 0 <= i < |s| - 1 ==> !(s[i] == '-' && s[i + 1] == '-')
  }

  lemma {:induction false} JoinedIsClean(words: seq<string>)
    requires forall i :: 0 <= i < |words| ==> IsWord(words[i])
    ensures CleanDashes(Joined(words))
  {
    if |words| > 1 { JoinedIsClean(words[1..]); }
  }

  /**
   Without its dashes a slug is the beginning of the word characters of the
   lower-case text, all of them when it is shorter than 128; no dash is first or doubled.
   */
  lemma SlugKeepsCharacters(value: string)
    requires Words(Lower(value)) != []
    ensures Undashed(Slugify(value)) <= Undashed(Lower(value)) && CleanDashes(Slugify(value))
    ensures |Slugify(value)| < 128 ==> Undashed(Slugify(value)) == Undashed(Lower(value))
  {
    hide Slugify, Words, Undashed, Joined, Lower;
    var text := Joined(Words(Lower(value)));
    SlugIsWordsJoined(value);
    UndashedJoined(Lower(value));
    JoinedIsClean(Words(Lower(value)));
    if |text| > 128 {
      assert text == text[..128] + text[128..];
      UndashedParts(text[..128], text[128..]);
    }
  }

  function OrElse(s: Option<string>, other: string): string {
    if s.Some? && s.value != "" then s.value else other
  }

  function BaseCode(row: Row): (r: string)
    ensures IsSlug(r) && 1 <= |r| <= MAX_CODE
  {
    Slugify(OrElse(row.proxmoxName, OrElse(row.name, "template-" + Decimal(row.id))))
  }

  /** Where the base comes from: the first non-empty of the Proxmox name, the name and the id. */
  lemma BaseCodeOf(row: Row)
    ensures row.proxmoxName.Some? && row.proxmoxName.value != "" ==> BaseCode(row) == Slugify(row.proxmoxName.value)
    ensures (row.proxmoxName.None? || row.proxmoxName.value == "") && row.name.Some? && row.name.value != "" ==>
              BaseCode(row) == Slugify(row.name.value)
    ensures (row.proxmoxName.None? || row.proxmoxName.value == "") && (row.name.None? || row.name.value == "") ==>
              BaseCode(row) == Slugify("template-" + Decimal(row.id))
  {
    hide Slugify, Decimal;
  }

  /** The code after the loop body ran with counter `n`. */
  function Candidate(base: string, n: nat): (r: string)
    ensures EndsWith(r, "-" + Decimal(n))
    ensures IsSlug(base) ==> IsSlug(r)
  {
    var suffix := "-" + Decimal(n);
    var room := if MAX_CODE - |suffix| > 1 then MAX_CODE - |suffix| else 1;
    Prefix(base, room) + suffix
  }

  /** A numbered candidate is the base and its number where that fits, else it fills the column. */
  lemma CandidateOf(base: string, n: nat)
    requires 1 <= |base| <= 128 && |Decimal(n)| <= 126
    ensures var suffix := "-" + Decimal(n);
            if |base| + |suffix| <= 128 then Candidate(base, n) == base + suffix
            else Candidate(base, n) == base[..128 - |suffix|] + suffix && |Candidate(base, n)| == 128
  {
  }

  /** The code held after `k` rounds of the search loop. */
  function Attempt(base: string, k: nat): string {
    if k == 0 then base else Candidate(base, k + 1)
  }

  /** The first `k` attempts are all used. */
  ghost predicate AllTaken(base: string, used: set<string>, k: nat) {
    forall j :: 0 <= j < k ==> Attempt(base, j) in used
  }

  lemma CandidateInjective(base: string, m: nat, n: nat)
    requires Candidate(base, m) == Candidate(base, n)
    ensures m == n
  {
    hide Candidate, Decimal;
    var c := Candidate(base, m);
    var (tm, tn) := (Decimal(m), Decimal(n));
    var (hm, hn) := (c[..|c| - |tm| - 1], c[..|c| - |tn| - 1]);
    assert c == hm + ['-'] + tm && c == hn + ['-'] + tn by {
      assert ("-" + tm)[1..] == tm && ("-" + tn)[1..] == tn;
      assert c[|c| - |tm| - 1..] == "-" + tm && c[|c| - |tn| - 1..] == "-" + tn;
    }
    SplitLastAt(hm, '-', tm);
    SplitLastAt(hn, '-', tn);
    DecimalInjective(m, n);
  }

  /** The base is one of its own numbered candidates: 128 characters ending in "-n". */
  ghost predicate IsOwnCandidate(base: string) {
    exists n: nat :: n >= 2 && Candidate(base, n) == base
  }

  /**
   The search gives up no later than |used| + 1 rounds in, so the counter `n`
   ends at most at |used| + 3; it is |used| + 2 unless the base is its own candidate.
   */
  lemma RoundsBounded(base: string, used: set<string>, k: nat)
    requires AllTaken(base, used, k)
    ensures k <= |used| + 1
    ensures !IsOwnCandidate(base) ==> k <= |used|
  {
    var all := seq(k, j requires 0 <= j < k => Attempt(base, j));
    forall i, j | 1 <= i < j < k ensures all[i] != all[j] {
      if all[i] == all[j] { CandidateInjective(base, i + 1, j + 1); }
    }
    if k > 0 {
      Pigeonhole(all[1..], used);
      if !IsOwnCandidate(base) {
        assert Distinct(all) by {
          forall j | 1 <= j < k ensures all[0] != all[j] {
            assert all[j] == Candidate(base, j + 1);
          }
        }
        Pigeonhole(all, used);
      }
    }
  }

  /** When a base is its own candidate, in terms a caller can see. */
  lemma OwnCandidateIff(base: string, n: nat)
    requires 1 <= |base| <= MAX_CODE
    ensures Candidate(base, n) == base <==>
            |base| == MAX_CODE && |Decimal(n)| <= MAX_CODE - 2 && EndsWith(base, "-" + Decimal(n))
  {
    var suffix := "-" + Decimal(n);
    if |base| == MAX_CODE && |suffix| < MAX_CODE && EndsWith(base, suffix) {
      assert base == base[..MAX_CODE - |suffix|] + suffix;
    }
  }

  /** The codes that the rounds from the second on try first. */
  function Numbered(base: string, k: nat): seq<string> {
    seq(k, j requires 0 <= j < k => Attempt(base, j + 1))
  }

  lemma BaseComesRound(base: string, n: nat)
    requires n >= 2 && Candidate(base, n) == base
    ensures Attempt(base, 0) == Attempt(base, n - 1) == base
  {
    hide Candidate;
  }

  /** With the numbered candidates up to its own in use, a base needs one round more than there are codes. */
  lemma OwnCandidateNeedsMore(base: string, n: nat)
    requires n >= 2 && Candidate(base, n) == base
    ensures var used := Members(Numbered(base, n - 1)); AllTaken(base, used, n) && |used| < n
  {
    hide Candidate, Attempt;
    var s := Numbered(base, n - 1);
    MembersAtMost(s);
    BaseComesRound(base, n);
    forall j | 0 <= j < n ensures Attempt(base, j) in Members(s) {
      assert s[if j == 0 then n - 2 else j - 1] == Attempt(base, j);
    }
  }

  /** Two attempts of such a base agree only when they are the base and its own candidate. */
  lemma AttemptsDiffer(base: string, n: nat, j: nat, k: nat)
    requires n >= 2 && Candidate(base, n) == base && j < k && !(j == 0 && k == n - 1)
    ensures Attempt(base, j) != Attempt(base, k)
  {
    hide Candidate;
    if Attempt(base, j) == Attempt(base, k) {
      CandidateInjective(base, if j == 0 then n else j + 1, k + 1);
    }
  }

  /** The search never needs more rounds than there are codes in use, exactly for these bases. */
  lemma RoundsAtMostUsedIff(base: string)
    ensures (forall used: set<string>, k: nat :: AllTaken(base, used, k) ==> k <= |used|) <==> !IsOwnCandidate(base)
  {
    if IsOwnCandidate(base) {
      var n: nat :| n >= 2 && Candidate(base, n) == base;
      OwnCandidateNeedsMore(base, n);
    } else {
      forall used: set<string>, k: nat | AllTaken(base, used, k) ensures k <= |used| {
        RoundsBounded(base, used, k);
      }
    }
  }

  /** The code the loop leaves with, from round `k` on. */
  ghost function FreshCode(base: string, used: set<string>, k: nat): (code: string)
    requires AllTaken(base, used, k)
    ensures code !in used
    ensures exists n: nat :: n <= |used| + 1 && code == Attempt(base, n)
    decreases |used| + 2 - k
  {
    RoundsBounded(base, used, k);
    if Attempt(base, k) in used then
      RoundsBounded(base, used, k + 1);
      FreshCode(base, used, k + 1)
    else Attempt(base, k)
  }

  ghost function Members<T>(s: seq<T>): set<T> {
    set x | x in s
  }

  /** The codes the migration assigns, in row order. */
  ghost function Codes(rows: seq<Row>): (codes: seq<string>)
    ensures |codes| == |rows|
  {
    if rows == [] then []
    else
      var before := Codes(rows[..|rows| - 1]);
      before + [FreshCode(BaseCode(rows[|rows| - 1]), Members(before), 0)]
  }

  lemma {:induction false} MembersAtMost<T>(s: seq<T>)
    ensures |Members(s)| <= |s|
  {
    if s == [] {
      assert Members(s) == {};
    } else {
      var front := s[..|s| - 1];
      MembersAtMost(front);
      assert Members(s) == Members(front) + {s[|s| - 1]};
    }
  }

  lemma MembersSnoc<T>(s: seq<T>, x: T)
    ensures Members(s + [x]) == Members(s) + {x}
  {
  }

  lemma CodesSnoc(rows: seq<Row>, i: nat)
    requires i < |rows|
    ensures Codes(rows[..i + 1]) ==
            Codes(rows[..i]) + [FreshCode(BaseCode(rows[i]), Members(Codes(rows[..i])), 0)]
  {
    assert rows[..i + 1][..i] == rows[..i];
  }

  lemma AttemptFits(base: string, k: nat, bound: nat)
    requires IsSlug(base) && 1 <= |base| <= MAX_CODE
    requires k + 1 <= bound && |Decimal(bound)| <= MAX_CODE - 2
    ensures IsSlug(Attempt(base, k)) && 1 <= |Attempt(base, k)| <= MAX_CODE
  {
    DecimalLengthMonotone(k + 1, bound);
  }

  /** No two codes are equal, so the unique index can be created. */
  lemma {:induction false} CodesDistinct(rows: seq<Row>)
    ensures Distinct(Codes(rows))
  {
    if rows != [] {
      var front := rows[..|rows| - 1];
      CodesDistinct(front);
      assert forall i :: 0 <= i < |front| ==> Codes(rows)[i] in Members(Codes(front));
    }
  }

  /** Every code is a non-empty slug that fits the String(128) column. */
  lemma {:induction false} CodesFit(rows: seq<Row>)
    requires |Decimal(|rows| + 1)| <= MAX_CODE - 2
    ensures forall i :: 0 <= i < |rows| ==> IsSlug(Codes(rows)[i]) && 1 <= |Codes(rows)[i]| <= MAX_CODE
  {
    hide Attempt, BaseCode, Decimal;
    if rows != [] {
      var front := rows[..|rows| - 1];
      DecimalLengthMonotone(|front| + 1, |rows| + 1);
      CodesFit(front);
      var base := BaseCode(rows[|rows| - 1]);
      MembersAtMost(Codes(front));
      var k: nat :| k <= |Members(Codes(front))| + 1 && Codes(rows)[|front|] == Attempt(base, k);
      AttemptFits(base, k, |rows| + 1);
    }
  }

  /** Rows with one base get its attempts in order, until the base comes round as its own candidate. */
  lemma {:induction false} SameBaseCodes(rows: seq<Row>, base: string, n: nat)
    requires n >= 2 && Candidate(base, n) == base && |rows| < n
    requires forall i :: 0 <= i < |rows| ==> BaseCode(rows[i]) == base
    ensures forall i :: 0 <= i < |rows| ==> Codes(rows)[i] == Attempt(base, i)
  {
    hide Candidate, Attempt, BaseCode, FreshCode, AllTaken;
    if rows != [] {
      var k := |rows| - 1;
      var front := rows[..k];
      SameBaseCodes(front, base, n);
      NextCode(base, n, k, Codes(front));
      assert BaseCode(rows[k]) == base;
    }
  }

  /** With the first `k` attempts in use the search leaves with the next one. */
  lemma NextCode(base: string, n: nat, k: nat, codes: seq<string>)
    requires n >= 2 && Candidate(base, n) == base && k < n - 1 && |codes| == k
    requires forall i :: 0 <= i < k ==> codes[i] == Attempt(base, i)
    ensures FreshCode(base, Members(codes), 0) == Attempt(base, k)
  {
    hide Candidate, Attempt, FreshCode;
    var used := Members(codes);
    forall j | 0 <= j < k ensures Attempt(base, j) in used && Attempt(base, j) != Attempt(base, k) {
      assert codes[j] in used;
      AttemptsDiffer(base, n, j, k);
    }
    FreshAt(base, used, k);
  }

  /** The search from the start leaves with the first attempt that is not used. */
  lemma FreshAt(base: string, used: set<string>, k: nat)
    requires AllTaken(base, used, k) && Attempt(base, k) !in used
    ensures FreshCode(base, used, 0) == Attempt(base, k)
  {
    FreshCodeFound(base, used, k);
    hide Candidate, Attempt, FreshCode;
    var j := k;
    while j > 0
      invariant 0 <= j <= k && AllTaken(base, used, j) && FreshCode(base, used, j) == Attempt(base, k)
    {
      FreshCodeStep(base, used, j - 1);
      j := j - 1;
    }
  }

  /**
   Every base that is its own candidate for `n` reaches the larger bound: of `n`
   rows with that base the last one needs `n` rounds, with `n - 1` codes in use.
   */
  lemma LargerBoundReached(rows: seq<Row>, base: string, n: nat)
    requires n >= 2 && Candidate(base, n) == base && |rows| == n
    requires forall i :: 0 <= i < n ==> BaseCode(rows[i]) == base
    ensures var used := Members(Codes(rows[..n - 1]));
            |used| == n - 1 && AllTaken(base, used, n) && Codes(rows)[n - 1] == Attempt(base, |used| + 1)
  {
    hide Candidate, Attempt, BaseCode, FreshCode;
    var front := rows[..n - 1];
    var codes := Codes(front);
    var used := Members(codes);
    BaseComesRound(base, n);
    SameBaseCodes(front, base, n);
    CodesDistinct(front);
    MembersAtMost(codes);
    Pigeonhole(codes, used);
    forall j | 0 <= j < n ensures Attempt(base, j) in used && Attempt(base, j) != Attempt(base, n) {
      assert codes[if j == n - 1 then 0 else j] in used;
      AttemptsDiffer(base, n, j, n);
    }
    FreshAt(base, used, n);
    assert BaseCode(rows[n - 1]) == base;
  }

  /** A code is too long exactly when its counter has more than 126 digits. */
  lemma CandidateFitsIff(base: string, n: nat)
    requires 1 <= |base| <= MAX_CODE
    ensures |Candidate(base, n)| <= MAX_CODE <==> |Decimal(n)| <= MAX_CODE - 2
  {
    assert Prefix(base, 1) == [base[0]];
  }

  /** One more round of the search, for the loop below. */
  lemma FreshCodeStep(base: string, used: set<string>, k: nat)
    requires AllTaken(base, used, k) && Attempt(base, k) in used
    ensures AllTaken(base, used, k + 1) && k <= |used|
    ensures FreshCode(base, used, k) == FreshCode(base, used, k + 1)
    ensures Attempt(base, k + 1) == Candidate(base, k + 2)
  {
    hide Candidate;
    RoundsBounded(base, used, k + 1);
  }

  lemma FreshCodeFound(base: string, used: set<string>, k: nat)
    requires AllTaken(base, used, k) && Attempt(base, k) !in used
    ensures FreshCode(base, used, k) == Attempt(base, k)
    ensures k <= |used| + 1 && (!IsOwnCandidate(base) ==> k <= |used|)
  {
    RoundsBounded(base, used, k);
  }

  lemma FirstAttempt(base: string, used: set<string>)
    ensures Attempt(base, 0) == base && AllTaken(base, used, 0)
  {
  }

  /** The search loop of the upgrade: the first free attempt, with the counter it stops at. */
  method FindCode(base: string, used: set<string>) returns (code: string, n: nat)
    ensures code == FreshCode(base, used, 0) && code !in used
    ensures 2 <= n <= |used| + 3
    ensures !IsOwnCandidate(base) ==> n <= |used| + 2
  {
    FirstAttempt(base, used);
    code, n := base, 2;
    hide *;
    while code in used
      invariant n >= 2 && code == Attempt(base, n - 2) && AllTaken(base, used, n - 2)
      invariant FreshCode(base, used, 0) == FreshCode(base, used, n - 2)
      decreases |used| + 3 - n
    {
      FreshCodeStep(base, used, n - 2);
      code, n := Candidate(base, n), n + 1;
    }
    FreshCodeFound(base, used, n - 2);
  }

  /** The `code` column the UPDATE statements leave, last write winning. */
  ghost function Column(rows: seq<Row>, codes: seq<string>): map<nat, string>
    requires |codes| == |rows|
  {
    if rows == [] then map[]
    else
      var last := |rows| - 1;
      Column(rows[..last], codes[..last])[rows[last].id := codes[last]]
  }

  /** Ids are primary keys, so every row ends up with its own code. */
  lemma {:induction false} ColumnHoldsEveryCode(rows: seq<Row>, codes: seq<string>, i: nat)
    requires |codes| == |rows| && i < |rows|
    requires forall i, j :: 0 <= i < j < |rows| ==> rows[i].id != rows[j].id
    ensures rows[i].id in Column(rows, codes) && Column(rows, codes)[rows[i].id] == codes[i]
  {
    var last := |rows| - 1;
    if i < last {
      assert rows[i].id != rows[last].id;
      ColumnHoldsEveryCode(rows[..last], codes[..last], i);
    }
  }

  /** The data loop of the upgrade. */
  method AssignCodes(rows: seq<Row>) returns (column: map<nat, string>)
    ensures column == Column(rows, Codes(rows))
  {
    column := map[];
    var used: set<string> := {};
    ghost var codes: seq<string> := [];
    for i := 0 to |rows|
      invariant codes == Codes(rows[..i]) && used == Members(codes)
      invariant column == Column(rows[..i], codes)
    {
      var code, _ := FindCode(BaseCode(rows[i]), used);
      CodesSnoc(rows, i);
      MembersSnoc(codes, code);
      assert rows[..i + 1][..i] == rows[..i] && (codes + [code])[..i] == codes;
      used := used + {code};
      column := column[rows[i].id := code];
      codes := codes + [code];
    }
    assert rows[..|rows|] == rows;
  }
}
