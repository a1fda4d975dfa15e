/**
 Variable substitution in install scripts: for each variable in turn the code
 rewrites `${V}`, then `${V:-default}`, then `$V`. This module says when that
 sequence of rewrites is one left-to-right substitution, when the order of the
 variables does not matter, and how either fails otherwise.
 */
module ScriptSubstitution {
  import opened PyText

  /** The three spellings of a reference. */
  datatype Form = Braced | Defaulted | Bare

  /** A variable name that cannot be confused with the reference syntax around it. */
  predicate IsName(v: string) {
    v != "" && forall i :: 0 <= i < |v| ==> v[i] != '$' && v[i] != '{' && v[i] != '}' && v[i] != ':'
  }

  /** The fixed text every reference to `v` in this form starts with. */
  function Head(v: string, f: Form): string {
    match f
    case Braced => "${" + v + "}"
    case Defaulted => "${" + v + ":-"
    case Bare => "$" + v
  }

  /** How much of `s` the pattern for (v, f) matches at its start; 0 is no match. */
  function MatchLen(s: string, v: string, f: Form): (n: nat)
    ensures n <= |s|
    ensures n > 0 ==> Head(v, f) <= s && |Head(v, f)| <= n
    ensures n > 0 ==> s[0] == '$'
  {
    var head := Head(v, f);
    if !(head <= s) then 0
    else if f.Defaulted? then
      var close := FirstIndex(s[|head|..], '}');
      if |head| + close == |s| then 0 else |head| + close + 1
    else |head|
  }

  /** `str.replace` and `re.sub`: leftmost matches, not rescanning what was put in. */
  function ReplaceAll(s: string, v: string, f: Form, x: string): string {
    if s == "" then ""
    else
      var n := MatchLen(s, v, f);
      if n > 0 then x + ReplaceAll(s[n..], v, f, x) else [s[0]] + ReplaceAll(s[1..], v, f, x)
  }

  predicate IsAsciiLetter(c: char) {
    'a' <= c <= 'z' || 'A' <= c <= 'Z'
  }

  /**
   The text `re.sub` inserts for the replacement string `x`, which it reads as a
   template: backslash escapes are processed, and a bad escape raises (None).
   Octal escapes and group references are not modelled and count as bad here.
   */
  function ReTemplate(x: string): Option<string> {
    if x == "" then Some("")
    else if x[0] != '\\' then
      match ReTemplate(x[1..]) case None => None case Some(r) => Some([x[0]] + r)
    else if |x| == 1 || IsDigit(x[1]) then None
    else
      var piece := match x[1]
        case '\\' => "\\"
        case 'a' => "\U{7}"
        case 'b' => "\U{8}"
        case 'f' => "\U{c}"
        case 'n' => "\n"
        case 'r' => "\r"
        case 't' => "\t"
        case 'v' => "\U{b}"
        case c => if IsAsciiLetter(c) then "" else x[..2];
      if piece == "" then None
      else match ReTemplate(x[2..]) case None => None case Some(r) => Some(piece + r)
  }

  lemma {:induction false} TemplateKeepsPlain(x: string)
    requires '\\' !in x
    ensures ReTemplate(x) == Some(x)
  {
    if x != "" {
      TemplateKeepsPlain(x[1..]);
      assert x == [x[0]] + x[1..];
    }
  }

  type Table = map<string, string>

  /** The text that replaces a reference: `re.sub` inserts the processed template. */
  function Value(table: Table, v: string, f: Form): string
    requires v in table && ReTemplate(table[v]).Some?
  {
    if f.Defaulted? then ReTemplate(table[v]).value else table[v]
  }

  /** The loop body for one variable; None is a raised `re.error`. */
  function SubstituteOne(s: string, v: string, x: string): Option<string> {
    var braced := ReplaceAll(s, v, Braced, x);
    match ReTemplate(x)
    case None => None
    case Some(t) => Some(ReplaceAll(ReplaceAll(braced, v, Defaulted, t), v, Bare, x))
  }

  /** The whole loop, over the variables in dictionary order. */
  function Sequential(s: string, order: seq<string>, table: Table): Option<string>
    requires forall i :: 0 <= i < |order| ==> order[i] in table
    decreases |order|
  {
    if order == [] then Some(s)
    else match SubstituteOne(s, order[0], table[order[0]])
      case None => None
      case Some(t) => Sequential(t, order[1..], table)
  }

  /** How `s` starts with a reference to `v`, if it does. */
  function FormAt(s: string, v: string): (r: Option<Form>)
    ensures r.Some? ==> MatchLen(s, v, r.value) > 0
    ensures r.None? ==> forall f :: MatchLen(s, v, f) == 0
  {
    if MatchLen(s, v, Braced) > 0 then Some(Braced)
    else if MatchLen(s, v, Defaulted) > 0 then Some(Defaulted)
    else if MatchLen(s, v, Bare) > 0 then Some(Bare)
    else None
  }

  /** The reference at the start of `s`, if there is one; of several variables the first in `order` counts. */
  function RefAt(s: string, order: seq<string>): (r: Option<(string, Form)>)
    ensures r.Some? ==> r.value.0 in order && MatchLen(s, r.value.0, r.value.1) > 0
    ensures r.None? ==> forall v, f :: v in order ==> MatchLen(s, v, f) == 0
  {
    if order == [] then None
    else match FormAt(s, order[0])
      case Some(f) => Some((order[0], f))
      case None => RefAt(s, order[1..])
  }

  ghost predicate GoodTable(table: Table) {
    forall v :: v in table ==> ReTemplate(table[v]).Some?
  }

  /** One left-to-right pass that replaces every reference it meets. */
  function Simultaneous(s: string, order: seq<string>, table: Table): string
    requires GoodTable(table) && forall v :: v in order ==> v in table
  {
    if s == "" then ""
    else match RefAt(s, order)
      case None => [s[0]] + Simultaneous(s[1..], order, table)
      case Some((v, f)) => Value(table, v, f) + Simultaneous(s[MatchLen(s, v, f)..], order, table)
  }

  // ----- when the two agree -----

  /** Neither text can be continued into, or already contains, the other. */
  ghost predicate Unrelated(t: string, names: seq<string>) {
    forall v, f :: v in names ==> !(t <= Head(v, f)) && !(Head(v, f) <= t)
  }

  /** No `$` in a value starts, or could be continued into, a reference. */
  ghost predicate Inert(x: string, names: seq<string>) {
    x == "" || ((x[0] == '$' ==> Unrelated(x, names)) && Inert(x[1..], names))
  }

  ghost predicate InertTable(table: Table, names: seq<string>) {
    && GoodTable(table)
    && forall v, f :: v in table ==> Inert(Value(table, v, f), names)
  }

  predicate AllNames(names: seq<string>) {
    forall v :: v in names ==> IsName(v)
  }

  ghost predicate PrefixFree(names: set<string>) {
    && (forall v :: v in names ==> IsName(v))
    && (forall v, w :: v in names && w in names && v <= w ==> v == w)
  }

  datatype Token = Lit(c: char) | Ref(v: string, f: Form, source: string)

  function Scan(s: string, order: seq<string>): seq<Token> {
    if s == "" then []
    else match RefAt(s, order)
      case None => [Lit(s[0])] + Scan(s[1..], order)
      case Some((v, f)) =>
        var n := MatchLen(s, v, f);
        [Ref(v, f, s[..n])] + Scan(s[n..], order)
  }

  function TokenText(t: Token): string {
    match t case Lit(c) => [c] case Ref(_, _, source) => source
  }

  function Source(toks: seq<Token>): string {
    if toks == [] then "" else TokenText(toks[0]) + Source(toks[1..])
  }

  /** The literal text up to the next reference. */
  function Run(toks: seq<Token>): string {
    if toks == [] || toks[0].Ref? then "" else [toks[0].c] + Run(toks[1..])
  }

  predicate RefFollows(toks: seq<Token>) {
    toks != [] && (toks[0].Ref? || RefFollows(toks[1..]))
  }

  /**
   The script condition: no `$` inside a default, and no unfinished reference
   (a literal `$...`, or a `$V`, that could be continued into another one) right
   before a reference.
   */
  ghost predicate Clear(toks: seq<Token>, names: seq<string>) {
    toks == [] ||
    (&& (toks[0].Ref? ==> toks[0].source != "" && '$' !in toks[0].source[1..])
     && (toks[0] == Lit('$') && RefFollows(toks) ==> Unrelated(Run(toks), names))
     && (toks[0].Ref? && toks[0].f.Bare? && RefFollows(toks[1..]) ==>
           forall w :: w in names && w != toks[0].v ==> !(toks[0].source + Run(toks[1..]) < Head(w, Bare)))
     && Clear(toks[1..], names))
  }

  ghost predicate ClearScript(s: string, order: seq<string>) {
    Clear(Scan(s, order), order)
  }

  /** What scanning guarantees about its tokens. */
  predicate Scanned(toks: seq<Token>, order: seq<string>) {
    toks == [] ||
    (&& (match toks[0]
         case Lit(_) => RefAt(Source(toks), order) == None
         case Ref(v, f, source) => RefAt(Source(toks), order) == Some((v, f)) && 0 < MatchLen(source, v, f) == |source|)
     && Scanned(toks[1..], order))
  }

  lemma MatchLenOfPart(s: string, v: string, f: Form)
    requires MatchLen(s, v, f) > 0
    ensures MatchLen(s[..MatchLen(s, v, f)], v, f) == MatchLen(s, v, f)
  {
    var n := MatchLen(s, v, f);
    var head := Head(v, f);
    assert head <= s[..n];
    if f.Defaulted? {
      var close := FirstIndex(s[|head|..], '}');
      FirstIndexIs(s[..n][|head|..], '}', close);
    }
  }

  lemma {:induction false} FirstIndexIs(s: string, c: char, i: nat)
    requires i < |s| && s[i] == c && forall j :: 0 <= j < i ==> s[j] != c
    ensures FirstIndex(s, c) == i
  {
    if i > 0 { FirstIndexIs(s[1..], c, i - 1); }
  }

  lemma MatchLenExtends(s: string, r: string, v: string, f: Form)
    requires 0 < MatchLen(s, v, f)
    ensures MatchLen(s + r, v, f) == MatchLen(s, v, f)
  {
    var head := Head(v, f);
    assert head <= s + r;
    if f.Defaulted? {
      assert (s + r)[|head|..] == s[|head|..] + r;
      FirstIndexIs((s + r)[|head|..], '}', FirstIndex(s[|head|..], '}'));
    }
  }

  lemma {:induction false} ScanIsScanned(s: string, order: seq<string>)
    ensures Scanned(Scan(s, order), order) && Source(Scan(s, order)) == s
    decreases |s|
  {
    hide MatchLen, RefAt;
    if s != "" {
      match RefAt(s, order)
      case None =>
        ScanIsScanned(s[1..], order);
        assert Source(Scan(s, order)) == s;
      case Some((v, f)) =>
        var n := MatchLen(s, v, f);
        MatchLenOfPart(s, v, f);
        ScanIsScanned(s[n..], order);
        assert s[..n] + s[n..] == s;
        assert Source(Scan(s, order)) == s;
    }
  }

  lemma NameAt(s: string, v: string, f: Form)
    requires Head(v, f) <= s && v != ""
    ensures var at := if f.Bare? then 1 else 2;
            && |s| >= at + |v| && s[at..at + |v|] == v
            && (!f.Bare? ==> s[1] == '{' && |s| > at + |v| && s[at + |v|] == if f.Braced? then '}' else ':')
            && (f.Bare? ==> s[1] == v[0])
  {
    var head := Head(v, f);
    var at := if f.Bare? then 1 else 2;
    assert s[..|head|] == head;
    assert head[at..at + |v|] == v;
    assert s[at..at + |v|] == head[at..at + |v|];
    if !f.Bare? {
      assert s[at + |v|] == head[at + |v|];
    }
  }

  /** Two references start at the same place only when both are bare and one name continues the other. */
  lemma HeadsOverlap(s: string, v: string, f: Form, w: string, g: Form)
    requires IsName(v) && IsName(w) && Head(v, f) <= s && Head(w, g) <= s
    ensures (v == w && f == g) || (f.Bare? && g.Bare? && (v <= w || w <= v))
  {
    hide Head;
    NameAt(s, v, f);
    NameAt(s, w, g);
    assert f.Bare? <==> g.Bare?;
    var at := if f.Bare? then 1 else 2;
    if |v| <= |w| { NamesOverlap(s, v, w, at); } else { NamesOverlap(s, w, v, at); }
  }

  lemma NamesOverlap(s: string, v: string, w: string, at: nat)
    requires |v| <= |w| && |s| >= at + |w| && s[at..at + |v|] == v && s[at..at + |w|] == w
    ensures v <= w && (|v| < |w| ==> w[|v|] == s[at + |v|]) && (|v| == |w| ==> v == w)
  {
    assert v == s[at..at + |w|][..|v|];
  }

  /** Among names that are prefixes of each other nowhere, two references cannot start at the same place. */
  lemma HeadsClash(s: string, v: string, f: Form, w: string, g: Form, names: set<string>)
    requires PrefixFree(names) && v in names && w in names
    requires Head(v, f) <= s && Head(w, g) <= s
    ensures v == w && f == g
  {
    HeadsOverlap(s, v, f, w, g);
  }

  /** The pattern matches at no position of `u` when `r` follows. */
  predicate NoMatchIn(u: string, r: string, v: string, f: Form) {
    u == "" || (MatchLen(u + r, v, f) == 0 && NoMatchIn(u[1..], r, v, f))
  }

  lemma ReplaceAllSkips(s: string, v: string, f: Form, x: string)
    requires s != "" && MatchLen(s, v, f) == 0
    ensures ReplaceAll(s, v, f, x) == [s[0]] + ReplaceAll(s[1..], v, f, x)
  {
    hide MatchLen;
  }

  /** Such text is copied. */
  lemma {:induction false} PassThrough(u: string, r: string, v: string, f: Form, x: string)
    requires NoMatchIn(u, r, v, f)
    ensures ReplaceAll(u + r, v, f, x) == u + ReplaceAll(r, v, f, x)
  {
    hide MatchLen, ReplaceAll;
    if u == "" {
      assert u + r == r;
    } else {
      PassThrough(u[1..], r, v, f, x);
      ReplaceAllSkips(u + r, v, f, x);
      assert (u + r)[1..] == u[1..] + r;
      assert u == [u[0]] + u[1..];
    }
  }

  lemma {:induction false} NoMatchWithoutDollar(u: string, r: string, v: string, f: Form)
    requires '$' !in u
    ensures NoMatchIn(u, r, v, f)
  {
    if u != "" { NoMatchWithoutDollar(u[1..], r, v, f); }
  }

  lemma {:induction false} NoMatchInInert(u: string, r: string, v: string, f: Form, names: seq<string>)
    requires v in names && Inert(u, names)
    ensures NoMatchIn(u, r, v, f)
  {
    if u != "" {
      if u[0] == '$' { NoMatchUnrelated(u, r, v, f, names); }
      NoMatchInInert(u[1..], r, v, f, names);
    }
  }

  lemma NoMatchUnrelated(t: string, r: string, v: string, f: Form, names: seq<string>)
    requires v in names && Unrelated(t, names)
    ensures MatchLen(t + r, v, f) == 0
  {
    var head := Head(v, f);
    assert head <= t + r ==> head <= t || t <= head;
  }

  /** The script after the pairs in `done` have been replaced. */
  ghost function Render(toks: seq<Token>, done: set<(string, Form)>, table: Table): string
    requires GoodTable(table) && forall d :: d in done ==> d.0 in table
  {
    if toks == [] then ""
    else
      (match toks[0]
       case Lit(c) => [c]
       case Ref(v, f, source) => if (v, f) in done then Value(table, v, f) else source)
      + Render(toks[1..], done, table)
  }

  lemma {:induction false} RunRenders(toks: seq<Token>, done: set<(string, Form)>, table: Table) returns (r: string)
    requires GoodTable(table) && forall d :: d in done ==> d.0 in table
    ensures Render(toks, done, table) == Run(toks) + r
    ensures !RefFollows(toks) ==> Render(toks, done, table) == Source(toks)
  {
    if toks == [] || toks[0].Ref? {
      r := Render(toks, done, table);
    } else {
      r := RunRenders(toks[1..], done, table);
    }
  }

  lemma ReplaceDoneRef(val: string, rest: string, v: string, f: Form, x: string, names: seq<string>)
    requires v in names && Inert(val, names)
    ensures ReplaceAll(val + rest, v, f, x) == val + ReplaceAll(rest, v, f, x)
  {
    NoMatchInInert(val, rest, v, f, names);
    PassThrough(val, rest, v, f, x);
  }

  lemma ReplaceThisRef(source: string, rest: string, v: string, f: Form, x: string)
    requires 0 < MatchLen(source, v, f) == |source|
    ensures ReplaceAll(source + rest, v, f, x) == x + ReplaceAll(rest, v, f, x)
  {
    MatchLenExtends(source, rest, v, f);
    hide MatchLen;
    assert (source + rest)[|source|..] == rest;
  }

  /** Where `v` could be meant, it or a variable before it is. */
  lemma {:induction false} PickedBefore(s: string, front: seq<string>, v: string, tail: seq<string>, f: Form)
    requires MatchLen(s, v, f) > 0
    ensures var r := RefAt(s, front + [v] + tail); r.Some? && (r.value.0 in front || r.value.0 == v)
  {
    hide MatchLen;
    var order := front + [v] + tail;
    if front == [] {
      assert order[0] == v;
    } else {
      assert order[0] == front[0] && order[1..] == front[1..] + [v] + tail;
      PickedBefore(s, front[1..], v, tail, f);
    }
  }

  lemma RunStartsSource(toks: seq<Token>)
    ensures Run(toks) <= Source(toks)
  {
    if toks != [] && toks[0].Lit? { RunStartsSource(toks[1..]); }
  }

  /** At a reference that is still to be replaced no other variable matches when its turn has come. */
  lemma OtherRefNoMatch(
    toks: seq<Token>, done: set<(string, Form)>, table: Table,
    front: seq<string>, v: string, tail: seq<string>, f: Form)
    requires AllNames(front + [v] + tail) && GoodTable(table)
    requires forall d :: d in done ==> d.0 in table
    requires forall d :: d in Handled(front) ==> d in done
    requires toks != [] && Scanned(toks, front + [v] + tail) && Clear(toks, front + [v] + tail)
    requires toks[0].Ref? && (toks[0].v, toks[0].f) !in done && (toks[0].v, toks[0].f) != (v, f)
    ensures MatchLen(toks[0].source + Render(toks[1..], done, table), v, f) == 0
  {
    var order := front + [v] + tail;
    var Ref(w, g, source) := toks[0];
    var text := source + Render(toks[1..], done, table);
    HandledPairs(front);
    assert w !in front by { assert (w, g) !in Handled(front); }
    if Head(v, f) <= text {
      assert v in order && w in order;
      assert Head(w, g) <= source <= text;
      HeadsOverlap(text, v, f, w, g);
      BareHeadInSource(toks, done, table, order, v);
      PickedBefore(Source(toks), front, v, tail, Bare);
    }
  }

  /** A bare head found in the rendered script at a bare reference was there before. */
  lemma BareHeadInSource(
    toks: seq<Token>, done: set<(string, Form)>, table: Table, order: seq<string>, v: string)
    requires GoodTable(table) && forall d :: d in done ==> d.0 in table
    requires toks != [] && Clear(toks, order) && v in order
    requires toks[0].Ref? && toks[0].f.Bare? && toks[0].v != v
    requires Head(v, Bare) <= toks[0].source + Render(toks[1..], done, table)
    ensures MatchLen(Source(toks), v, Bare) > 0
  {
    var (source, rest) := (toks[0].source, toks[1..]);
    var head := Head(v, Bare);
    var text := source + Run(rest);
    var r := RunRenders(rest, done, table);
    assert source + Render(rest, done, table) == text + r;
    RunStartsSource(rest);
    if RefFollows(rest) {
      assert !(text < head);
      assert head <= text;
    }
    assert head <= Source(toks);
  }

  /** Replacing one pair in a rendered script renders it with one more pair done. */
  lemma {:induction false} ReplaceRendered(
    toks: seq<Token>, done: set<(string, Form)>, table: Table,
    front: seq<string>, v: string, tail: seq<string>, f: Form)
    requires AllNames(front + [v] + tail) && v in table && InertTable(table, front + [v] + tail)
    requires forall d :: d in done ==> d.0 in table
    requires forall d :: d in Handled(front) ==> d in done
    requires Scanned(toks, front + [v] + tail) && Clear(toks, front + [v] + tail)
    ensures ReplaceAll(Render(toks, done, table), v, f, Value(table, v, f)) == Render(toks, done + {(v, f)}, table)
  {
    if toks != [] {
      var x := Value(table, v, f);
      var rest := Render(toks[1..], done, table);
      ReplaceRendered(toks[1..], done, table, front, v, tail, f);
      match toks[0]
      case Lit(c) =>
        ReplaceLit(toks, done, table, front + [v] + tail, v, f, x);
      case Ref(w, g, source) =>
        hide ReplaceAll, Value;
        if (w, g) in done {
          ReplaceDoneRef(Value(table, w, g), rest, v, f, x, front + [v] + tail);
        } else if (w, g) == (v, f) {
          ReplaceThisRef(source, rest, v, f, x);
        } else {
          OtherRefNoMatch(toks, done, table, front, v, tail, f);
          NoMatchWithoutDollar(source[1..], rest, v, f);
          PassThrough(source, rest, v, f, x);
        }
    }
  }

  lemma ReplaceLit(
    toks: seq<Token>, done: set<(string, Form)>, table: Table, names: seq<string>, v: string, f: Form, x: string)
    requires GoodTable(table) && forall d :: d in done ==> d.0 in table
    requires v in names && toks != [] && toks[0].Lit? && Scanned(toks, names) && Clear(toks, names)
    ensures ReplaceAll(Render(toks, done, table), v, f, x) ==
            [toks[0].c] + ReplaceAll(Render(toks[1..], done, table), v, f, x)
  {
    var text := Render(toks, done, table);
    var r := RunRenders(toks, done, table);
    if toks[0].c == '$' && RefFollows(toks) { NoMatchUnrelated(Run(toks), r, v, f, names); }
    assert text == [toks[0].c] + Render(toks[1..], done, table);
    assert MatchLen(text, v, f) == 0;
    hide MatchLen;
    assert text[1..] == Render(toks[1..], done, table);
  }

  /** Pairs for the variables already handled. */
  ghost function Handled(order: seq<string>): set<(string, Form)> {
    if order == [] then {}
    else {(order[0], Braced), (order[0], Defaulted), (order[0], Bare)} + Handled(order[1..])
  }

  lemma {:induction false} HandledPairs(order: seq<string>)
    ensures forall d :: d in Handled(order) <==> d.0 in order
  {
    if order != [] {
      HandledPairs(order[1..]);
      assert order == [order[0]] + order[1..];
      forall d: (string, Form) ensures d in Handled(order) <==> d.0 in order {
        assert d.1 == Braced || d.1 == Defaulted || d.1 == Bare;
        assert d == (d.0, d.1);
      }
    }
  }

  /** The loop body for `v`, after the variables in `front` and before those in `after`. */
  lemma VariableRenders(
    toks: seq<Token>, done: set<(string, Form)>, table: Table, front: seq<string>, v: string, after: seq<string>)
    requires AllNames(front + [v] + after) && InertTable(table, front + [v] + after) && v in table
    requires forall d :: d in done ==> d.0 in table
    requires forall d :: d in Handled(front) ==> d in done
    requires Scanned(toks, front + [v] + after) && Clear(toks, front + [v] + after)
    ensures SubstituteOne(Render(toks, done, table), v, table[v]) ==
            Some(Render(toks, done + {(v, Braced), (v, Defaulted), (v, Bare)}, table))
  {
    hide ReplaceAll, Scanned, Clear, Render, Inert, AllNames, Handled, ReTemplate;
    var (d1, d2) := (done + {(v, Braced)}, done + {(v, Braced)} + {(v, Defaulted)});
    ReplaceRendered(toks, done, table, front, v, after, Braced);
    ReplaceRendered(toks, d1, table, front, v, after, Defaulted);
    ReplaceRendered(toks, d2, table, front, v, after, Bare);
    assert d2 + {(v, Bare)} == done + {(v, Braced), (v, Defaulted), (v, Bare)};
  }

  lemma HandledOneMore(front: seq<string>, v: string, done: set<(string, Form)>)
    requires forall d :: d in Handled(front) ==> d in done
    ensures forall d :: d in Handled(front + [v]) ==> d in done + {(v, Braced), (v, Defaulted), (v, Bare)}
  {
    hide Handled;
    HandledPairs(front);
    HandledPairs(front + [v]);
    forall d | d in Handled(front + [v]) ensures d in done + {(v, Braced), (v, Defaulted), (v, Bare)} {
      assert d == (d.0, d.1) && (d.0 in front ==> d in Handled(front));
      assert d.1 == Braced || d.1 == Defaulted || d.1 == Bare;
    }
  }

  /** The loop over `order`, after the variables in `front` and before those in `tail`. */
  lemma {:induction false} SequentialRenders(
    toks: seq<Token>, done: set<(string, Form)>, table: Table,
    front: seq<string>, order: seq<string>, tail: seq<string>)
    requires AllNames(front + order + tail) && InertTable(table, front + order + tail)
    requires forall d :: d in done ==> d.0 in table
    requires forall d :: d in Handled(front) ==> d in done
    requires forall i :: 0 <= i < |order| ==> order[i] in table
    requires Scanned(toks, front + order + tail) && Clear(toks, front + order + tail)
    ensures forall d :: d in Handled(order) ==> d.0 in table
    ensures Sequential(Render(toks, done, table), order, table) == Some(Render(toks, done + Handled(order), table))
    decreases |order|
  {
    hide SubstituteOne, Scanned, Clear, Render, Inert, AllNames, Value, ReTemplate;
    HandledPairs(order);
    if order == [] {
      assert done + Handled(order) == done;
    } else {
      var (v, rest) := (order[0], order[1..]);
      var next := done + {(v, Braced), (v, Defaulted), (v, Bare)};
      assert front + [v] + (rest + tail) == front + order + tail == (front + [v]) + rest + tail;
      VariableRenders(toks, done, table, front, v, rest + tail);
      HandledOneMore(front, v, done);
      SequentialRenders(toks, next, table, front + [v], rest, tail);
      assert next + Handled(rest) == done + Handled(order);
    }
  }

  lemma {:induction false} RenderNothing(toks: seq<Token>, table: Table)
    requires GoodTable(table)
    ensures Render(toks, {}, table) == Source(toks)
  {
    if toks != [] { RenderNothing(toks[1..], table); }
  }

  lemma {:induction false} RenderEverything(s: string, done: set<(string, Form)>, order: seq<string>, table: Table)
    requires GoodTable(table) && forall v :: v in order ==> v in table
    requires forall d :: d in done <==> d.0 in order
    ensures Render(Scan(s, order), done, table) == Simultaneous(s, order, table)
    decreases |s|
  {
    hide MatchLen, RefAt;
    if s != "" {
      match RefAt(s, order)
      case None =>
        RenderEverything(s[1..], done, order, table);
      case Some((v, f)) =>
        RenderEverything(s[MatchLen(s, v, f)..], done, order, table);
    }
  }

  /**
   The rewrite loop is one simultaneous substitution. Where several variables
   could be meant, which needs a `$V` whose name continues another, the one
   that comes first in the dictionary is.
   */
  lemma SequentialIsSimultaneous(s: string, order: seq<string>, table: Table)
    requires AllNames(order) && InertTable(table, order) && ClearScript(s, order)
    requires forall v :: v in table <==> v in order
    ensures Sequential(s, order, table) == Some(Simultaneous(s, order, table))
  {
    hide Sequential, Simultaneous, Scan, Scanned, Clear, Render, Inert, AllNames;
    var toks := Scan(s, order);
    ScanIsScanned(s, order);
    RenderNothing(toks, table);
    assert [] + order + [] == order;
    SequentialRenders(toks, {}, table, [], order, []);
    HandledPairs(order);
    assert {} + Handled(order) == Handled(order);
    RenderEverything(s, Handled(order), order, table);
  }

  // ----- what the substitution makes of each spelling -----

  /** Text without `$` is copied. */
  lemma {:induction false} PlainText(u: string, rest: string, order: seq<string>, table: Table)
    requires '$' !in u && GoodTable(table) && forall v :: v in order ==> v in table
    ensures Simultaneous(u + rest, order, table) == u + Simultaneous(rest, order, table)
  {
    hide RefAt, Value;
    if u == "" {
      assert u + rest == rest;
    } else {
      var s := u + rest;
      assert s[0] == u[0] != '$' && s[1..] == u[1..] + rest;
      NoRefWithoutDollar(s, order);
      PlainText(u[1..], rest, order, table);
      assert [u[0]] + (u[1..] + Simultaneous(rest, order, table)) == u + Simultaneous(rest, order, table);
    }
  }

  lemma NoRefWithoutDollar(s: string, order: seq<string>)
    requires s != "" && s[0] != '$'
    ensures RefAt(s, order) == None
  {
    hide RefAt;
    var r := RefAt(s, order);
  }

  /** `${V}` becomes the value. */
  lemma BracedText(v: string, rest: string, order: seq<string>, table: Table)
    requires AllNames(order) && v in order && GoodTable(table) && forall w :: w in order ==> w in table
    ensures Simultaneous("${" + v + "}" + rest, order, table) == table[v] + Simultaneous(rest, order, table)
  {
    hide RefAt;
    var (head, s) := ("${" + v + "}", "${" + v + "}" + rest);
    assert Head(v, Braced) == head <= s && s[|head|..] == rest && MatchLen(s, v, Braced) == |head|;
    OnlyRefAt(s, v, Braced, order);
  }

  /** `${V:-default}` becomes the value as `re.sub` inserts it, up to the first closing brace. */
  lemma DefaultedText(v: string, d: string, rest: string, order: seq<string>, table: Table)
    requires AllNames(order) && v in order && GoodTable(table) && forall w :: w in order ==> w in table
    requires '}' !in d
    ensures Simultaneous("${" + v + ":-" + d + "}" + rest, order, table) ==
            ReTemplate(table[v]).value + Simultaneous(rest, order, table)
  {
    hide RefAt;
    var (head, s) := ("${" + v + ":-", "${" + v + ":-" + d + "}" + rest);
    assert s == head + (d + "}" + rest);
    assert s[|head|..] == d + "}" + rest;
    FirstIndexIs(s[|head|..], '}', |d|);
    assert Head(v, Defaulted) == head <= s && MatchLen(s, v, Defaulted) == |head| + |d| + 1;
    assert s[|head| + |d| + 1..] == rest;
    OnlyRefAt(s, v, Defaulted, order);
  }

  /** `$V` becomes the value, unless another variable could be meant. */
  lemma BareText(v: string, rest: string, order: seq<string>, table: Table)
    requires AllNames(order) && v in order && GoodTable(table) && forall w :: w in order ==> w in table
    requires forall w :: w in order && "$" + w <= "$" + v + rest ==> w == v
    ensures Simultaneous("$" + v + rest, order, table) == table[v] + Simultaneous(rest, order, table)
  {
    hide RefAt;
    var (head, s) := ("$" + v, "$" + v + rest);
    assert Head(v, Bare) == head <= s && s[|head|..] == rest && MatchLen(s, v, Bare) == |head|;
    OnlyRefAt(s, v, Bare, order);
  }

  /** A reference that no other bare name competes with is the one found. */
  lemma OnlyRefAt(s: string, v: string, f: Form, order: seq<string>)
    requires AllNames(order) && v in order && MatchLen(s, v, f) > 0
    requires f.Bare? ==> forall w :: w in order && Head(w, Bare) <= s ==> w == v
    ensures RefAt(s, order) == Some((v, f))
  {
    hide RefAt;
    var r := RefAt(s, order);
    assert r.Some?;
    HeadsOverlap(s, v, f, r.value.0, r.value.1);
  }

  /** Any other `$` is copied: unknown names, unclosed braces and defaults, positional parameters. */
  lemma OtherDollar(s: string, order: seq<string>, table: Table)
    requires s != "" && s[0] == '$' && GoodTable(table) && forall v :: v in order ==> v in table
    requires forall v :: v in order ==>
               !("${" + v + "}" <= s) && !("$" + v <= s) && (!("${" + v + ":-" <= s) || '}' !in s[|v| + 4..])
    ensures Simultaneous(s, order, table) == "$" + Simultaneous(s[1..], order, table)
  {
    hide RefAt;
    forall v, f | v in order ensures MatchLen(s, v, f) == 0 {
      if f.Defaulted? && Head(v, f) <= s {
        assert |Head(v, f)| == |v| + 4;
      }
    }
    var r := RefAt(s, order);
    assert r == None;
  }

  /** What `re.sub` makes of the escapes in a value. */
  lemma TemplateEscapes(x: string, c: char)
    ensures ReTemplate("\\") == None
    ensures ReTemplate("\\\\" + x) == Inserted("\\", ReTemplate(x))
    ensures ReTemplate("\\n" + x) == Inserted("\n", ReTemplate(x))
    ensures ReTemplate("\\t" + x) == Inserted("\t", ReTemplate(x))
    ensures ReTemplate("\\r" + x) == Inserted("\r", ReTemplate(x))
    ensures c in ['`', '$', '"', ' '] ==> ReTemplate(['\\', c] + x) == Inserted(['\\', c], ReTemplate(x))
    ensures IsAsciiLetter(c) && c !in ['a', 'b', 'f', 'n', 'r', 't', 'v'] ==> ReTemplate(['\\', c] + x) == None
    ensures c != '\\' ==> ReTemplate([c] + x) == Inserted([c], ReTemplate(x))
  {
    assert ("\\\\" + x)[2..] == x && ("\\n" + x)[2..] == x && ("\\t" + x)[2..] == x && ("\\r" + x)[2..] == x;
    assert (['\\', c] + x)[2..] == x && (['\\', c] + x)[..2] == ['\\', c] && ([c] + x)[1..] == x;
  }

  function Inserted(piece: string, rest: Option<string>): Option<string> {
    match rest case None => None case Some(r) => Some(piece + r)
  }

  // ----- when the order of the variables does not matter -----

  /** At most one variable is named by a `$` at the start of `s` without braces. */
  ghost predicate OneBareAt(s: string, names: set<string>) {
    forall v, w :: v in names && w in names && Head(v, Bare) <= s && Head(w, Bare) <= s ==> v == w
  }

  /** No `$V` of the script is at the same time a `$W` with more behind it. */
  ghost predicate Unambiguous(s: string, names: set<string>) {
    forall i :: 0 <= i < |s| ==> OneBareAt(s[i..], names)
  }

  ghost predicate Lists(order: seq<string>, names: set<string>) {
    forall v :: v in order <==> v in names
  }

  lemma UnambiguousTail(s: string, n: nat, names: set<string>)
    requires Unambiguous(s, names) && n <= |s|
    ensures Unambiguous(s[n..], names)
  {
    forall i | 0 <= i < |s[n..]| ensures OneBareAt(s[n..][i..], names) {
      assert s[n..][i..] == s[n + i..];
    }
  }

  /** Where one variable at most is meant, every order finds it. */
  lemma SameRefAt(s: string, first: seq<string>, second: seq<string>, names: set<string>)
    requires AllNames(first) && Lists(first, names) && Lists(second, names) && OneBareAt(s, names)
    ensures RefAt(s, first) == RefAt(s, second)
  {
    hide RefAt;
    var (r, q) := (RefAt(s, first), RefAt(s, second));
    if r.Some? && q.Some? {
      HeadsOverlap(s, r.value.0, r.value.1, q.value.0, q.value.1);
    }
  }

  lemma {:induction false} SameScan(s: string, first: seq<string>, second: seq<string>, names: set<string>)
    requires AllNames(first) && Lists(first, names) && Lists(second, names) && Unambiguous(s, names)
    ensures Scan(s, first) == Scan(s, second)
    decreases |s|
  {
    hide RefAt, MatchLen, Unambiguous, Lists, AllNames;
    if s != "" {
      AtStart(s, names);
      SameRefAt(s, first, second, names);
      match RefAt(s, first)
      case None =>
        UnambiguousTail(s, 1, names);
        SameScan(s[1..], first, second, names);
      case Some((v, f)) =>
        UnambiguousTail(s, MatchLen(s, v, f), names);
        SameScan(s[MatchLen(s, v, f)..], first, second, names);
    }
  }

  lemma AtStart(s: string, names: set<string>)
    requires Unambiguous(s, names) && s != ""
    ensures OneBareAt(s, names)
  {
    assert s[0..] == s;
  }

  lemma {:induction false} SameSimultaneous(
    s: string, first: seq<string>, second: seq<string>, names: set<string>, table: Table)
    requires AllNames(first) && Lists(first, names) && Lists(second, names) && Unambiguous(s, names)
    requires GoodTable(table) && forall v :: v in names ==> v in table
    ensures Simultaneous(s, first, table) == Simultaneous(s, second, table)
    decreases |s|
  {
    hide RefAt, MatchLen, Unambiguous, AllNames, Value;
    if s != "" {
      AtStart(s, names);
      SameRefAt(s, first, second, names);
      match RefAt(s, first)
      case None =>
        UnambiguousTail(s, 1, names);
        SameSimultaneous(s[1..], first, second, names, table);
      case Some((v, f)) =>
        UnambiguousTail(s, MatchLen(s, v, f), names);
        SameSimultaneous(s[MatchLen(s, v, f)..], first, second, names, table);
    }
  }

  ghost predicate ClearInOrder(s: string, order: seq<string>) {
    AllNames(order) && ClearScript(s, order)
  }

  /** Dictionary order does not matter for an unambiguous script, in any order at all. */
  lemma OrderDoesNotMatter(s: string, first: seq<string>, second: seq<string>, table: Table)
    requires Lists(first, table.Keys) && Lists(second, table.Keys) && Unambiguous(s, table.Keys)
    requires ClearInOrder(s, first) && InertTable(table, first)
    ensures Sequential(s, second, table) == Sequential(s, first, table) == Some(Simultaneous(s, first, table))
  {
    hide Sequential, Simultaneous, Scan, Unambiguous;
    SameScan(s, first, second, table.Keys);
    SameSimultaneous(s, first, second, table.Keys, table);
    ClearListed(Scan(s, first), first, second);
    InertListed(table, first, second);
    SequentialIsSimultaneous(s, first, table);
    SequentialIsSimultaneous(s, second, table);
  }

  lemma {:induction false} ClearListed(toks: seq<Token>, first: seq<string>, second: seq<string>)
    requires Clear(toks, first) && forall v :: v in first <==> v in second
    ensures Clear(toks, second)
  {
    hide Head, Run, RefFollows;
    if toks != [] { ClearListed(toks[1..], first, second); }
  }

  lemma {:induction false} InertTextListed(x: string, first: seq<string>, second: seq<string>)
    requires Inert(x, first) && forall v :: v in first <==> v in second
    ensures Inert(x, second)
  {
    hide Head;
    if x != "" { InertTextListed(x[1..], first, second); }
  }

  lemma InertListed(table: Table, first: seq<string>, second: seq<string>)
    requires InertTable(table, first) && forall v :: v in first <==> v in second
    ensures InertTable(table, second)
  {
    hide Inert, Value;
    forall v, f | v in table ensures Inert(Value(table, v, f), second) {
      InertTextListed(Value(table, v, f), first, second);
    }
  }

  /** A variable that comes first in the order is the one meant wherever its bare name stands. */
  lemma FirstBareWins(s: string, v: string, rest: seq<string>)
    requires IsName(v) && Head(v, Bare) <= s
    ensures RefAt(s, [v] + rest) == Some((v, Bare)) && MatchLen(s, v, Bare) == |Head(v, Bare)|
  {
    NameAt(s, v, Bare);
    assert Head(v, Braced)[1] == '{' && Head(v, Defaulted)[1] == '{';
  }

  lemma NoDollarAfterFirst(u: string, k: nat)
    requires 0 < k < |u| && '$' !in u[1..]
    ensures u[k] != '$'
  {
    assert u[k] == u[1..][k - 1];
  }

  /** Before an ambiguous place two orders take the same token, which ends before it. */
  lemma SameStep(
    s: string, k: nat, first: seq<string>, second: seq<string>, names: set<string>) returns (n: nat)
    requires AllNames(first) && Lists(first, names) && Lists(second, names) && 0 < k < |s| && s[k] == '$'
    requires Clear(Scan(s, first), first) && forall i :: 0 <= i < k ==> OneBareAt(s[i..], names)
    ensures RefAt(s, first) == RefAt(s, second)
    ensures n == (match RefAt(s, first) case None => 1 case Some((v, f)) => MatchLen(s, v, f))
    ensures 0 < n <= k && Clear(Scan(s[n..], first), first)
  {
    hide RefAt, MatchLen, OneBareAt, AllNames, Unrelated, Head, Run, RefFollows;
    assert s[0..] == s && OneBareAt(s, names);
    SameRefAt(s, first, second, names);
    match RefAt(s, first)
    case None => n := 1;
    case Some((v, f)) =>
      n := MatchLen(s, v, f);
      assert Scan(s, first)[0] == Ref(v, f, s[..n]) && Scan(s, first)[1..] == Scan(s[n..], first);
      if k < n { NoDollarAfterFirst(s[..n], k); }
  }

  /** Up to the first ambiguous place two orders give the same text. */
  lemma {:induction false} SameUpTo(
    s: string, k: nat, first: seq<string>, second: seq<string>, names: set<string>, table: Table)
    returns (front: string)
    requires AllNames(first) && Lists(first, names) && Lists(second, names)
    requires GoodTable(table) && forall v :: v in names ==> v in table
    requires Clear(Scan(s, first), first) && k < |s| && s[k] == '$'
    requires forall i :: 0 <= i < k ==> OneBareAt(s[i..], names)
    ensures Simultaneous(s, first, table) == front + Simultaneous(s[k..], first, table)
    ensures Simultaneous(s, second, table) == front + Simultaneous(s[k..], second, table)
    decreases |s|
  {
    hide RefAt, MatchLen, OneBareAt, AllNames, Value, Clear, Scan, Simultaneous, ReTemplate;
    if k == 0 {
      front := "";
      assert s[0..] == s;
    } else {
      var n := SameStep(s, k, first, second, names);
      OneBareLater(s, n, k, names);
      assert s[n..][k - n..] == s[k..];
      var later := SameUpTo(s[n..], k - n, first, second, names, table);
      SimultaneousStep(s, first, table);
      SimultaneousStep(s, second, table);
      front := Piece(s, first, table) + later;
    }
  }

  /** What the first token of `s` becomes. */
  function Piece(s: string, order: seq<string>, table: Table): string
    requires s != "" && GoodTable(table) && forall v :: v in order ==> v in table
  {
    match RefAt(s, order) case None => [s[0]] case Some((v, f)) => Value(table, v, f)
  }

  lemma SimultaneousStep(s: string, order: seq<string>, table: Table)
    requires s != "" && GoodTable(table) && forall v :: v in order ==> v in table
    ensures var n := match RefAt(s, order) case None => 1 case Some((v, f)) => MatchLen(s, v, f);
            Simultaneous(s, order, table) == Piece(s, order, table) + Simultaneous(s[n..], order, table)
  {
    hide RefAt, MatchLen, Value;
  }

  lemma OneBareLater(s: string, n: nat, k: nat, names: set<string>)
    requires n <= k <= |s| && forall i :: 0 <= i < k ==> OneBareAt(s[i..], names)
    ensures forall i :: 0 <= i < k - n ==> OneBareAt(s[n..][i..], names)
  {
    forall i | 0 <= i < k - n ensures OneBareAt(s[n..][i..], names) {
      assert s[n..][i..] == s[n + i..];
    }
  }

  lemma TwoBareAt(s: string, names: set<string>) returns (v: string, w: string)
    requires !OneBareAt(s, names)
    ensures v in names && w in names && v != w && Head(v, Bare) <= s && Head(w, Bare) <= s
    ensures s != "" && s[0] == '$'
  {
    v, w :| v in names && w in names && Head(v, Bare) <= s && Head(w, Bare) <= s && v != w;
    assert s[0] == Head(v, Bare)[0];
  }

  lemma FirstAmbiguous(s: string, names: set<string>) returns (k: nat)
    requires !Unambiguous(s, names)
    ensures k < |s| && !OneBareAt(s[k..], names) && forall i :: 0 <= i < k ==> OneBareAt(s[i..], names)
  {
    hide OneBareAt;
    var last :| 0 <= last < |s| && !OneBareAt(s[last..], names);
    k := 0;
    while OneBareAt(s[k..], names)
      invariant k <= last && forall i :: 0 <= i < k ==> OneBareAt(s[i..], names)
      decreases last - k
    {
      k := k + 1;
    }
  }

  lemma {:induction false} Listing(names: set<string>) returns (order: seq<string>)
    ensures Lists(order, names)
    decreases |names|
  {
    if names == {} {
      order := [];
    } else {
      var v :| v in names;
      var rest := Listing(names - {v});
      order := [v] + rest;
      assert names == names - {v} + {v};
    }
  }

  /** `a` for one variable and `b` for the others. */
  function OneDiffers(names: set<string>, v: string): Table {
    map n | n in names :: if n == v then "a" else "b"
  }

  lemma OneDiffersIsInert(names: set<string>, v: string, order: seq<string>)
    ensures InertTable(OneDiffers(names, v), order)
    ensures forall n, f :: n in names ==> Value(OneDiffers(names, v), n, f) == if n == v then "a" else "b"
  {
    TemplateKeepsPlain("a");
    TemplateKeepsPlain("b");
    hide Unrelated;
    assert Inert("a", order) && Inert("b", order) by { assert "a"[1..] == "" && "b"[1..] == ""; }
  }

  /** An ambiguous script: some values and two orders give two results. */
  lemma AmbiguousDependsOnOrder(s: string, names: set<string>)
    returns (first: seq<string>, second: seq<string>, table: Table)
    requires !Unambiguous(s, names) && forall order :: Lists(order, names) ==> ClearInOrder(s, order)
    ensures Lists(first, names) && Lists(second, names) && table.Keys == names
    ensures InertTable(table, first) && Sequential(s, first, table) != Sequential(s, second, table)
  {
    hide Sequential, Scan, Clear, Unambiguous, Inert, RefAt, MatchLen, Value, Head, OneBareAt, Simultaneous;
    var k := FirstAmbiguous(s, names);
    var v, w := TwoBareAt(s[k..], names);
    var rest := Listing(names);
    first, second, table := [v] + rest, [w] + rest, OneDiffers(names, v);
    assert Lists(first, names) && Lists(second, names);
    assert ClearInOrder(s, first) && ClearInOrder(s, second);
    OneDiffersIsInert(names, v, first);
    OneDiffersIsInert(names, v, second);
    SequentialIsSimultaneous(s, first, table);
    SequentialIsSimultaneous(s, second, table);
    var front := SameUpTo(s, k, first, second, names, table);
    StartsWithBare(s[k..], v, rest, table);
    StartsWithBare(s[k..], w, rest, table);
    var (x, y) := (Simultaneous(s[k..], first, table), Simultaneous(s[k..], second, table));
    assert (front + x)[|front|] == 'a' && (front + y)[|front|] == 'b';
  }

  lemma StartsWithBare(s: string, v: string, rest: seq<string>, table: Table)
    requires s != "" && IsName(v) && Head(v, Bare) <= s
    requires GoodTable(table) && forall n :: n in [v] + rest ==> n in table
    ensures Value(table, v, Bare) <= Simultaneous(s, [v] + rest, table)
  {
    FirstBareWins(s, v, rest);
  }

  /** With these names the order never matters to this script, whatever harmless values they have. */
  ghost predicate OrderNeverMatters(s: string, names: set<string>) {
    forall first: seq<string>, second: seq<string>, table: Table ::
      Lists(first, names) && Lists(second, names) && table.Keys == names && InertTable(table, first) ==>
        Sequential(s, first, table) == Sequential(s, second, table)
  }

  /** For a script clear in every order, dictionary order never matters exactly when no `$V` is ambiguous. */
  lemma OrderNeverMattersIff(s: string, names: set<string>)
    requires forall order :: Lists(order, names) ==> ClearInOrder(s, order)
    ensures OrderNeverMatters(s, names) <==> Unambiguous(s, names)
  {
    hide Sequential, ClearInOrder, Unambiguous, InertTable;
    if Unambiguous(s, names) {
      forall first: seq<string>, second: seq<string>, table: Table |
        Lists(first, names) && Lists(second, names) && table.Keys == names && InertTable(table, first)
        ensures Sequential(s, first, table) == Sequential(s, second, table)
      {
        OrderDoesNotMatter(s, first, second, table);
      }
    } else {
      var first, second, table := AmbiguousDependsOnOrder(s, names);
    }
  }

  lemma BareHeadShows(s: string, v: string)
    requires IsName(v) && Head(v, Bare) <= s
    ensures |s| >= 2 && s[0] == '$' && s[1] != '{'
  {
    NameAt(s, v, Bare);
    assert s[0] == Head(v, Bare)[0];
  }

  /** Braces settle it: a script that writes every `$` with a brace is unambiguous, whatever the names. */
  lemma BracedIsUnambiguous(s: string, names: set<string>)
    requires forall v :: v in names ==> IsName(v)
    requires forall i :: 0 <= i < |s| && s[i] == '$' ==> i + 1 < |s| && s[i + 1] == '{'
    ensures Unambiguous(s, names)
  {
    forall i, v | 0 <= i < |s| && v in names ensures !(Head(v, Bare) <= s[i..]) {
      if Head(v, Bare) <= s[i..] { BareHeadShows(s[i..], v); }
    }
  }

  /** So is every script over names of which none continues another. */
  lemma PrefixFreeIsUnambiguous(s: string, names: set<string>)
    requires PrefixFree(names)
    ensures Unambiguous(s, names)
  {
    forall i, v, w | 0 <= i < |s| && v in names && w in names && Head(v, Bare) <= s[i..] && Head(w, Bare) <= s[i..]
      ensures v == w
    {
      HeadsClash(s[i..], v, Bare, w, Bare, names);
    }
  }

  // ----- the two loops of the install pipeline -----

  const TASK_ID_NAME := "INSTALLATION_TASK_ID"

  function WithTaskId(table: Table, taskId: nat): Table {
    table[TASK_ID_NAME := Decimal(taskId)]
  }

  lemma {:induction false} RenderSameValues(
    toks: seq<Token>, done: set<(string, Form)>, table: Table, other: Table)
    requires GoodTable(table) && GoodTable(other)
    requires forall d :: d in done ==> d.0 in table && d.0 in other && table[d.0] == other[d.0]
    ensures Render(toks, done, table) == Render(toks, done, other)
  {
    if toks != [] { RenderSameValues(toks[1..], done, table, other); }
  }

  lemma RenderCovered(toks: seq<Token>, done: set<(string, Form)>, order: seq<string>, table: Table)
    requires GoodTable(table) && forall d :: d in done ==> d.0 in table
    requires forall d :: d in Handled(order) ==> d in done
    ensures done + Handled(order) == done
  {
  }

  lemma InertWithoutTaskId(table: Table, taskId: nat, names: seq<string>)
    requires TASK_ID_NAME !in table && InertTable(WithTaskId(table, taskId), names)
    ensures InertTable(table, names)
  {
    var later := WithTaskId(table, taskId);
    forall v | v in table ensures ReTemplate(table[v]).Some? { assert later[v] == table[v]; }
    forall v, f | v in table ensures Inert(Value(table, v, f), names) {
      assert Value(later, v, f) == Value(table, v, f);
    }
  }

  /**
   The script is rewritten once before the installation task exists and once
   after, with its id added. Together that is one substitution with the larger
   table, and the second loop finds nothing left of the first table's variables.
   */
  lemma TwoLoopsAreOneSubstitution(s: string, order: seq<string>, table: Table, taskId: nat)
    requires TASK_ID_NAME !in table && forall v :: v in table <==> v in order
    requires var (later, all) := (WithTaskId(table, taskId), order + [TASK_ID_NAME]);
             AllNames(all) && InertTable(later, all) && ClearScript(s, all)
    ensures var (later, all) := (WithTaskId(table, taskId), order + [TASK_ID_NAME]);
            var first := Sequential(s, order, table);
            && first.Some?
            && Sequential(first.value, order, table) == first
            && Sequential(first.value, all, later) == Some(Simultaneous(s, all, later))
  {
    hide Sequential, Simultaneous, Scan, SubstituteOne, Scanned, Clear, Render, Inert, AllNames;
    var later := WithTaskId(table, taskId);
    var all := order + [TASK_ID_NAME];
    var toks := Scan(s, all);
    var done := Handled(order);
    ScanIsScanned(s, all);
    InertWithoutTaskId(table, taskId, all);
    HandledPairs(order);
    HandledPairs(all);
    RenderNothing(toks, table);
    assert [] + order + [TASK_ID_NAME] == all == [] + all + [];
    SequentialRenders(toks, {}, table, [], order, [TASK_ID_NAME]);
    assert {} + done == done;
    SequentialRenders(toks, done, table, [], order, [TASK_ID_NAME]);
    RenderCovered(toks, done, order, table);
    RenderSameValues(toks, done, table, later);
    SequentialRenders(toks, done, later, [], all, []);
    assert done + Handled(all) == Handled(all);
    RenderEverything(s, Handled(all), all, later);
  }

  /** The loop itself: the script variable is overwritten variable by variable. */
  method RewriteScript(script: string, order: seq<string>, table: Table) returns (result: Option<string>)
    requires forall i :: 0 <= i < |order| ==> order[i] in table
    ensures result == Sequential(script, order, table)
  {
    var current := script;
    hide SubstituteOne;
    for i := 0 to |order|
      invariant Sequential(script, order, table) == Sequential(current, order[i..], table)
    {
      var next := SubstituteOne(current, order[i], table[order[i]]);
      assert order[i..][0] == order[i] && order[i..][1..] == order[i + 1..];
      if next.None? { return None; }
      current := next.value;
    }
    result := Some(current);
  }

  // ----- each condition is needed -----

  lemma NoReference(u: string, v: string, x: string, t: string)
    requires '$' !in u && ReTemplate(x) == Some(t)
    ensures SubstituteOne(u, v, x) == Some(u)
  {
    forall f: Form, y: string ensures ReplaceAll(u, v, f, y) == u {
      NoMatchWithoutDollar(u, "", v, f);
      PassThrough(u, "", v, f, y);
      assert u + "" == u;
    }
  }

  /** `$w` after a literal front and before a tail without references. */
  lemma BareReference(w: string, rest: string, x: string, t: string)
    requires IsName(w) && '$' !in rest && ReTemplate(x) == Some(t)
    requires '$' !in w
    ensures SubstituteOne("$" + w + rest, w, x) == Some(x + rest)
  {
    var s := "$" + w + rest;
    var tail := w + rest;
    assert s[1..] == tail && s[1] == w[0];
    assert '$' !in tail;
    forall f: Form, y: string | !f.Bare? ensures ReplaceAll(s, w, f, y) == s {
      assert MatchLen(s, w, f) == 0 by { assert Head(w, f)[1] == '{'; }
      ReplaceAllSkips(s, w, f, y);
      NoMatchWithoutDollar(tail, "", w, f);
      PassThrough(tail, "", w, f, y);
      assert tail + "" == tail;
    }
    assert Head(w, Bare) <= s && s[|Head(w, Bare)|..] == rest;
    NoMatchWithoutDollar(rest, "", w, Bare);
    PassThrough(rest, "", w, Bare, x);
    assert rest + "" == rest;
  }

  lemma OtherVariableKept(w: string, v: string)
    requires w != "" && w[0] != '{' && !(v <= w) && v != "" && '$' !in w
    ensures forall f: Form, y: string :: ReplaceAll("$" + w, v, f, y) == "$" + w
  {
    var s := "$" + w;
    assert s[1..] == w && s[1] == w[0];
    forall f: Form, y: string ensures ReplaceAll(s, v, f, y) == s {
      assert MatchLen(s, v, f) == 0 by {
        if f.Bare? {
          assert Head(v, f) <= s ==> v <= w by { assert Head(v, f)[1..] == v; }
        } else {
          assert Head(v, f)[1] == '{';
        }
      }
      ReplaceAllSkips(s, v, f, y);
      NoMatchWithoutDollar(w, "", v, f);
      PassThrough(w, "", v, f, y);
      assert w + "" == w;
    }
  }

  lemma BareOtherReference(w: string, v: string, x: string, t: string)
    requires IsName(w) && !(v <= w) && v != "" && ReTemplate(x) == Some(t)
    ensures SubstituteOne("$" + w, v, x) == Some("$" + w)
  {
    OtherVariableKept(w, v);
  }

  lemma TwoVariables(s: string, v: string, w: string, table: Table, mid: string)
    requires v in table && w in table && SubstituteOne(s, v, table[v]) == Some(mid)
    ensures Sequential(s, [v, w], table) == SubstituteOne(mid, w, table[w])
  {
    assert [v, w][1..] == [w];
    assert Sequential(mid, [w], table) == SubstituteOne(mid, w, table[w]) by {
      assert [w][1..] == [];
    }
  }

  /**
   A name that is a prefix of another, as PARAM_SSH_PUBLIC_KEY is of
   PARAM_SSH_PUBLIC_KEYS: the two orders agree on `$w` only by accident.
   */
  lemma PrefixNamesDependOnOrder(v: string, rest: string, table: Table)
    requires IsName(v) && IsName(v + rest) && rest != "" && v in table && v + rest in table
    requires GoodTable(table) && '$' !in table[v] && '$' !in table[v + rest]
    ensures Sequential("$" + (v + rest), [v, v + rest], table) == Some(table[v] + rest)
    ensures Sequential("$" + (v + rest), [v + rest, v], table) == Some(table[v + rest])
  {
    var w := v + rest;
    var s := "$" + w;
    assert s == "$" + v + rest && s == "$" + w + "";
    assert forall i :: 0 <= i < |rest| ==> rest[i] == w[|v| + i];
    BareReference(v, rest, table[v], ReTemplate(table[v]).value);
    NoReference(table[v] + rest, w, table[w], ReTemplate(table[w]).value);
    TwoVariables(s, v, w, table, table[v] + rest);
    BareReference(w, "", table[w], ReTemplate(table[w]).value);
    assert table[w] + "" == table[w];
    NoReference(table[w], v, table[v], ReTemplate(table[v]).value);
    TwoVariables(s, w, v, table, table[w]);
  }

  /** A value that spells a reference is substituted again in one order and kept in the other. */
  lemma ReferenceInValueDependsOnOrder(v: string, w: string, table: Table)
    requires PrefixFree({v, w}) && v != w && v in table && w in table
    requires GoodTable(table) && table[v] == "$" + w && '$' !in table[w]
    ensures Sequential("$" + v, [v, w], table) == Some(table[w])
    ensures Sequential("$" + v, [w, v], table) == Some("$" + w)
  {
    assert "$" + v + "" == "$" + v && "$" + w + "" == "$" + w && table[w] + "" == table[w];
    BareReference(v, "", table[v], ReTemplate(table[v]).value);
    BareReference(w, "", table[w], ReTemplate(table[w]).value);
    assert table[v] + "" == table[v];
    TwoVariables("$" + v, v, w, table, "$" + w);
    BareOtherReference(v, w, table[w], ReTemplate(table[w]).value);
    TwoVariables("$" + v, w, v, table, "$" + v);
  }

  /** `$a` that is no reference, then text starting with a reference. */
  lemma ReplaceAfterUnfinished(a: string, r: string, v: string, f: Form, y: string)
    requires (a == "" || IsName(a)) && IsName(v) && !(v <= a) && r != "" && r[0] == '$'
    ensures ReplaceAll("$" + a + r, v, f, y) == "$" + a + ReplaceAll(r, v, f, y)
  {
    var u := "$" + a;
    assert u[1..] == a && (u + r)[1..] == a + r && u[0] == '$';
    assert (a + r)[|a|] == '$';
    assert MatchLen(u + r, v, f) == 0 by {
      var head := Head(v, f);
      if f.Bare? {
        assert head[1..] == v;
        assert head <= u + r ==> v <= a + r;
        assert v <= a + r ==> |v| <= |a|;
      } else {
        assert head[1] == '{' && (u + r)[1] != '{';
      }
    }
    NoMatchWithoutDollar(a, r, v, f);
    PassThrough(u, r, v, f, y);
  }

  lemma ReplaceBraced(v: string, f: Form, y: string)
    requires IsName(v)
    ensures ReplaceAll("${" + v + "}", v, f, y) == if f.Braced? then y else "${" + v + "}"
  {
    var r := "${" + v + "}";
    if f.Braced? {
      assert r[|r|..] == "";
    } else {
      assert MatchLen(r, v, f) == 0 by {
        assert r[1] == '{' && Head(v, Bare)[1] == v[0];
        assert r[|v| + 2] == '}' && Head(v, Defaulted)[|v| + 2] == ':';
      }
      ReplaceAllSkips(r, v, f, y);
      var tail := "{" + v + "}";
      assert r[1..] == tail && '$' !in tail && tail + "" == tail;
      NoMatchWithoutDollar(tail, "", v, f);
      PassThrough(tail, "", v, f, y);
    }
  }

  lemma ReplaceBracedOther(v: string, w: string, f: Form, y: string)
    requires PrefixFree({v, w}) && v != w
    ensures ReplaceAll("${" + v + "}", w, f, y) == "${" + v + "}"
  {
    var r := "${" + v + "}";
    assert Head(v, Braced) == r;
    if Head(w, f) <= r { HeadsClash(r, v, Braced, w, f, {v, w}); }
    ReplaceAllSkips(r, w, f, y);
    var tail := "{" + v + "}";
    assert r[1..] == tail && '$' !in tail && tail + "" == tail;
    NoMatchWithoutDollar(tail, "", w, f);
    PassThrough(tail, "", w, f, y);
  }

  /**
   An unfinished reference before a reference, such as `$A${V}`: once `${V}` has
   been replaced the text may read as a reference to a longer name.
   */
  lemma UnfinishedReferenceDependsOnOrder(a: string, v: string, table: Table)
    requires (a == "" || IsName(a)) && v in table && table[v] != "" && '$' !in table[v]
    requires var w := a + table[v]; w in table && v != w && PrefixFree({v, w}) && !(v <= a) && '$' !in table[w]
    requires GoodTable(table)
    ensures var w := a + table[v];
            var s := "$" + a + ("${" + v + "}");
            && Sequential(s, [v, w], table) == Some(table[w])
            && Sequential(s, [w, v], table) == Some("$" + w)
  {
    var w := a + table[v];
    var r := "${" + v + "}";
    var s := "$" + a + r;
    assert "$" + a + table[v] == "$" + w && "$" + w + "" == "$" + w && table[w] + "" == table[w];
    assert !(w <= a);
    assert SubstituteOne(s, v, table[v]) == Some("$" + w) by {
      ReplaceAfterUnfinished(a, r, v, Braced, table[v]);
      ReplaceBraced(v, Braced, table[v]);
      OtherVariableKept(w, v);
    }
    BareReference(w, "", table[w], ReTemplate(table[w]).value);
    TwoVariables(s, v, w, table, "$" + w);
    assert SubstituteOne(s, w, table[w]) == Some(s) by {
      forall f: Form, y: string ensures ReplaceAll(s, w, f, y) == s {
        ReplaceAfterUnfinished(a, r, w, f, y);
        ReplaceBracedOther(v, w, f, y);
      }
    }
    TwoVariables(s, w, v, table, s);
  }

  /** The head of `${w:-` is copied when looking for another pair. */
  lemma DefaultHeadKept(w: string, r: string, v: string, f: Form, y: string)
    requires IsName(v) && IsName(w) && PrefixFree({v, w}) && (v, f) != (w, Defaulted)
    ensures ReplaceAll(Head(w, Defaulted) + r, v, f, y) == Head(w, Defaulted) + ReplaceAll(r, v, f, y)
  {
    var head := Head(w, Defaulted);
    if Head(v, f) <= head + r { HeadsClash(head + r, v, f, w, Defaulted, {v, w}); }
    assert '$' !in head[1..];
    NoMatchWithoutDollar(head[1..], r, v, f);
    PassThrough(head, r, v, f, y);
  }

  lemma WithoutDollarKept(u: string, v: string, f: Form, y: string)
    requires '$' !in u
    ensures ReplaceAll(u, v, f, y) == u
  {
    NoMatchWithoutDollar(u, "", v, f);
    PassThrough(u, "", v, f, y);
    assert u + "" == u;
  }

  lemma DefaultedMatch(w: string, d: string, tail: string, y: string)
    requires '}' !in d && '$' !in tail
    ensures ReplaceAll(Head(w, Defaulted) + (d + "}" + tail), w, Defaulted, y) == y + tail
  {
    var head := Head(w, Defaulted);
    var s := head + (d + "}" + tail);
    assert s[|head|..] == d + "}" + tail;
    FirstIndexIs(s[|head|..], '}', |d|);
    assert s[|head| + |d| + 1..] == tail;
    WithoutDollarKept(tail, w, Defaulted, y);
  }

  /** `${v}}`, the tail of a default holding a reference. */
  lemma ReplaceInTail(v: string, u: string, f: Form, y: string)
    requires IsName(v) && PrefixFree({v, u})
    ensures ReplaceAll("${" + v + "}" + "}", u, f, y) == (if (u, f) == (v, Braced) then y else "${" + v + "}") + "}"
  {
    var inner := "${" + v + "}";
    var r := inner + "}";
    WithoutDollarKept("}", u, f, y);
    assert Head(v, Braced) == inner <= r;
    if (u, f) == (v, Braced) {
      assert r[|inner|..] == "}";
    } else {
      assert MatchLen(r, u, f) == 0 by {
        if Head(u, f) <= r { HeadsClash(r, u, f, v, Braced, {u, v}); }
      }
      assert '$' !in inner[1..];
      NoMatchWithoutDollar(inner[1..], "}", u, f);
      hide Head, MatchLen, PrefixFree, ReplaceAll;
      PassThrough(inner, "}", u, f, y);
    }
  }

  lemma DefaultRewritten(v: string, w: string, x: string, t: string)
    requires PrefixFree({v, w}) && v != w && ReTemplate(x) == Some(t) && '$' !in x
    ensures SubstituteOne(Head(w, Defaulted) + (Head(v, Braced) + "}"), v, x) == Some(Head(w, Defaulted) + (x + "}"))
  {
    assert '$' !in x + "}";
    DefaultHeadKept(w, Head(v, Braced) + "}", v, Braced, x);
    ReplaceInTail(v, v, Braced, x);
    MidKept(w, x + "}", v, Defaulted, t);
    MidKept(w, x + "}", v, Bare, x);
    hide ReplaceAll, Head;
  }

  lemma PlainDefaultReplaced(w: string, d: string, y: string, t: string)
    requires IsName(w) && ReTemplate(y) == Some(t) && '$' !in t && '$' !in d && '}' !in d
    ensures SubstituteOne(Head(w, Defaulted) + (d + "}"), w, y) == Some(t)
  {
    assert '$' !in d + "}" && d + "}" + "" == d + "}" && t + "" == t;
    MidKept(w, d + "}", w, Braced, y);
    DefaultedMatch(w, d, "", t);
    WithoutDollarKept(t, w, Bare, y);
    hide ReplaceAll, Head;
  }

  lemma NestedDefaultReplaced(v: string, w: string, y: string, t: string)
    requires PrefixFree({v, w}) && v != w && ReTemplate(y) == Some(t) && '$' !in t
    ensures SubstituteOne(Head(w, Defaulted) + (Head(v, Braced) + "}"), w, y) == Some(t + "}")
  {
    var r := Head(v, Braced) + "}";
    DefaultHeadKept(w, r, w, Braced, y);
    ReplaceInTail(v, w, Braced, y);
    assert r == "${" + v + "}" + "}";
    DefaultedMatch(w, "${" + v, "}", t);
    WithoutDollarKept(t + "}", w, Bare, y);
    hide ReplaceAll, Head;
  }

  /** A reference inside a default: the outer pattern ends at the inner `}`. */
  lemma ReferenceInDefaultDependsOnOrder(v: string, w: string, table: Table)
    requires PrefixFree({v, w}) && v != w && v in table && w in table && GoodTable(table)
    requires '$' !in table[v] && '}' !in table[v] && '$' !in Value(table, w, Defaulted)
    ensures var s := Head(w, Defaulted) + (Head(v, Braced) + "}");
            var d := Value(table, w, Defaulted);
            && Sequential(s, [w, v], table) == Some(d + "}")
            && Sequential(s, [v, w], table) == Some(d)
  {
    var s := Head(w, Defaulted) + (Head(v, Braced) + "}");
    var d := Value(table, w, Defaulted);
    var x := table[v];
    var mid := Head(w, Defaulted) + (x + "}");
    DefaultRewritten(v, w, x, ReTemplate(x).value);
    TwoVariables(s, v, w, table, mid);
    PlainDefaultReplaced(w, x, table[w], d);
    NestedDefaultReplaced(v, w, table[w], d);
    TwoVariables(s, w, v, table, d + "}");
    NoReference(d + "}", v, x, ReTemplate(x).value);
    hide SubstituteOne, Head, Sequential;
  }

  lemma MidKept(w: string, u: string, v: string, f: Form, y: string)
    requires IsName(v) && IsName(w) && PrefixFree({v, w}) && (v, f) != (w, Defaulted) && '$' !in u
    ensures ReplaceAll(Head(w, Defaulted) + u, v, f, y) == Head(w, Defaulted) + u
  {
    DefaultHeadKept(w, u, v, f, y);
    WithoutDollarKept(u, v, f, y);
  }
}
