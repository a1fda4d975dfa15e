/**
 Resolution of install-template parameters from supplied values, aliases,
 defaults and generated passwords. A reinstall resolves twice: once to validate
 the request and once more when the install is queued.
 */
module TemplateParameters {
  import opened PyText

  /** A supplied value; a list keeps, per item, None or the item's `str`. */
  datatype PyValue =
    | PyNone
    | PyBool(b: bool)
    | PyStr(s: string)
    | PyList(items: seq<Option<string>>)
    | PyOther(text: string)   // anything else, by its `str`

  /** A declared parameter; `generates` says an enabled `generate` spec is present. */
  datatype Param = Param(isPassword: bool, required: bool, defaultValue: PyValue, generates: bool)

  /** Parameter names; the four the code treats specially have their own constructor. */
  datatype Key = SshPublicKey | SshPublicKeys | Password | AdminPassword | Other(name: string)

  type Declared = map<Key, Param>
  type Values = map<Key, PyValue>

  datatype Outcome = Resolved(values: Values) | Missing(names: seq<Key>)

  /** `"\n".join` of the items that are neither None nor empty. */
  function JoinItems(items: seq<Option<string>>): string {
    if items == [] then ""
    else
      var rest := JoinItems(items[1..]);
      if items[0].None? || items[0].value == "" then rest
      else if rest == "" then items[0].value
      else items[0].value + "\n" + rest
  }

  function Coerce(v: PyValue): string {
    match v
    case PyNone => ""
    case PyBool(b) => if b then "true" else "false"
    case PyStr(s) => s
    case PyList(items) => JoinItems(items)
    case PyOther(text) => text
  }

  function Get(supplied: Values, key: Key): PyValue {
    if key in supplied then supplied[key] else PyNone
  }

  /** `ssh_public_keys` also serves as `ssh_public_key` when that is not supplied. */
  function WithSshAlias(supplied: Values): Values {
    if SshPublicKey !in supplied && Get(supplied, SshPublicKeys) != PyNone
    then supplied[SshPublicKey := PyStr(Coerce(Get(supplied, SshPublicKeys)))]
    else supplied
  }

  function PasswordAlias(supplied: Values): string {
    var p := Coerce(Get(supplied, Password));
    if p != "" then p else Coerce(Get(supplied, AdminPassword))
  }

  /** The value of one declared parameter; `generated` is what the generator would return. */
  function ResolveOne(name: Key, param: Param, supplied: Values, alias: string, generated: string): string {
    var v0 := Coerce(Get(supplied, name));
    var v1 := if v0 == "" && param.isPassword && alias != "" then alias else v0;
    var v2 := if v1 == "" && param.defaultValue != PyNone then Coerce(param.defaultValue) else v1;
    if v2 == "" && param.isPassword && param.generates then generated else v2
  }

  /** An extra value is copied, lists in their joined form. */
  function Extra(v: PyValue): PyValue {
    if v.PyList? then PyStr(Coerce(v)) else v
  }

  /** The texts of a list that are neither None nor empty. */
  function NonEmpty(items: seq<Option<string>>): (r: seq<string>)
    ensures forall i :: 0 <= i < |r| ==> r[i] != ""
  {
    if items == [] then []
    else (if items[0].Some? && items[0].value != "" then [items[0].value] else []) + NonEmpty(items[1..])
  }

  function Lines(texts: seq<string>): string {
    if texts == [] then "" else if |texts| == 1 then texts[0] else texts[0] + "\n" + Lines(texts[1..])
  }

  lemma {:induction false} JoinIsLines(items: seq<Option<string>>)
    ensures JoinItems(items) == Lines(NonEmpty(items)) && (JoinItems(items) == "" <==> NonEmpty(items) == [])
  {
    if items != [] {
      JoinIsLines(items[1..]);
      var rest := NonEmpty(items[1..]);
      assert [] + rest == rest;
      if items[0].Some? && items[0].value != "" {
        var all := [items[0].value] + rest;
        assert all[0] == items[0].value && all[1..] == rest && |all| == 1 + |rest|;
        assert NonEmpty(items) == all;
      }
    }
  }

  /** The text of a value: lists by line without empty items, booleans in lower case. */
  lemma TextOf(v: PyValue)
    ensures Coerce(PyNone) == "" && Coerce(PyBool(true)) == "true" && Coerce(PyBool(false)) == "false"
    ensures v.PyStr? ==> Coerce(v) == v.s
    ensures v.PyOther? ==> Coerce(v) == v.text
    ensures v.PyList? ==> Coerce(v) == Lines(NonEmpty(v.items))
  {
    if v.PyList? { JoinIsLines(v.items); }
  }

  /** What the password generator returns for each parameter of one call; never empty. */
  type Generator = g: Key -> string | forall n :: g(n) != "" witness n => "x"

  function ResolvedValue(declared: Declared, supplied: Values, g: Generator, name: Key): string
    requires name in declared
  {
    var s := WithSshAlias(supplied);
    ResolveOne(name, declared[name], s, PasswordAlias(s), g(name))
  }

  predicate IsMissing(declared: Declared, supplied: Values, g: Generator, name: Key)
    requires name in declared
  {
    declared[name].required && ResolvedValue(declared, supplied, g, name) == ""
  }

  /** No required parameter stays empty, so the call does not raise. */
  ghost predicate Succeeds(declared: Declared, supplied: Values, g: Generator) {
    forall name :: name in declared ==> !IsMissing(declared, supplied, g, name)
  }

  /** The dictionary a successful call returns. */
  function Resolve(declared: Declared, supplied: Values, g: Generator): Values {
    if declared == map[] then supplied
    else
      var s := WithSshAlias(supplied);
      map name | name in declared.Keys + s.Keys ::
        if name in declared then PyStr(ResolvedValue(declared, supplied, g, name)) else Extra(s[name])
  }

  // ----- where the values come from -----

  /** The text the request has for a name; `ssh_public_keys` stands in for an absent `ssh_public_key`. */
  function Supplied(supplied: Values, name: Key): string {
    if name in supplied then Coerce(supplied[name])
    else if name == SshPublicKey && SshPublicKeys in supplied then Coerce(supplied[SshPublicKeys])
    else ""
  }

  /**
   A declared value is, in this order, what the request has for it; for a
   password, the request's `password` or `admin_password`; the default; for a
   password with a generator, what that returns; else empty.
   */
  predicate FromSource(p: Param, supplied: Values, name: Key, generated: string, v: string) {
    var own := Supplied(supplied, name);
    var (password, admin) := (Supplied(supplied, Password), Supplied(supplied, AdminPassword));
    && (own != "" ==> v == own)
    && (own == "" && p.isPassword && password != "" ==> v == password)
    && (own == "" && p.isPassword && password == "" && admin != "" ==> v == admin)
    && (own == "" && !(p.isPassword && (password != "" || admin != "")) ==>
          && (Coerce(p.defaultValue) != "" ==> v == Coerce(p.defaultValue))
          && (Coerce(p.defaultValue) == "" && p.isPassword && p.generates ==> v == generated)
          && (Coerce(p.defaultValue) == "" && !(p.isPassword && p.generates) ==> v == ""))
  }

  lemma SuppliedIs(supplied: Values, name: Key)
    ensures Coerce(Get(WithSshAlias(supplied), name)) == Supplied(supplied, name)
  {
    hide Coerce;
    TextOf(PyNone);
    TextOf(PyStr(Coerce(Get(supplied, SshPublicKeys))));
  }

  lemma ResolvedFromSource(declared: Declared, supplied: Values, g: Generator, name: Key)
    requires name in declared
    ensures FromSource(declared[name], supplied, name, g(name), ResolvedValue(declared, supplied, g, name))
  {
    hide Coerce, WithSshAlias, Supplied;
    SuppliedIs(supplied, name);
    SuppliedIs(supplied, Password);
    SuppliedIs(supplied, AdminPassword);
    TextOf(PyNone);
  }

  /** Every key the template does not declare is copied from the request, a list in its joined form. */
  ghost predicate CopiesExtras(declared: Declared, supplied: Values, values: Values) {
    && (forall name :: name in supplied && name !in declared ==>
          && name in values
          && values[name] == if supplied[name].PyList? then PyStr(Coerce(supplied[name])) else supplied[name])
    && (forall name :: name in values ==>
          || name in declared || name in supplied
          || (name == SshPublicKey && SshPublicKeys in supplied &&
              values[name] == PyStr(Coerce(supplied[SshPublicKeys]))))
  }

  /** What the returned dictionary holds, by template and request. */
  ghost predicate FollowsTemplate(declared: Declared, supplied: Values, g: Generator, values: Values) {
    && (forall name :: name in declared ==>
          && name in values && values[name].PyStr?
          && FromSource(declared[name], supplied, name, g(name), values[name].s))
    && CopiesExtras(declared, supplied, values)
  }

  lemma ResolveFollowsTemplate(declared: Declared, supplied: Values, g: Generator)
    requires declared != map[]
    ensures FollowsTemplate(declared, supplied, g, Resolve(declared, supplied, g))
  {
    hide FromSource, ResolvedValue, Coerce;
    forall name | name in declared
      ensures FromSource(declared[name], supplied, name, g(name), ResolvedValue(declared, supplied, g, name))
    {
      ResolvedFromSource(declared, supplied, g, name);
    }
  }

  /** The missing names are the required ones for which every source is empty. */
  lemma {:induction false} MissingNamesAre(declared: Declared, order: seq<Key>, supplied: Values, g: Generator)
    requires forall i :: 0 <= i < |order| ==> order[i] in declared
    ensures forall name :: name in MissingNames(declared, order, supplied, g) <==>
              name in order && declared[name].required && FromSource(declared[name], supplied, name, g(name), "")
  {
    hide FromSource, ResolvedValue;
    if order != [] {
      var last := |order| - 1;
      MissingNamesAre(declared, order[..last], supplied, g);
      assert order == order[..last] + [order[last]];
      ResolvedFromSource(declared, supplied, g, order[last]);
      OneSource(declared[order[last]], supplied, order[last], g(order[last]),
                ResolvedValue(declared, supplied, g, order[last]));
    }
  }

  lemma OneSource(p: Param, supplied: Values, name: Key, generated: string, v: string)
    requires FromSource(p, supplied, name, generated, v)
    ensures v != "" ==> !FromSource(p, supplied, name, generated, "")
  {
    hide Coerce, Supplied;
  }

  // ----- resolving again -----

  /** An empty value of this parameter is final: no default and no generator fills it. */
  predicate MayStayEmpty(p: Param) {
    Coerce(p.defaultValue) == "" && !(p.isPassword && p.generates)
  }

  /** What the result of a resolution looks like. */
  ghost predicate Settled(declared: Declared, t: Values) {
    && (forall name :: name in declared ==> name in t && t[name].PyStr?)
    && (forall name :: name in declared && t[name] == PyStr("") ==> MayStayEmpty(declared[name]))
    && (forall name :: name in t && name !in declared ==> !t[name].PyList?)
  }

  lemma ResolutionSettles(declared: Declared, supplied: Values, g: Generator)
    requires declared != map[]
    ensures Settled(declared, Resolve(declared, supplied, g))
  {
  }

  /** The next value of a settled parameter: only an empty password can still change. */
  function NextValue(p: Param, v: string, alias: string): string {
    if v == "" && p.isPassword && alias != "" then alias else v
  }

  lemma SettledStep(declared: Declared, t: Values, h: Generator)
    requires declared != map[] && Settled(declared, t)
    ensures var u := Resolve(declared, t, h);
            && Settled(declared, u)
            && u.Keys == WithSshAlias(t).Keys
            && (forall name :: name in declared ==>
                  u[name] == PyStr(NextValue(declared[name], t[name].s, PasswordAlias(t))))
            && (forall name :: name in u && name !in declared ==> u[name] == WithSshAlias(t)[name])
  {
    ResolutionSettles(declared, t, h);
    var s := WithSshAlias(t);
    assert PasswordAlias(s) == PasswordAlias(t);
    forall name | name in declared
      ensures ResolvedValue(declared, t, h, name) == NextValue(declared[name], t[name].s, PasswordAlias(t))
    {
      assert s[name] == t[name];
    }
    assert declared.Keys + s.Keys == s.Keys;
  }

  /** A declared value that is not empty survives every later resolution. */
  lemma NonEmptyValueKept(declared: Declared, supplied: Values, g: Generator, h: Generator, name: Key)
    requires name in declared && Resolve(declared, supplied, g)[name] != PyStr("")
    ensures var first := Resolve(declared, supplied, g);
            name in Resolve(declared, first, h) && Resolve(declared, first, h)[name] == first[name]
  {
    ResolutionSettles(declared, supplied, g);
    SettledStep(declared, Resolve(declared, supplied, g), h);
  }

  /** Once a resolution succeeded, resolving its result cannot raise. */
  lemma SecondResolutionSucceeds(declared: Declared, supplied: Values, g: Generator, h: Generator)
    requires Succeeds(declared, supplied, g)
    ensures Succeeds(declared, Resolve(declared, supplied, g), h)
  {
    var first := Resolve(declared, supplied, g);
    if declared != map[] {
      ResolutionSettles(declared, supplied, g);
      forall name | name in declared ensures !IsMissing(declared, first, h, name) {
        if declared[name].required {
          assert !IsMissing(declared, supplied, g, name);
          NonEmptyValueKept(declared, supplied, g, h, name);
        }
      }
    }
  }

  /** The aliases that resolving `t` once more would still apply. */
  ghost predicate AliasesApplied(declared: Declared, t: Values)
    requires Settled(declared, t)
  {
    && (SshPublicKey in t || Get(t, SshPublicKeys) == PyNone)
    && (PasswordAlias(t) == "" || forall name :: name in declared && declared[name].isPassword ==> t[name] != PyStr(""))
  }

  lemma SettledFixpointIff(declared: Declared, t: Values, h: Generator)
    requires declared != map[] && Settled(declared, t)
    ensures Resolve(declared, t, h) == t <==> AliasesApplied(declared, t)
  {
    var u := Resolve(declared, t, h);
    SettledStep(declared, t, h);
    if AliasesApplied(declared, t) {
      assert WithSshAlias(t) == t;
      forall name | name in declared ensures u[name] == t[name] {
        assert t[name] == PyStr(t[name].s);
      }
      assert u == t;
    } else if SshPublicKey !in t && Get(t, SshPublicKeys) != PyNone {
      assert SshPublicKey in WithSshAlias(t);
    } else {
      var name :| name in declared && declared[name].isPassword && t[name] == PyStr("");
      assert u[name] == PyStr(PasswordAlias(t));
    }
  }

  /** Only the template's own `ssh_public_keys` can make the ssh alias apply the second time. */
  predicate SshAliasComesLate(declared: Declared, supplied: Values) {
    && SshPublicKeys in declared && SshPublicKey !in declared
    && SshPublicKey !in supplied && Get(supplied, SshPublicKeys) == PyNone
  }

  /** Only the template's own `password` or `admin_password` can make a password alias appear the second time. */
  ghost predicate PasswordAliasComesLate(declared: Declared, supplied: Values) {
    && PasswordAlias(supplied) == ""
    && (exists key :: (key == Password || key == AdminPassword) && key in declared && !MayStayEmpty(declared[key]))
    && (exists name :: && name in declared && declared[name].isPassword && MayStayEmpty(declared[name])
                       && Coerce(Get(WithSshAlias(supplied), name)) == "")
  }

  lemma SshAliasAppliedIff(declared: Declared, supplied: Values, g: Generator)
    requires declared != map[]
    ensures var t := Resolve(declared, supplied, g);
            SshPublicKey in t || Get(t, SshPublicKeys) == PyNone <==> !SshAliasComesLate(declared, supplied)
  {
    hide ResolvedValue, Coerce;
  }

  /** When a declared value ends up empty. */
  lemma ResolvedEmptyIff(declared: Declared, supplied: Values, g: Generator, name: Key)
    requires name in declared
    ensures ResolvedValue(declared, supplied, g, name) == "" <==>
            && Coerce(Get(WithSshAlias(supplied), name)) == "" && MayStayEmpty(declared[name])
            && !(declared[name].isPassword && PasswordAlias(supplied) != "")
  {
    assert PasswordAlias(WithSshAlias(supplied)) == PasswordAlias(supplied);
    hide PasswordAlias, WithSshAlias;
  }

  lemma ExtraKeepsText(v: PyValue)
    ensures Coerce(Extra(v)) == Coerce(v)
  {
  }

  /** Without a password alias in the request, the result has one exactly when the template brings it. */
  lemma PasswordAliasOfResult(declared: Declared, supplied: Values, g: Generator)
    requires declared != map[] && PasswordAlias(supplied) == ""
    ensures PasswordAlias(Resolve(declared, supplied, g)) != "" <==>
            exists key :: (key == Password || key == AdminPassword) && key in declared && !MayStayEmpty(declared[key])
  {
    hide ResolvedValue, MayStayEmpty;
    var t := Resolve(declared, supplied, g);
    forall key | key == Password || key == AdminPassword
      ensures Coerce(Get(t, key)) != "" <==> key in declared && !MayStayEmpty(declared[key])
    {
      assert Coerce(Get(WithSshAlias(supplied), key)) == "";
      if key in declared {
        ResolvedEmptyIff(declared, supplied, g, key);
      } else if key in WithSshAlias(supplied) {
        ExtraKeepsText(WithSshAlias(supplied)[key]);
      }
    }
  }

  lemma PasswordAliasAppliedIff(declared: Declared, supplied: Values, g: Generator)
    requires declared != map[]
    ensures var t := Resolve(declared, supplied, g);
            PasswordAlias(t) == "" ||
            (forall name :: name in declared && declared[name].isPassword ==> t[name] != PyStr(""))
            <==> !PasswordAliasComesLate(declared, supplied)
  {
    hide ResolvedValue, MayStayEmpty, PasswordAlias, WithSshAlias;
    var t := Resolve(declared, supplied, g);
    forall name | name in declared && declared[name].isPassword
      ensures t[name] == PyStr("") <==>
              && PasswordAlias(supplied) == "" && MayStayEmpty(declared[name])
              && Coerce(Get(WithSshAlias(supplied), name)) == ""
    {
      ResolvedEmptyIff(declared, supplied, g, name);
    }
    if PasswordAlias(supplied) == "" {
      PasswordAliasOfResult(declared, supplied, g);
    }
  }

  /**
   The second resolution, the one that is stored, equals the validated first
   unless the template itself brings an alias that the request did not have: the
   condition is on the template and the request alone, whatever is generated.
   */
  lemma SecondEqualsFirstIff(declared: Declared, supplied: Values, g: Generator, h: Generator)
    ensures Resolve(declared, Resolve(declared, supplied, g), h) == Resolve(declared, supplied, g) <==>
            !SshAliasComesLate(declared, supplied) && !PasswordAliasComesLate(declared, supplied)
  {
    if declared != map[] {
      hide Resolve, SshAliasComesLate, PasswordAliasComesLate, PasswordAlias;
      ResolutionSettles(declared, supplied, g);
      SettledFixpointIff(declared, Resolve(declared, supplied, g), h);
      SshAliasAppliedIff(declared, supplied, g);
      PasswordAliasAppliedIff(declared, supplied, g);
    }
  }

  lemma AliasAfterStep(declared: Declared, t: Values, h: Generator)
    requires declared != map[] && Settled(declared, t)
    ensures PasswordAlias(t) == "" ==> PasswordAlias(Resolve(declared, t, h)) == ""
  {
    SettledStep(declared, t, h);
    var u := Resolve(declared, t, h);
    if PasswordAlias(t) == "" {
      forall key | key == Password || key == AdminPassword ensures Coerce(Get(u, key)) == "" {
        if key in u && key in declared { assert u[key] == t[key]; }
      }
    }
  }

  /** A third resolution changes nothing, whatever was supplied first. */
  lemma ThirdEqualsSecond(declared: Declared, supplied: Values, g: Generator, h: Generator, k: Generator)
    ensures var second := Resolve(declared, Resolve(declared, supplied, g), h);
            Resolve(declared, second, k) == second
  {
    if declared != map[] {
      var t := Resolve(declared, supplied, g);
      var u := Resolve(declared, t, h);
      ResolutionSettles(declared, supplied, g);
      SettledStep(declared, t, h);
      AliasAfterStep(declared, t, h);
      assert SshPublicKey in u || Get(u, SshPublicKeys) == PyNone;
      SettledFixpointIff(declared, u, k);
    }
  }

  /** The second resolution really can differ: a defaulted `password` fills another password. */
  lemma SecondCanDiffer(g: Generator, h: Generator)
    ensures var declared := map[Password := Param(false, false, PyStr("x"), false),
                                Other("root_pw") := Param(true, false, PyNone, false)];
            var first := Resolve(declared, map[], g);
            first[Other("root_pw")] == PyStr("") && Resolve(declared, first, h)[Other("root_pw")] == PyStr("x")
  {
    var declared := map[Password := Param(false, false, PyStr("x"), false),
                        Other("root_pw") := Param(true, false, PyNone, false)];
    var first := Resolve(declared, map[], g);
    assert Password in declared && Other("root_pw") in declared;
    assert first[Password] == PyStr("x");
    ResolutionSettles(declared, map[], g);
    SettledStep(declared, first, h);
  }

  // ----- the procedure -----

  predicate Enumerates(order: seq<Key>, declared: Declared) {
    && (forall i :: 0 <= i < |order| ==> order[i] in declared)
    && (forall name :: name in declared ==> name in order)
  }

  /** The missing names, in declaration order. */
  function MissingNames(declared: Declared, order: seq<Key>, supplied: Values, g: Generator): seq<Key>
    requires forall i :: 0 <= i < |order| ==> order[i] in declared
  {
    if order == [] then []
    else
      var last := |order| - 1;
      MissingNames(declared, order[..last], supplied, g) +
      (if IsMissing(declared, supplied, g, order[last]) then [order[last]] else [])
  }

  lemma {:induction false} NothingMissingIff(declared: Declared, order: seq<Key>, supplied: Values, g: Generator)
    requires forall i :: 0 <= i < |order| ==> order[i] in declared
    ensures MissingNames(declared, order, supplied, g) == [] <==>
            forall i :: 0 <= i < |order| ==> !IsMissing(declared, supplied, g, order[i])
  {
    if order != [] {
      var last := |order| - 1;
      NothingMissingIff(declared, order[..last], supplied, g);
      assert forall i :: 0 <= i < last ==> order[..last][i] == order[i];
    }
  }

  /** The loop over the declared parameters. */
  method FillDeclared(declared: Declared, order: seq<Key>, start: Values, g: Generator)
    returns (resolved: Values, missing: seq<Key>)
    requires Enumerates(order, declared)
    ensures missing == MissingNames(declared, order, start, g)
    ensures resolved.Keys == declared.Keys
    ensures forall name :: name in declared ==> resolved[name] == PyStr(ResolvedValue(declared, start, g, name))
  {
    var supplied := WithSshAlias(start);
    var alias := PasswordAlias(supplied);
    resolved, missing := map[], [];
    for i := 0 to |order|
      invariant missing == MissingNames(declared, order[..i], start, g)
      invariant forall name :: name in resolved <==> name in order[..i]
      invariant forall name :: name in resolved ==> resolved[name] == PyStr(ResolvedValue(declared, start, g, name))
    {
      var name := order[i];
      var value := ResolveOne(name, declared[name], supplied, alias, g(name));
      assert order[..i + 1][..i] == order[..i];
      assert value == ResolvedValue(declared, start, g, name);
      assert IsMissing(declared, start, g, name) <==> value == "" && declared[name].required;
      hide ResolvedValue, ResolveOne, IsMissing;
      if value == "" && declared[name].required { missing := missing + [name]; }
      resolved := resolved[name := PyStr(value)];
    }
    assert order[..|order|] == order;
  }

  /** `first` with the extra values of the keys in `done`. */
  function Merged(first: Values, supplied: Values, done: set<Key>): Values
    requires done <= supplied.Keys
  {
    map name | name in first.Keys + done :: if name in first then first[name] else Extra(supplied[name])
  }

  lemma MergedStep(first: Values, supplied: Values, done: set<Key>, key: Key)
    requires done <= supplied.Keys && key in supplied
    ensures var m := Merged(first, supplied, done);
            Merged(first, supplied, done + {key}) == if key in m then m else m[key := Extra(supplied[key])]
  {
    hide Extra;
  }

  lemma MergedNothing(first: Values, supplied: Values)
    ensures Merged(first, supplied, {}) == first
  {
    hide Extra;
  }

  /** The loop that copies the extra values, in whatever order the dictionary yields them. */
  method MergeExtra(first: Values, supplied: Values) returns (resolved: Values)
    ensures resolved == Merged(first, supplied, supplied.Keys)
  {
    resolved := first;
    var todo := supplied.Keys;
    ghost var done: set<Key> := {};
    MergedNothing(first, supplied);
    hide *;
    while todo != {}
      invariant done <= supplied.Keys && todo == supplied.Keys - done
      invariant resolved == Merged(first, supplied, done)
      decreases |todo|
    {
      var key :| key in todo;
      MergedStep(first, supplied, done, key);
      todo, done := todo - {key}, done + {key};
      if key !in resolved { resolved := resolved[key := Extra(supplied[key])]; }
    }
    assert done == supplied.Keys;
  }

  lemma ResolveIsMerged(declared: Declared, start: Values, g: Generator, first: Values)
    requires declared != map[] && first.Keys == declared.Keys
    requires forall name :: name in declared ==> first[name] == PyStr(ResolvedValue(declared, start, g, name))
    ensures Resolve(declared, start, g) == Merged(first, WithSshAlias(start), WithSshAlias(start).Keys)
  {
    hide ResolvedValue, Extra;
  }

  method ResolveTemplateParameters(declared: Declared, order: seq<Key>, given: Option<Values>, g: Generator)
    returns (r: Outcome)
    requires Enumerates(order, declared)
    ensures var supplied := if given.None? then map[] else given.value;
            && (r.Resolved? <==> Succeeds(declared, supplied, g))
            && (r.Resolved? ==> r.values == Resolve(declared, supplied, g))
            && (r.Missing? ==> r.names == MissingNames(declared, order, supplied, g))
    ensures var supplied := if given.None? then map[] else given.value;
            && (r.Resolved? && declared == map[] ==> r.values == supplied)
            && (r.Resolved? && declared != map[] ==> FollowsTemplate(declared, supplied, g, r.values))
            && (r.Resolved? <==> forall name :: name in declared && declared[name].required ==>
                                   !FromSource(declared[name], supplied, name, g(name), ""))
            && (r.Missing? ==> forall name :: name in r.names <==>
                                 name in declared && declared[name].required &&
                                 FromSource(declared[name], supplied, name, g(name), ""))
  {
    var start := if given.None? then map[] else given.value;
    if declared == map[] { return Resolved(start); }
    var resolved, missing := FillDeclared(declared, order, start, g);
    NothingMissingIff(declared, order, start, g);
    ResolveIsMerged(declared, start, g, resolved);
    ResolveFollowsTemplate(declared, start, g);
    MissingNamesAre(declared, order, start, g);
    hide FromSource, CopiesExtras, FollowsTemplate;
    hide ResolvedValue, IsMissing, Resolve, Merged, WithSshAlias;
    if missing != [] { return Missing(missing); }
    var all := MergeExtra(resolved, WithSshAlias(start));
    r := Resolved(all);
  }
}
