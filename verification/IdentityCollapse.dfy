/**
 The migration that folds external billing identities into the users table, and
 its downgrade. Tables are maps from primary keys to rows; the row order of a
 SELECT without ORDER BY is a parameter.
 */
module IdentityCollapse {
  import opened PyText
  import opened FreshNames

  /** The four nullable billing columns of a user. */
  datatype Stamp = Stamp(integration: Option<nat>, extId: Option<string>, name: Option<string>, email: Option<string>)

  const BLANK := Stamp(None, None, None, None)

  datatype User = User(username: string, email: string, password: Option<string>, isAdmin: bool, stamp: Stamp)
  datatype ExtUser = ExtUser(integration: nat, extId: string, name: Option<string>, email: Option<string>)
  datatype Service = Service(owner: Option<nat>, ext: Option<nat>)

  type Users = map<nat, User>
  type ExtUsers = map<nat, ExtUser>

  /** `links` maps an external user to its linked user: the link table is unique on that column. */
  datatype Db = Db(users: Users, nextUser: nat, extUsers: ExtUsers, links: map<nat, nat>, services: map<nat, Service>)

  function StampOf(row: ExtUser): Stamp {
    Stamp(Some(row.integration), Some(row.extId), row.name, row.email)
  }

  /** The pair the unique constraint is about. */
  predicate HasPair(s: Stamp) {
    s.integration.Some? && s.extId.Some?
  }

  predicate SamePair(s: Stamp, t: Stamp) {
    HasPair(s) && HasPair(t) && s.integration == t.integration && s.extId == t.extId
  }

  ghost predicate UniquePairs(users: Users) {
    forall u, v :: u in users && v in users && SamePair(users[u].stamp, users[v].stamp) ==> u == v
  }

  ghost predicate UniqueLogins(users: Users) {
    && (forall u, v :: u in users && v in users && users[u].username == users[v].username ==> u == v)
    && (forall u, v :: u in users && v in users && users[u].email == users[v].email ==> u == v)
  }

  ghost predicate UniqueExtUsers(ext: ExtUsers) {
    forall e, f :: e in ext && f in ext && ext[e].integration == ext[f].integration && ext[e].extId == ext[f].extId ==>
                     e == f
  }

  /** The constraints the database enforces before the upgrade. */
  ghost predicate Valid(db: Db) {
    && (forall u :: u in db.users ==> u < db.nextUser)
    && UniqueLogins(db.users)
    && UniqueExtUsers(db.extUsers)
    && (forall e :: e in db.links ==> e in db.extUsers && db.links[e] in db.users)
    && (forall s :: s in db.services && db.services[s].ext.Some? ==> db.services[s].ext.value in db.extUsers)
  }

  // ----- fresh usernames and emails -----

  predicate IsNameChar(c: char) {
    'a' <= c <= 'z' || 'A' <= c <= 'Z' || IsDigit(c) || c == '_' || c == '.' || c == '-'
  }

  predicate IsTrimmed(c: char) {
    c == '.' || c == '-' || c == '_'
  }

  predicate OnlyNameChars(s: string) {
    forall i :: 0 <= i < |s| ==> IsNameChar(s[i])
  }

  function KeepNameChars(s: string): (r: string)
    ensures OnlyNameChars(r)
  {
    if s == "" then "" else (if IsNameChar(s[0]) then [s[0]] else "") + KeepNameChars(s[1..])
  }

  function TrimLeft(s: string): (r: string)
    ensures OnlyNameChars(s) ==> OnlyNameChars(r)
  {
    if s != "" && IsTrimmed(s[0]) then TrimLeft(s[1..]) else s
  }

  function TrimRight(s: string): (r: string)
    ensures OnlyNameChars(s) ==> OnlyNameChars(r)
  {
    if s != "" && IsTrimmed(s[|s| - 1]) then TrimRight(s[..|s| - 1]) else s
  }

  function SafeBase(base: string): (r: string)
    ensures r != "" && OnlyNameChars(r)
  {
    var r := TrimRight(TrimLeft(KeepNameChars(base)));
    if r == "" then "client" else r
  }

  /** What SafeBase keeps: name characters only, with none of ".-_" at its ends, in one piece of the kept ones. */
  lemma SafeBaseOf(base: string) returns (left: string, right: string)
    ensures var r := SafeBase(base); IsClean(r) && r[0] !in ['.', '-', '_'] && r[|r| - 1] !in ['.', '-', '_']
    ensures forall i :: 0 <= i < |left| ==> left[i] in ['.', '-', '_']
    ensures forall i :: 0 <= i < |right| ==> right[i] in ['.', '-', '_']
    ensures (KeepNameChars(base) == left + right && SafeBase(base) == "client") ||
            KeepNameChars(base) == left + SafeBase(base) + right
  {
    hide KeepNameChars, TrimLeft, TrimRight, IsClean, OnlyNameChars;
    var kept := KeepNameChars(base);
    left := TrimmedLeft(kept);
    right := TrimmedRight(TrimLeft(kept));
    TrimLeftHead(kept);
    TrimRightKeepsHead(TrimLeft(kept));
    NameCharsAreClean(SafeBase(base));
  }

  lemma NameCharsAreClean(s: string)
    requires OnlyNameChars(s)
    ensures IsClean(s)
  {
  }

  lemma {:induction false} TrimmedLeft(s: string) returns (left: string)
    ensures s == left + TrimLeft(s) && forall i :: 0 <= i < |left| ==> left[i] in ['.', '-', '_']
  {
    if s != "" && IsTrimmed(s[0]) {
      left := TrimmedLeft(s[1..]);
      left := [s[0]] + left;
    } else {
      left := "";
    }
  }

  lemma {:induction false} TrimmedRight(s: string) returns (right: string)
    ensures s == TrimRight(s) + right && forall i :: 0 <= i < |right| ==> right[i] in ['.', '-', '_']
    ensures TrimRight(s) != "" ==> TrimRight(s)[|TrimRight(s)| - 1] !in ['.', '-', '_']
  {
    if s != "" && IsTrimmed(s[|s| - 1]) {
      right := TrimmedRight(s[..|s| - 1]);
      right := right + [s[|s| - 1]];
    } else {
      right := "";
    }
  }

  lemma {:induction false} TrimLeftHead(s: string)
    ensures TrimLeft(s) != "" ==> TrimLeft(s)[0] !in ['.', '-', '_']
  {
    if s != "" && IsTrimmed(s[0]) { TrimLeftHead(s[1..]); }
  }

  lemma {:induction false} TrimRightKeepsHead(s: string)
    ensures TrimRight(s) != "" ==> s != "" && TrimRight(s)[0] == s[0]
  {
    if s != "" && IsTrimmed(s[|s| - 1]) { TrimRightKeepsHead(s[..|s| - 1]); }
  }

  /** The characters a username may have. */
  predicate IsClean(s: string) {
    forall i :: 0 <= i < |s| ==>
      'a' <= s[i] <= 'z' || 'A' <= s[i] <= 'Z' || '0' <= s[i] <= '9' || s[i] in ['_', '.', '-']
  }

  /** Keeping drops exactly the other characters, one by one. */
  lemma KeepsByChar(c: char, s: string)
    ensures KeepNameChars([c] + s) == (if IsClean([c]) then [c] else "") + KeepNameChars(s)
  {
    assert ([c] + s)[0] == c && ([c] + s)[1..] == s && [c][0] == c;
  }

  lemma {:induction false} KeepsClean(s: string)
    requires IsClean(s)
    ensures KeepNameChars(s) == s
  {
    hide KeepNameChars, IsClean;
    if s == "" {
      KeepsNothing();
    } else {
      CleanParts(s);
      KeepsClean(s[1..]);
      assert s == [s[0]] + s[1..];
      KeepsByChar(s[0], s[1..]);
    }
  }

  lemma KeepsNothing()
    ensures KeepNameChars("") == ""
  {
  }

  lemma CleanParts(s: string)
    requires s != "" && IsClean(s)
    ensures IsClean([s[0]]) && IsClean(s[1..])
  {
    forall i | 0 <= i < |s[1..]| ensures IsClean([s[1..][i]]) {
      assert s[1..][i] == s[i + 1];
    }
    assert forall i :: 0 <= i < |s[1..]| ==> s[1..][i] == [s[1..][i]][0];
  }

  const CLIENT_DOMAIN := "@clients.rackflow.local"

  function UsernameNumbering(base: string): (n: Numbering)
    ensures Injective(n)
  {
    var n := Numbering(base, base, 0, "");
    InjectiveWhenFirstIsShorter(n);
    n
  }

  function EmailNumbering(username: string): (n: Numbering)
    ensures Injective(n)
  {
    var n := Numbering(username + CLIENT_DOMAIN, username, 0, CLIENT_DOMAIN);
    InjectiveWhenFirstIsShorter(n);
    n
  }

  function Usernames(users: Users): set<string> {
    set u | u in users :: users[u].username
  }

  function Emails(users: Users): set<string> {
    set u | u in users :: users[u].email
  }

  ghost function UniqueUsername(used: set<string>, base: string): (r: string)
    ensures r !in used
  {
    FirstFree(UsernameNumbering(SafeBase(base)), used, 0)
  }

  ghost function UniqueEmail(used: set<string>, base: Option<string>, username: string): (r: string)
    ensures r !in used
  {
    if base.Some? && base.value != "" && base.value !in used then base.value
    else FirstFree(EmailNumbering(username), used, 0)
  }

  // ----- the loop over the external users -----

  /** Users so far, `eu_to_user`, and (for the proofs) who stamped each user last. */
  datatype Progress = Progress(users: Users, nextUser: nat, owners: map<nat, nat>, stampedBy: map<nat, nat>)

  function BaseName(row: ExtUser): string {
    if row.name.Some? && row.name.value != "" then row.name.value else "ext" + row.extId
  }

  ghost function NewUser(users: Users, row: ExtUser): User {
    var username := UniqueUsername(Usernames(users), BaseName(row));
    User(username, UniqueEmail(Emails(users), row.email, username), None, false, BLANK)
  }

  /** The names a search tries: the first, then the numbered ones from 1. */
  function Tried(first: string, front: string, back: string, k: nat): string {
    if k == 0 then first else front + Decimal(k) + back
  }

  /** `r` is the first of them that is not in use. */
  ghost predicate FirstUntaken(used: set<string>, first: string, front: string, back: string, r: string) {
    exists k: nat :: && r == Tried(first, front, back, k) && r !in used
                     && forall j: nat :: j < k ==> Tried(first, front, back, j) in used
  }

  lemma FirstFreeIsUntaken(n: Numbering, used: set<string>, k: nat)
    requires Injective(n) && AllTaken(n, used, k)
    ensures exists m: nat :: FirstFree(n, used, k) == Name(n, m) && AllTaken(n, used, m) && Name(n, m) !in used
    decreases |used| + 1 - k
  {
    TakenAtMost(n, used, k);
    if Name(n, k) in used {
      TakenAtMost(n, used, k + 1);
      FirstFreeIsUntaken(n, used, k + 1);
    }
  }

  /**
   The names of a created user: base, base1, base2, ... from the external name,
   else from "ext" and the external id; the billing email if it is free, else
   the username at the placeholder domain, numbered before the "@".
   */
  lemma CreatedUserNames(users: Users, row: ExtUser)
    ensures var base := SafeBase(if row.name.Some? && row.name.value != "" then row.name.value else "ext" + row.extId);
            FirstUntaken(Usernames(users), base, base, "", NewUser(users, row).username)
    ensures var (u, mail) := (NewUser(users, row), "@clients.rackflow.local");
            if row.email.Some? && row.email.value != "" && row.email.value !in Emails(users)
            then u.email == row.email.value
            else FirstUntaken(Emails(users), u.username + mail, u.username, mail, u.email)
  {
    var base := SafeBase(BaseName(row));
    FirstFreeIsUntaken(UsernameNumbering(base), Usernames(users), 0);
    NumberingIsUntaken(UsernameNumbering(base), Usernames(users));
    var name := NewUser(users, row).username;
    FirstFreeIsUntaken(EmailNumbering(name), Emails(users), 0);
    NumberingIsUntaken(EmailNumbering(name), Emails(users));
  }

  lemma NumberingIsUntaken(n: Numbering, used: set<string>)
    requires Injective(n) && n.offset == 0
    ensures AllTaken(n, used, 0) && FirstUntaken(used, n.first, n.front, n.back, FirstFree(n, used, 0))
  {
    FirstFreeIsUntaken(n, used, 0);
    var m: nat :| FirstFree(n, used, 0) == Name(n, m) && AllTaken(n, used, m) && Name(n, m) !in used;
    forall j: nat | j < m ensures Tried(n.first, n.front, n.back, j) in used {
      assert Name(n, j) in used;
    }
    assert Name(n, m) == Tried(n.first, n.front, n.back, m);
  }

  /** A created user gets the next key and is the only new one; a linked identity creates none. */
  lemma OneUserCreated(p: Progress, row: ExtUser, link: Option<nat>)
    ensures var q := WithUser(p, row, link);
            && q.owners == p.owners && q.stampedBy == p.stampedBy
            && (link.Some? ==> q == p)
            && (link.None? ==> q.nextUser == p.nextUser + 1 && q.users == p.users[p.nextUser := NewUser(p.users, row)])
  {
  }

  /** In particular a clean external username that is free is taken over as it is. */
  lemma CleanNameIsKept(users: Users, row: ExtUser)
    requires row.name.Some? && row.name.value != "" && IsClean(row.name.value)
    requires row.name.value[0] !in ['.', '-', '_'] && row.name.value[|row.name.value| - 1] !in ['.', '-', '_']
    requires row.name.value !in Usernames(users)
    ensures NewUser(users, row).username == row.name.value
  {
    hide NewUser, SafeBase;
    var name := row.name.value;
    CleanBase(name);
    CreatedUserNames(users, row);
    assert Tried(name, name, "", 0) !in Usernames(users);
  }

  lemma CleanBase(name: string)
    requires name != "" && IsClean(name) && name[0] !in ['.', '-', '_'] && name[|name| - 1] !in ['.', '-', '_']
    ensures SafeBase(name) == name
  {
    KeepsClean(name);
    assert TrimLeft(name) == name && TrimRight(name) == name;
    hide KeepNameChars;
  }

  ghost function WithUser(p: Progress, row: ExtUser, link: Option<nat>): Progress {
    if link.Some? then p
    else p.(users := p.users[p.nextUser := NewUser(p.users, row)], nextUser := p.nextUser + 1)
  }

  ghost function CollapseOne(p: Progress, e: nat, row: ExtUser, link: Option<nat>): Progress
    requires link.Some? ==> link.value in p.users
  {
    var q := WithUser(p, row, link);
    var u := if link.Some? then link.value else p.nextUser;
    Progress(q.users[u := q.users[u].(stamp := StampOf(row))], q.nextUser, q.owners[e := u], q.stampedBy[u := e])
  }

  function LinkOf(db: Db, e: nat): Option<nat> {
    if e in db.links then Some(db.links[e]) else None
  }

  ghost predicate InOrder(db: Db, order: seq<nat>) {
    Distinct(order) && forall i :: 0 <= i < |order| ==> order[i] in db.extUsers
  }

  /** The rows of `order` are processed one after the other. */
  ghost function Collapse(db: Db, order: seq<nat>): (p: Progress)
    requires Valid(db) && InOrder(db, order)
    ensures p.users.Keys >= db.users.Keys
  {
    if order == [] then Progress(db.users, db.nextUser, map[], map[])
    else
      var n := |order| - 1;
      var p := Collapse(db, order[..n]);
      CollapseOne(p, order[n], db.extUsers[order[n]], LinkOf(db, order[n]))
  }

  // ----- what the loop keeps -----

  /** Existing users keep everything but their billing columns; logins stay unique. */
  ghost predicate UsersKept(db: Db, p: Progress) {
    && db.nextUser <= p.nextUser
    && (forall u :: u in p.users ==> u < p.nextUser)
    && UniqueLogins(p.users)
    && (forall u :: u in db.users ==> u in p.users && p.users[u].(stamp := BLANK) == db.users[u].(stamp := BLANK))
    && (forall u :: u in p.users && u !in db.users ==>
          db.nextUser <= u && p.users[u].password.None? && !p.users[u].isAdmin)
  }

  /** Every processed row has its linked user, or a user of its own. */
  ghost predicate OwnersRight(db: Db, order: seq<nat>, p: Progress) {
    && (forall e :: e in p.owners <==> e in order)
    && (forall e :: e in p.owners ==> p.owners[e] in p.users)
    && (forall e :: e in p.owners && e in db.links ==> p.owners[e] == db.links[e])
    && (forall e :: e in p.owners && e !in db.links ==> p.owners[e] !in db.users)
    && (forall e, f :: e in p.owners && f in p.owners && e !in db.links && p.owners[e] == p.owners[f] ==> e == f)
  }

  /** A stamped user carries the identity of the row that stamped it last, any other its old one. */
  ghost predicate StampRight(db: Db, p: Progress, u: nat) {
    u in p.users &&
    if u in p.stampedBy then
      var e := p.stampedBy[u];
      e in p.owners && p.owners[e] == u && e in db.extUsers && p.users[u].stamp == StampOf(db.extUsers[e])
    else u in db.users && p.users[u].stamp == db.users[u].stamp
  }

  ghost predicate StampsRight(db: Db, p: Progress) {
    && p.stampedBy.Keys <= p.users.Keys
    && (forall u :: u in p.users ==> StampRight(db, p, u))
    && (forall e :: e in p.owners ==> p.owners[e] in p.stampedBy)
  }

  lemma NewUserIsFresh(users: Users, row: ExtUser)
    ensures var newcomer := NewUser(users, row);
            && newcomer.password.None? && !newcomer.isAdmin && newcomer.stamp == BLANK
            && forall u :: u in users ==> users[u].username != newcomer.username && users[u].email != newcomer.email
  {
    hide UniqueUsername, UniqueEmail;
    var newcomer := NewUser(users, row);
    forall u | u in users ensures users[u].username != newcomer.username && users[u].email != newcomer.email {
      assert users[u].username in Usernames(users) && users[u].email in Emails(users);
    }
  }

  lemma WithUserKept(db: Db, p: Progress, row: ExtUser, link: Option<nat>)
    requires UsersKept(db, p)
    ensures UsersKept(db, WithUser(p, row, link))
  {
    NewUserIsFresh(p.users, row);
    hide NewUser, UniqueUsername, UniqueEmail;
  }

  lemma StampKeepsLogins(users: Users, u: nat, s: Stamp)
    requires UniqueLogins(users) && u in users
    ensures UniqueLogins(users[u := users[u].(stamp := s)])
  {
    var after := users[u := users[u].(stamp := s)];
    assert forall v :: v in after ==>
                         v in users && after[v].username == users[v].username && after[v].email == users[v].email;
  }

  lemma StampKept(db: Db, p: Progress, u: nat, s: Stamp, owners: map<nat, nat>, stampedBy: map<nat, nat>)
    requires UsersKept(db, p) && u in p.users
    ensures UsersKept(db, Progress(p.users[u := p.users[u].(stamp := s)], p.nextUser, owners, stampedBy))
  {
    StampKeepsLogins(p.users, u, s);
    hide UniqueLogins;
  }

  lemma UsersKeptStep(db: Db, p: Progress, e: nat, row: ExtUser, link: Option<nat>)
    requires UsersKept(db, p) && (link.Some? ==> link.value in p.users)
    ensures UsersKept(db, CollapseOne(p, e, row, link))
  {
    var q := WithUser(p, row, link);
    var u := if link.Some? then link.value else p.nextUser;
    WithUserKept(db, p, row, link);
    StampKept(db, q, u, StampOf(row), q.owners[e := u], q.stampedBy[u := e]);
    hide UsersKept, NewUser;
  }

  lemma OwnersRightStep(db: Db, order: seq<nat>, p: Progress, e: nat, row: ExtUser)
    requires UsersKept(db, p) && OwnersRight(db, order, p) && e !in order
    requires e in db.links ==> db.links[e] in db.users
    ensures OwnersRight(db, order + [e], CollapseOne(p, e, row, LinkOf(db, e)))
  {
    hide NewUser, UniqueLogins;
  }

  lemma StampRightStep(db: Db, order: seq<nat>, p: Progress, e: nat, u: nat)
    requires OwnersRight(db, order, p) && e !in order && e in db.extUsers
    requires e in db.links ==> db.links[e] in p.users
    requires u in p.users ==> StampRight(db, p, u)
    requires u in CollapseOne(p, e, db.extUsers[e], LinkOf(db, e)).users
    ensures StampRight(db, CollapseOne(p, e, db.extUsers[e], LinkOf(db, e)), u)
  {
    hide NewUser;
    assert e !in p.owners;
  }

  lemma StampsRightStep(db: Db, order: seq<nat>, p: Progress, e: nat)
    requires OwnersRight(db, order, p) && StampsRight(db, p) && e !in order && e in db.extUsers
    requires e in db.links ==> db.links[e] in p.users
    ensures StampsRight(db, CollapseOne(p, e, db.extUsers[e], LinkOf(db, e)))
  {
    hide NewUser, OwnersRight, StampRight;
    var q := CollapseOne(p, e, db.extUsers[e], LinkOf(db, e));
    forall u | u in q.users ensures StampRight(db, q, u) {
      StampRightStep(db, order, p, e, u);
    }
  }

  lemma CollapseKeepsStep(db: Db, front: seq<nat>, p: Progress, e: nat)
    requires Valid(db) && UsersKept(db, p) && OwnersRight(db, front, p) && StampsRight(db, p)
    requires e in db.extUsers && e !in front && (e in db.links ==> db.links[e] in p.users)
    ensures var q := CollapseOne(p, e, db.extUsers[e], LinkOf(db, e));
            UsersKept(db, q) && OwnersRight(db, front + [e], q) && StampsRight(db, q)
  {
    assert e in db.links ==> db.links[e] in db.users;
    hide UsersKept, OwnersRight, StampsRight, CollapseOne, Valid;
    UsersKeptStep(db, p, e, db.extUsers[e], LinkOf(db, e));
    OwnersRightStep(db, front, p, e, db.extUsers[e]);
    StampsRightStep(db, front, p, e);
  }

  lemma NothingDone(db: Db)
    requires Valid(db)
    ensures var p := Progress(db.users, db.nextUser, map[], map[]);
            UsersKept(db, p) && OwnersRight(db, [], p) && StampsRight(db, p)
  {
  }

  lemma {:induction false} CollapseKeeps(db: Db, order: seq<nat>)
    requires Valid(db) && InOrder(db, order)
    ensures var p := Collapse(db, order);
            UsersKept(db, p) && OwnersRight(db, order, p) && StampsRight(db, p)
  {
    if order == [] {
      NothingDone(db);
    } else {
      var n := |order| - 1;
      var (front, e) := (order[..n], order[n]);
      assert front + [e] == order && e !in front && e in db.extUsers;
      assert e in db.links ==> db.links[e] in db.users;
      hide UsersKept, OwnersRight, StampsRight, CollapseOne, Valid, UniqueLogins, UniqueExtUsers;
      CollapseKeeps(db, front);
      CollapseKeepsStep(db, front, Collapse(db, front), e);
    }
  }

  // ----- the upgrade as a whole -----

  ghost predicate FullOrder(db: Db, order: seq<nat>) {
    InOrder(db, order) && forall e :: e in db.extUsers ==> e in order
  }

  /** The remapping of one service; the old column is dropped. */
  function RemapOne(service: Service, owners: map<nat, nat>): Service {
    Service(if service.owner.None? && service.ext.Some? && service.ext.value in owners
            then Some(owners[service.ext.value]) else service.owner,
            None)
  }

  function Remap(services: map<nat, Service>, owners: map<nat, nat>): map<nat, Service> {
    map s | s in services :: RemapOne(services[s], owners)
  }

  ghost function Upgrade(db: Db, order: seq<nat>): Db
    requires Valid(db) && FullOrder(db, order)
  {
    var p := Collapse(db, order);
    Db(p.users, p.nextUser, map[], map[], Remap(db.services, p.owners))
  }

  /** Usernames and emails stay unique and no existing login changes; new users are plain clients. */
  lemma UpgradeKeepsLogins(db: Db, order: seq<nat>)
    requires Valid(db) && FullOrder(db, order)
    ensures var up := Upgrade(db, order);
            && UniqueLogins(up.users)
            && (forall u :: u in db.users ==>
                  u in up.users && up.users[u].(stamp := BLANK) == db.users[u].(stamp := BLANK))
            && (forall u :: u in up.users && u !in db.users ==> up.users[u].password.None? && !up.users[u].isAdmin)
  {
    CollapseKeeps(db, order);
    hide OwnersRight, StampsRight;
  }

  lemma UnlinkedKeepsItsStamp(db: Db, order: seq<nat>, e: nat)
    requires Valid(db) && FullOrder(db, order) && e in db.extUsers && e !in db.links
    ensures var p := Collapse(db, order);
            && e in p.owners && p.owners[e] in p.users && p.owners[e] !in db.users
            && p.users[p.owners[e]].stamp == StampOf(db.extUsers[e])
  {
    CollapseKeeps(db, order);
    var p := Collapse(db, order);
    assert StampRight(db, p, p.owners[e]);
  }

  /**
   Every service that had an external user has an owner afterwards: the one it
   had, else the linked user, else the user created for that identity.
   */
  lemma OwnershipConserved(db: Db, order: seq<nat>, s: nat)
    requires Valid(db) && FullOrder(db, order) && s in db.services
    ensures var up := Upgrade(db, order);
            var before := db.services[s];
            && s in up.services && up.services.Keys == db.services.Keys
            && var after := up.services[s].owner;
            && (before.owner.Some? || before.ext.None? ==> after == before.owner)
            && (before.owner.None? && before.ext.Some? ==>
                  var e := before.ext.value;
                  && after.Some? && after.value in up.users
                  && (e in db.links ==> after.value == db.links[e])
                  && (e !in db.links ==>
                        after.value !in db.users && up.users[after.value].stamp == StampOf(db.extUsers[e])))
  {
    CollapseKeeps(db, order);
    var before := db.services[s];
    if before.ext.Some? && before.ext.value !in db.links {
      UnlinkedKeepsItsStamp(db, order, before.ext.value);
    }
    assert before.ext.Some? && before.ext.value in db.links ==> before.ext.value in order;
    hide StampsRight, UsersKept, Collapse, UniqueLogins, UniqueExtUsers;
  }

  // ----- the unique constraint on (billing_integration_id, external_user_id) -----

  /** No later row of `order` is linked to the same user as `e`. */
  ghost predicate Survives(db: Db, order: seq<nat>, e: nat) {
    order != [] &&
    var (front, last) := (order[..|order| - 1], order[|order| - 1]);
    e == last || (Survives(db, front, e) && !(e in db.links && last in db.links && db.links[e] == db.links[last]))
  }

  lemma SurvivesUnfold(db: Db, front: seq<nat>, last: nat, e: nat)
    ensures Survives(db, front + [last], e) <==>
            e == last ||
            (Survives(db, front, e) && !(e in db.links && last in db.links && db.links[e] == db.links[last]))
  {
    assert (front + [last])[..|front|] == front;
  }

  /** The next row stamps the user of an earlier row only when both are linked to it. */
  lemma SharedTargetIff(db: Db, front: seq<nat>, p: Progress, last: nat, e: nat)
    requires UsersKept(db, p) && OwnersRight(db, front, p) && e in p.owners
    requires last in db.links ==> db.links[last] in db.users
    ensures var target := if last in db.links then db.links[last] else p.nextUser;
            p.owners[e] == target <==> e in db.links && last in db.links && db.links[e] == db.links[last]
  {
    assert p.owners[e] in p.users;
  }

  lemma SurvivesStep(db: Db, front: seq<nat>, p: Progress, last: nat, e: nat)
    requires UsersKept(db, p) && OwnersRight(db, front, p)
    requires last in db.extUsers && last !in front && (last in db.links ==> db.links[last] in db.users)
    requires e in p.owners && p.owners[e] in p.stampedBy && (p.stampedBy[p.owners[e]] == e <==> Survives(db, front, e))
    requires last in db.links ==> db.links[last] in p.users
    ensures var q := CollapseOne(p, last, db.extUsers[last], LinkOf(db, last));
            && e in q.owners && q.owners[e] in q.stampedBy
            && (q.stampedBy[q.owners[e]] == e <==> Survives(db, front + [last], e))
  {
    assert e != last;
    SharedTargetIff(db, front, p, last, e);
    SurvivesUnfold(db, front, last, e);
    hide UsersKept, OwnersRight, Survives, WithUser;
  }

  /** A row is the last to stamp its user exactly when it survives. */
  lemma {:induction false} StampedByIffSurvives(db: Db, order: seq<nat>, e: nat)
    requires Valid(db) && InOrder(db, order) && e in order
    ensures var p := Collapse(db, order);
            && e in p.owners && p.owners[e] in p.stampedBy
            && (p.stampedBy[p.owners[e]] == e <==> Survives(db, order, e))
  {
    var n := |order| - 1;
    var (front, last) := (order[..n], order[n]);
    assert front + [last] == order && last !in front && last in db.extUsers;
    assert last in db.links ==> db.links[last] in db.users;
    CollapseKeeps(db, front);
    var p := Collapse(db, front);
    hide UsersKept, OwnersRight, StampsRight, Valid, UniqueLogins, UniqueExtUsers, Survives;
    if e == last {
      SurvivesUnfold(db, front, last, e);
    } else {
      assert e in front;
      StampedByIffSurvives(db, front, e);
      SurvivesStep(db, front, p, last, e);
    }
  }

  /** A user no external user is linked to. */
  ghost predicate Untouched(db: Db, u: nat) {
    u in db.users && forall e :: e in db.links ==> db.links[e] != u
  }

  /** Identities users carried before do not collide with each other or with the rows that stay. */
  ghost predicate CarriedPairsFit(db: Db, order: seq<nat>) {
    && (forall u, v :: Untouched(db, u) && Untouched(db, v) && SamePair(db.users[u].stamp, db.users[v].stamp) ==>
          u == v)
    && (forall u, e :: Untouched(db, u) && e in db.extUsers && Survives(db, order, e) ==>
          !SamePair(db.users[u].stamp, StampOf(db.extUsers[e])))
  }

  lemma StampOfUser(db: Db, order: seq<nat>, u: nat) returns (e: Option<nat>)
    requires Valid(db) && FullOrder(db, order) && u in Collapse(db, order).users
    ensures var p := Collapse(db, order);
            && (e.None? ==> Untouched(db, u) && p.users[u].stamp == db.users[u].stamp)
            && (e.Some? ==> e.value in db.extUsers && Survives(db, order, e.value) && !Untouched(db, u) &&
                            p.users[u].stamp == StampOf(db.extUsers[e.value]) &&
                            e.value in p.owners && p.owners[e.value] == u)
  {
    var p := Collapse(db, order);
    CollapseKeeps(db, order);
    assert StampRight(db, p, u);
    if u in p.stampedBy {
      e := Some(p.stampedBy[u]);
      StampedByIffSurvives(db, order, e.value);
      if u in db.users { assert e.value in db.links; }
    } else {
      e := None;
      forall f | f in db.links ensures db.links[f] != u { assert f in order && f in p.owners; }
    }
  }

  lemma UntouchedKeepsItsStamp(db: Db, order: seq<nat>, u: nat)
    requires Valid(db) && FullOrder(db, order) && Untouched(db, u)
    ensures u in Collapse(db, order).users && Collapse(db, order).users[u].stamp == db.users[u].stamp
  {
    CollapseKeeps(db, order);
    var _ := StampOfUser(db, order, u);
  }

  lemma SurvivorStampsItsOwner(db: Db, order: seq<nat>, e: nat) returns (u: nat)
    requires Valid(db) && FullOrder(db, order) && e in db.extUsers && Survives(db, order, e)
    ensures var p := Collapse(db, order);
            u in p.users && p.users[u].stamp == StampOf(db.extUsers[e]) && !Untouched(db, u)
  {
    CollapseKeeps(db, order);
    StampedByIffSurvives(db, order, e);
    var p := Collapse(db, order);
    u := p.owners[e];
    assert StampRight(db, p, u);
    var _ := StampOfUser(db, order, u);
    if u in db.users { assert e in db.links; }
  }

  /**
   The unique constraint can be added exactly when the identities that users
   carried before fit; with several links to one user, the last row counts.
   */
  lemma UniqueConstraintHoldsIff(db: Db, order: seq<nat>)
    requires Valid(db) && FullOrder(db, order)
    ensures UniquePairs(Upgrade(db, order).users) <==> CarriedPairsFit(db, order)
  {
    var users := Collapse(db, order).users;
    if UniquePairs(users) {
      forall u, v | Untouched(db, u) && Untouched(db, v) && SamePair(db.users[u].stamp, db.users[v].stamp)
        ensures u == v
      {
        UntouchedKeepsItsStamp(db, order, u);
        UntouchedKeepsItsStamp(db, order, v);
      }
      forall u, e | Untouched(db, u) && e in db.extUsers && Survives(db, order, e)
        ensures !SamePair(db.users[u].stamp, StampOf(db.extUsers[e]))
      {
        UntouchedKeepsItsStamp(db, order, u);
        var v := SurvivorStampsItsOwner(db, order, e);
      }
    }
    if CarriedPairsFit(db, order) {
      forall u, v | u in users && v in users && SamePair(users[u].stamp, users[v].stamp) ensures u == v {
        var e := StampOfUser(db, order, u);
        var f := StampOfUser(db, order, v);
      }
    }
  }

  /** In particular when no user carried an identity, as after the columns were just added. */
  lemma UniqueConstraintHolds(db: Db, order: seq<nat>)
    requires Valid(db) && FullOrder(db, order)
    requires forall u :: u in db.users ==> !HasPair(db.users[u].stamp)
    ensures UniquePairs(Upgrade(db, order).users)
  {
    UniqueConstraintHoldsIff(db, order);
  }

  // ----- running the upgrade again after it stopped midway -----

  /**
   Where a run stopped. The loops run in one transaction, which the first table
   change after them commits; from then on every table change stays.
   */
  datatype Stop =
    | BeforeCommit     // the loops are rolled back
    | TablesKept       // the loops are committed, both old tables are still there
    | LinksDropped     // the link table is gone, the external users are not
    | TablesDropped    // only the unique constraint is missing

  /** What such a run leaves; a table that was dropped is read like an empty one. */
  ghost function Leaves(db: Db, p: Progress, stop: Stop): Db {
    var up := Db(p.users, p.nextUser, map[], map[], Remap(db.services, p.owners));
    match stop
    case BeforeCommit => db
    case TablesKept => up.(extUsers := db.extUsers, links := db.links)
    case LinksDropped => up.(extUsers := db.extUsers)
    case TablesDropped => up
  }

  ghost function Interrupted(db: Db, order: seq<nat>, stop: Stop): Db
    requires Valid(db) && FullOrder(db, order)
  {
    Leaves(db, Collapse(db, order), stop)
  }

  /** When running the upgrade again can add the unique constraint. */
  predicate RerunFits(db: Db, stop: Stop) {
    match stop
    case BeforeCommit => true
    case TablesKept => forall e :: e in db.extUsers ==> e in db.links
    case LinksDropped => db.extUsers == map[]
    case TablesDropped => true
  }

  lemma KeptIsValid(db: Db, p: Progress, stop: Stop)
    requires Valid(db) && UsersKept(db, p)
    ensures Valid(Leaves(db, p, stop))
  {
    assert UniqueExtUsers(map[]);
    hide UniqueLogins, UniqueExtUsers;
  }

  lemma InterruptedIsValid(db: Db, order: seq<nat>, stop: Stop)
    requires Valid(db) && FullOrder(db, order)
    ensures Valid(Interrupted(db, order, stop))
  {
    CollapseKeeps(db, order);
    hide UsersKept, OwnersRight, StampsRight, Leaves, Valid;
    KeptIsValid(db, Collapse(db, order), stop);
  }

  /** A user created for an unlinked identity is linked to nothing while the link table is left. */
  lemma CreatedUserIsUntouched(db: Db, order: seq<nat>, e: nat) returns (u: nat)
    requires Valid(db) && FullOrder(db, order) && e in db.extUsers && e !in db.links
    ensures var mid := Interrupted(db, order, TablesKept);
            Untouched(mid, u) && mid.users[u].stamp == StampOf(db.extUsers[e])
  {
    UnlinkedKeepsItsStamp(db, order, e);
    u := Collapse(db, order).owners[e];
    hide Collapse;
  }

  /** Nor is any stamped user once the link table is gone. */
  lemma StampedUserIsUntouched(db: Db, order: seq<nat>, e: nat) returns (u: nat)
    requires Valid(db) && FullOrder(db, order) && e in db.extUsers && Survives(db, order, e)
    ensures var mid := Interrupted(db, order, LinksDropped);
            Untouched(mid, u) && mid.users[u].stamp == StampOf(db.extUsers[e])
  {
    u := SurvivorStampsItsOwner(db, order, e);
    hide Collapse, Valid, Survives;
  }

  /** Such a user clashes with the second stamp of its identity. */
  lemma UntouchedUserClashes(mid: Db, again: seq<nat>, u: nat, e: nat)
    requires FullOrder(mid, again) && e in mid.extUsers && e !in mid.links
    requires Untouched(mid, u) && mid.users[u].stamp == StampOf(mid.extUsers[e])
    ensures !CarriedPairsFit(mid, again)
  {
    UnlinkedSurvives(mid, again, e);
    assert SamePair(mid.users[u].stamp, StampOf(mid.extUsers[e]));
  }

  lemma {:induction false} UnlinkedSurvives(db: Db, order: seq<nat>, e: nat)
    requires e in order && e !in db.links
    ensures Survives(db, order, e)
  {
    var n := |order| - 1;
    if e != order[n] { UnlinkedSurvives(db, order[..n], e); }
  }

  lemma UntouchedAfterInterruption(db: Db, order: seq<nat>, u: nat)
    requires Valid(db) && FullOrder(db, order) && Untouched(Interrupted(db, order, TablesKept), u)
    requires forall v :: v in db.users ==> !HasPair(db.users[v].stamp)
    requires forall e :: e in db.extUsers ==> e in db.links
    ensures !HasPair(Interrupted(db, order, TablesKept).users[u].stamp)
  {
    var e := StampOfUser(db, order, u);
    CollapseKeeps(db, order);
  }

  /** With both old tables left: a user created for an unlinked identity is not found again. */
  lemma RerunWithTablesIff(db: Db, order: seq<nat>, again: seq<nat>)
    requires Valid(db) && FullOrder(db, order) && FullOrder(db, again)
    requires forall u :: u in db.users ==> !HasPair(db.users[u].stamp)
    ensures CarriedPairsFit(Interrupted(db, order, TablesKept), again) <==>
            forall e :: e in db.extUsers ==> e in db.links
  {
    var mid := Interrupted(db, order, TablesKept);
    assert mid.extUsers == db.extUsers && mid.links == db.links;
    hide Interrupted, Upgrade, Valid, Collapse;
    if e :| e in db.extUsers && e !in db.links {
      var u := CreatedUserIsUntouched(db, order, e);
      UntouchedUserClashes(mid, again, u, e);
    } else {
      forall u | Untouched(mid, u) ensures !HasPair(mid.users[u].stamp) {
        UntouchedAfterInterruption(db, order, u);
      }
    }
  }

  /** Without the link table no user is found again, however it was linked. */
  lemma RerunWithoutLinksIff(db: Db, order: seq<nat>, again: seq<nat>)
    requires Valid(db) && FullOrder(db, order) && FullOrder(db, again)
    requires forall u :: u in db.users ==> !HasPair(db.users[u].stamp)
    ensures CarriedPairsFit(Interrupted(db, order, LinksDropped), again) <==> db.extUsers == map[]
  {
    var mid := Interrupted(db, order, LinksDropped);
    if order != [] {
      var last := order[|order| - 1];
      assert last in db.extUsers && Survives(db, order, last);
      var u := StampedUserIsUntouched(db, order, last);
      UntouchedUserClashes(mid, again, u, last);
    } else {
      assert db.extUsers == map[];
      assert mid.users == db.users;
    }
  }

  lemma RerunWithoutTables(db: Db, order: seq<nat>, again: seq<nat>)
    requires Valid(db) && FullOrder(db, order)
    requires forall u :: u in db.users ==> !HasPair(db.users[u].stamp)
    ensures CarriedPairsFit(Interrupted(db, order, TablesDropped), again)
  {
    UniqueConstraintHolds(db, order);
    hide Collapse, Valid, Survives;
  }

  lemma RerunFitsIff(db: Db, order: seq<nat>, stop: Stop, again: seq<nat>)
    requires Valid(db) && FullOrder(db, order) && FullOrder(Interrupted(db, order, stop), again)
    requires forall u :: u in db.users ==> !HasPair(db.users[u].stamp)
    ensures CarriedPairsFit(Interrupted(db, order, stop), again) <==> RerunFits(db, stop)
  {
    hide Upgrade, Valid, Survives;
    match stop
    case BeforeCommit =>
    case TablesKept => RerunWithTablesIff(db, order, again);
    case LinksDropped => RerunWithoutLinksIff(db, order, again);
    case TablesDropped => RerunWithoutTables(db, order, again);
  }

  /**
   Running the upgrade again after such a stop can add the constraint exactly
   when the loops were rolled back; or both old tables are left and every
   external user was linked; or only the link table is gone and there is no
   external user; or both old tables are gone.
   */
  lemma RerunAfterInterruptionIff(db: Db, order: seq<nat>, stop: Stop, again: seq<nat>)
    requires Valid(db) && FullOrder(db, order) && FullOrder(Interrupted(db, order, stop), again)
    requires forall u :: u in db.users ==> !HasPair(db.users[u].stamp)
    ensures Valid(Interrupted(db, order, stop))
    ensures UniquePairs(Upgrade(Interrupted(db, order, stop), again).users) <==> RerunFits(db, stop)
  {
    InterruptedIsValid(db, order, stop);
    UniqueConstraintHoldsIff(Interrupted(db, order, stop), again);
    hide Interrupted, Upgrade, UniquePairs, CarriedPairsFit, RerunFits, Valid, FullOrder;
    RerunFitsIff(db, order, stop, again);
  }

  // ----- the downgrade -----

  function RowOf(s: Stamp): ExtUser
    requires HasPair(s)
  {
    ExtUser(s.integration.value, s.extId.value, s.name, s.email)
  }

  /** The users the downgrade selects, in the order the SELECT yields them. */
  ghost predicate BillingOrder(users: Users, order: seq<nat>) {
    && Distinct(order)
    && (forall i :: 0 <= i < |order| ==> order[i] in users && HasPair(users[order[i]].stamp))
    && (forall u :: u in users && HasPair(users[u].stamp) ==> u in order)
  }

  /** The recreated tables number their rows from 1 in insertion order. */
  function UserAt(order: seq<nat>, d: nat): nat
    requires 1 <= d <= |order|
  {
    order[d - 1]
  }

  ghost function RestoredRows(users: Users, order: seq<nat>): ExtUsers
    requires forall i :: 0 <= i < |order| ==> order[i] in users && HasPair(users[order[i]].stamp)
  {
    map d: nat | 1 <= d <= |order| :: RowOf(users[UserAt(order, d)].stamp)
  }

  ghost function RestoredLinks(order: seq<nat>): map<nat, nat> {
    map d: nat | 1 <= d <= |order| :: UserAt(order, d)
  }

  ghost function Downgrade(db: Db, order: seq<nat>): Db
    requires BillingOrder(db.users, order)
  {
    Db(map u | u in db.users :: db.users[u].(stamp := BLANK), db.nextUser,
       RestoredRows(db.users, order), RestoredLinks(order), db.services)
  }

  /**
   The downgrade keeps every user with its login and drops its billing columns;
   services and the user counter stay, and restored links point at users.
   */
  lemma DowngradeKeepsUsers(db: Db, order: seq<nat>)
    requires BillingOrder(db.users, order)
    ensures var down := Downgrade(db, order);
            && down.users.Keys == db.users.Keys && down.nextUser == db.nextUser && down.services == db.services
            && (forall u :: u in db.users ==>
                  && down.users[u].username == db.users[u].username && down.users[u].email == db.users[u].email
                  && down.users[u].password == db.users[u].password && down.users[u].isAdmin == db.users[u].isAdmin
                  && down.users[u].stamp == Stamp(None, None, None, None))
            && (forall d :: d in down.links ==> d in down.extUsers && down.links[d] in down.users)
  {
  }

  /**
   Over the round trip every user of the original table is back with its own
   login, and no service loses its owner or gets another one.
   */
  lemma RoundTripKeepsUsers(db: Db, order: seq<nat>, back: seq<nat>)
    requires Valid(db) && FullOrder(db, order) && BillingOrder(Upgrade(db, order).users, back)
    ensures var down := Downgrade(Upgrade(db, order), back);
            && UniqueLogins(down.users) && down.services.Keys == db.services.Keys
            && (forall u :: u in db.users ==> u in down.users && down.users[u] == db.users[u].(stamp := BLANK))
            && (forall s :: s in db.services ==>
                  && (db.services[s].owner.Some? ==> down.services[s].owner == db.services[s].owner)
                  && (db.services[s].owner.Some? || db.services[s].ext.Some? ==>
                        down.services[s].owner.Some? && down.services[s].owner.value in
                          (if db.services[s].owner.Some? then {db.services[s].owner.value} else down.users.Keys)))
  {
    hide Upgrade, Valid, FullOrder, BillingOrder, UniqueLogins;
    var up := Upgrade(db, order);
    UpgradeKeepsLogins(db, order);
    DowngradeKeepsUsers(up, back);
    SameLogins(up.users, Downgrade(up, back).users);
    forall s | s in db.services
      ensures s in up.services && up.services.Keys == db.services.Keys
      ensures db.services[s].owner.Some? ==> up.services[s].owner == db.services[s].owner
      ensures db.services[s].owner.None? && db.services[s].ext.Some? ==>
                up.services[s].owner.Some? && up.services[s].owner.value in up.users
    {
      OwnershipConserved(db, order, s);
    }
    UpgradeKeepsServices(db, order);
  }

  lemma UpgradeKeepsServices(db: Db, order: seq<nat>)
    requires Valid(db) && FullOrder(db, order)
    ensures Upgrade(db, order).services.Keys == db.services.Keys
  {
  }

  lemma SameLogins(users: Users, others: Users)
    requires UniqueLogins(users) && users.Keys == others.Keys
    requires forall u :: u in users ==> others[u].username == users[u].username && others[u].email == users[u].email
    ensures UniqueLogins(others)
  {
  }

  /** The upgrade leaves nothing of the old tables, and no service refers to them. */
  lemma UpgradeDropsTables(db: Db, order: seq<nat>)
    requires Valid(db) && FullOrder(db, order)
    ensures var up := Upgrade(db, order);
            up.extUsers == map[] && up.links == map[] && forall s :: s in up.services ==> up.services[s].ext.None?
  {
  }

  ghost predicate LinksInjective(db: Db) {
    forall e, f :: e in db.links && f in db.links && db.links[e] == db.links[f] ==> e == f
  }

  ghost function Rows(db: Db): set<ExtUser> {
    set e | e in db.extUsers :: db.extUsers[e]
  }

  /** `down` holds the identities and links of `db` under other primary keys. */
  ghost predicate IsRenaming(db: Db, down: Db, rename: map<nat, nat>) {
    && rename.Keys == db.extUsers.Keys
    && OneToOne(rename)
    && (forall e :: e in rename ==> rename[e] in down.extUsers && down.extUsers[rename[e]] == db.extUsers[e])
    && down.extUsers.Keys == down.links.Keys == rename.Values
    && (forall e :: e in db.links && e in rename ==> down.links[rename[e]] == db.links[e])
    && (forall e :: e in rename && e !in db.links ==> down.links[rename[e]] !in db.users)
  }

  function IndexOf(s: seq<nat>, x: nat): (i: nat)
    requires x in s
    ensures i < |s| && s[i] == x
  {
    if s[0] == x then 0 else 1 + IndexOf(s[1..], x)
  }

  lemma BillingUsersAreStamped(db: Db, order: seq<nat>, u: nat) returns (e: nat)
    requires Valid(db) && FullOrder(db, order)
    requires forall v :: v in db.users ==> !HasPair(db.users[v].stamp)
    requires u in Collapse(db, order).users && HasPair(Collapse(db, order).users[u].stamp)
    ensures var p := Collapse(db, order);
            e in db.extUsers && e in p.owners && p.owners[e] == u && p.users[u].stamp == StampOf(db.extUsers[e])
  {
    var r := StampOfUser(db, order, u);
    e := r.value;
  }

  lemma OwnersInjective(db: Db, order: seq<nat>, e: nat, f: nat)
    requires Valid(db) && FullOrder(db, order) && LinksInjective(db) && e in db.extUsers && f in db.extUsers
    ensures var p := Collapse(db, order);
            e in p.owners && f in p.owners && (p.owners[e] == p.owners[f] ==> e == f)
  {
    CollapseKeeps(db, order);
    hide UsersKept, StampsRight;
  }

  lemma OwnerCarriesRow(db: Db, order: seq<nat>, e: nat)
    requires Valid(db) && FullOrder(db, order) && LinksInjective(db) && e in db.extUsers
    ensures var p := Collapse(db, order);
            e in p.owners && p.owners[e] in p.users && p.users[p.owners[e]].stamp == StampOf(db.extUsers[e])
  {
    CollapseKeeps(db, order);
    var p := Collapse(db, order);
    assert StampRight(db, p, p.owners[e]);
    OwnersInjective(db, order, e, p.stampedBy[p.owners[e]]);
  }

  /** Premises of the round trip: fresh billing columns, and the order of the downgrade's SELECT. */
  ghost predicate CanGoBack(db: Db, order: seq<nat>, back: seq<nat>) {
    && Valid(db) && FullOrder(db, order)
    && (forall u :: u in db.users ==> !HasPair(db.users[u].stamp))
    && BillingOrder(Upgrade(db, order).users, back)
  }

  lemma RestoredAt(db: Db, order: seq<nat>, back: seq<nat>, d: nat)
    requires CanGoBack(db, order, back)
    ensures var down := Downgrade(Upgrade(db, order), back);
            && (d in down.extUsers <==> 1 <= d <= |back|) && (d in down.links <==> 1 <= d <= |back|)
            && (d in down.extUsers ==>
                  var u := back[d - 1];
                  && u in Collapse(db, order).users && HasPair(Collapse(db, order).users[u].stamp)
                  && down.links[d] == u && down.extUsers[d] == RowOf(Collapse(db, order).users[u].stamp))
  {
    hide Collapse, Valid;
  }

  /** What the upgrade leaves for the downgrade to find: one stamped user per identity. */
  ghost predicate OneUserEach(ext: ExtUsers, owners: map<nat, nat>, users: Users) {
    && owners.Keys == ext.Keys
    && OneToOne(owners)
    && (forall e :: e in owners ==> owners[e] in users && users[owners[e]].stamp == StampOf(ext[e]))
    && (forall u :: u in users && HasPair(users[u].stamp) ==> u in owners.Values)
  }

  ghost function NewKey(owners: map<nat, nat>, back: seq<nat>, e: nat): (d: nat)
    requires e in owners && owners[e] in back
    ensures 1 <= d <= |back| && UserAt(back, d) == owners[e]
  {
    1 + IndexOf(back, owners[e])
  }

  lemma OwnerInOrder(ext: ExtUsers, owners: map<nat, nat>, users: Users, back: seq<nat>, e: nat)
    requires OneUserEach(ext, owners, users) && BillingOrder(users, back) && e in owners
    ensures owners[e] in back
  {
    assert HasPair(users[owners[e]].stamp);
  }

  /** The renaming that the insertion order of the downgrade gives. */
  ghost function Renaming(ext: ExtUsers, owners: map<nat, nat>, users: Users, back: seq<nat>): (r: map<nat, nat>)
    requires OneUserEach(ext, owners, users) && BillingOrder(users, back)
    ensures r.Keys == ext.Keys
    ensures forall e :: e in r ==> 1 <= r[e] <= |back| && UserAt(back, r[e]) == owners[e]
  {
    map e | e in owners :: (OwnerInOrder(ext, owners, users, back, e); NewKey(owners, back, e))
  }

  ghost predicate OneToOne(r: map<nat, nat>) {
    forall e, f :: e in r && f in r && r[e] == r[f] ==> e == f
  }

  /** `r` carries every row and its owner over to the new tables. */
  ghost predicate CarriesOver(
    ext: ExtUsers, owners: map<nat, nat>, rows: ExtUsers, links: map<nat, nat>, r: map<nat, nat>)
    requires owners.Keys == ext.Keys == r.Keys
  {
    && (forall e :: e in r ==> r[e] in rows && rows[r[e]] == ext[e])
    && (forall e :: e in r ==> r[e] in links && links[r[e]] == owners[e])
  }

  lemma RenamingCovers(ext: ExtUsers, owners: map<nat, nat>, users: Users, back: seq<nat>, d: nat)
    requires OneUserEach(ext, owners, users) && BillingOrder(users, back) && 1 <= d <= |back|
    ensures d in Renaming(ext, owners, users, back).Values
  {
    var r := Renaming(ext, owners, users, back);
    var u := UserAt(back, d);
    var e :| e in owners && owners[e] == u;
    hide Renaming, OneUserEach;
    assert e in r && UserAt(back, r[e]) == u;
    assert r[e] == d;
  }

  lemma RenamingKeepsRow(ext: ExtUsers, owners: map<nat, nat>, users: Users, back: seq<nat>, e: nat)
    requires OneUserEach(ext, owners, users) && BillingOrder(users, back) && e in ext
    ensures var d := Renaming(ext, owners, users, back)[e];
            && d in RestoredRows(users, back) && RestoredRows(users, back)[d] == ext[e]
            && d in RestoredLinks(back) && RestoredLinks(back)[d] == owners[e]
  {
    assert RowOf(StampOf(ext[e])) == ext[e];
    hide Renaming;
  }

  lemma RenamingOneToOne(ext: ExtUsers, owners: map<nat, nat>, users: Users, back: seq<nat>)
    requires OneUserEach(ext, owners, users) && BillingOrder(users, back)
    ensures OneToOne(Renaming(ext, owners, users, back))
  {
    var r := Renaming(ext, owners, users, back);
    hide Renaming, BillingOrder;
    forall e, f | e in r && f in r && r[e] == r[f] ensures e == f {
      assert owners[e] == owners[f];
    }
  }

  lemma RenamingCarriesOver(ext: ExtUsers, owners: map<nat, nat>, users: Users, back: seq<nat>)
    requires OneUserEach(ext, owners, users) && BillingOrder(users, back)
    ensures CarriesOver(ext, owners, RestoredRows(users, back), RestoredLinks(back), Renaming(ext, owners, users, back))
  {
    hide Renaming, OneUserEach, BillingOrder, RestoredRows, RestoredLinks;
    forall e | e in ext {
      RenamingKeepsRow(ext, owners, users, back, e);
    }
  }

  lemma RenamingOnto(ext: ExtUsers, owners: map<nat, nat>, users: Users, back: seq<nat>)
    requires OneUserEach(ext, owners, users) && BillingOrder(users, back)
    ensures RestoredRows(users, back).Keys == RestoredLinks(back).Keys == Renaming(ext, owners, users, back).Values
  {
    var r := Renaming(ext, owners, users, back);
    var (rows, links) := (RestoredRows(users, back), RestoredLinks(back));
    hide Renaming, OneUserEach, BillingOrder;
    forall d ensures d in rows <==> d in r.Values {
      if d in rows { RenamingCovers(ext, owners, users, back, d); }
      if d in r.Values {
        var e :| e in r && r[e] == d;
        RenamingKeepsRow(ext, owners, users, back, e);
      }
    }
    assert rows.Keys == links.Keys;
  }

  lemma CarriedOverIsRenaming(db: Db, owners: map<nat, nat>, down: Db, r: map<nat, nat>)
    requires owners.Keys == db.extUsers.Keys == r.Keys
    requires CarriesOver(db.extUsers, owners, down.extUsers, down.links, r) && OneToOne(r)
    requires down.extUsers.Keys == down.links.Keys == r.Values
    requires forall e :: e in owners && e in db.links ==> owners[e] == db.links[e]
    requires forall e :: e in owners && e !in db.links ==> owners[e] !in db.users
    ensures IsRenaming(db, down, r)
  {
  }

  lemma RightOwnersAreLinks(db: Db, order: seq<nat>, p: Progress)
    requires FullOrder(db, order) && OwnersRight(db, order, p)
    ensures p.owners.Keys == db.extUsers.Keys
    ensures forall e :: e in p.owners && e in db.links ==> p.owners[e] == db.links[e]
    ensures forall e :: e in p.owners && e !in db.links ==> p.owners[e] !in db.users
    ensures Valid(db) && LinksInjective(db) ==> OneToOne(p.owners)
  {
    assert forall e :: e in p.owners <==> e in db.extUsers;
    hide FullOrder, InOrder, UniqueLogins, UniqueExtUsers;
  }

  lemma OwnersOneToOne(db: Db, order: seq<nat>)
    requires Valid(db) && FullOrder(db, order) && LinksInjective(db)
    ensures Collapse(db, order).owners.Keys == db.extUsers.Keys && OneToOne(Collapse(db, order).owners)
  {
    CollapseKeeps(db, order);
    hide UsersKept, StampsRight, OwnersRight, LinksInjective, OneToOne, Collapse, Valid;
    RightOwnersAreLinks(db, order, Collapse(db, order));
  }

  lemma OneUserEachAfterUpgrade(db: Db, order: seq<nat>)
    requires Valid(db) && FullOrder(db, order) && LinksInjective(db)
    requires forall v :: v in db.users ==> !HasPair(db.users[v].stamp)
    ensures var p := Collapse(db, order); OneUserEach(db.extUsers, p.owners, p.users)
  {
    var p := Collapse(db, order);
    OwnersOneToOne(db, order);
    hide LinksInjective, Collapse, Valid, FullOrder, OneToOne;
    forall e | e in p.owners ensures p.owners[e] in p.users && p.users[p.owners[e]].stamp == StampOf(db.extUsers[e]) {
      OwnerCarriesRow(db, order, e);
    }
    forall u | u in p.users && HasPair(p.users[u].stamp) ensures u in p.owners.Values {
      var e := BillingUsersAreStamped(db, order, u);
      assert p.owners[e] in p.owners.Values;
    }
  }

  lemma OwnersAreLinks(db: Db, order: seq<nat>)
    requires Valid(db) && FullOrder(db, order)
    ensures var p := Collapse(db, order);
            && p.owners.Keys == db.extUsers.Keys
            && (forall e :: e in p.owners && e in db.links ==> p.owners[e] == db.links[e])
            && (forall e :: e in p.owners && e !in db.links ==> p.owners[e] !in db.users)
  {
    CollapseKeeps(db, order);
    hide UsersKept, StampsRight, OwnersRight, Collapse, Valid;
    RightOwnersAreLinks(db, order, Collapse(db, order));
  }

  /**
   Upgrade then downgrade restores the identities and links up to renaming of
   primary keys, when no user was linked to two of them.
   */
  lemma RoundTripRenames(db: Db, order: seq<nat>, back: seq<nat>) returns (rename: map<nat, nat>)
    requires CanGoBack(db, order, back) && LinksInjective(db)
    ensures IsRenaming(db, Downgrade(Upgrade(db, order), back), rename)
  {
    var p := Collapse(db, order);
    OneUserEachAfterUpgrade(db, order);
    rename := Renaming(db.extUsers, p.owners, p.users, back);
    RenamingOneToOne(db.extUsers, p.owners, p.users, back);
    RenamingCarriesOver(db.extUsers, p.owners, p.users, back);
    RenamingOnto(db.extUsers, p.owners, p.users, back);
    OwnersAreLinks(db, order);
    hide Collapse, Valid, OneUserEach, Renaming, LinksInjective, CarriesOver, OneToOne, RestoredRows, RestoredLinks;
    CarriedOverIsRenaming(db, p.owners, Downgrade(Upgrade(db, order), back), rename);
  }

  lemma RestoredRowOwner(db: Db, order: seq<nat>, back: seq<nat>, e: nat)
    requires CanGoBack(db, order, back) && e in db.extUsers
    requires db.extUsers[e] in Rows(Downgrade(Upgrade(db, order), back))
    ensures var p := Collapse(db, order);
            e in p.owners && p.owners[e] in p.users && p.users[p.owners[e]].stamp == StampOf(db.extUsers[e])
  {
    var down := Downgrade(Upgrade(db, order), back);
    var d :| d in down.extUsers && down.extUsers[d] == db.extUsers[e];
    RestoredAt(db, order, back, d);
    var f := BillingUsersAreStamped(db, order, back[d - 1]);
    assert db.extUsers[f] == db.extUsers[e];
    assert f == e;
  }

  lemma RenamedRowsAreEqual(db: Db, down: Db, rename: map<nat, nat>)
    requires IsRenaming(db, down, rename)
    ensures Rows(down) == Rows(db)
  {
    forall row ensures row in Rows(down) <==> row in Rows(db) {
      if row in Rows(db) {
        var e :| e in db.extUsers && db.extUsers[e] == row;
        assert e in rename && down.extUsers[rename[e]] == row;
      }
      if row in Rows(down) {
        var d :| d in down.extUsers && down.extUsers[d] == row;
        assert d in rename.Values;
        var e :| e in rename && rename[e] == d;
        assert db.extUsers[e] == row;
      }
    }
  }

  lemma SharedUserLosesRow(db: Db, order: seq<nat>, back: seq<nat>, e: nat, f: nat)
    requires CanGoBack(db, order, back)
    requires e in db.links && f in db.links && db.links[e] == db.links[f] && e != f
    ensures !(db.extUsers[e] in Rows(Downgrade(Upgrade(db, order), back)) &&
              db.extUsers[f] in Rows(Downgrade(Upgrade(db, order), back)))
  {
    var rows := Rows(Downgrade(Upgrade(db, order), back));
    assert UniqueExtUsers(db.extUsers);
    if db.extUsers[e] in rows && db.extUsers[f] in rows {
      RestoredRowOwner(db, order, back, e);
      RestoredRowOwner(db, order, back, f);
      CollapseKeeps(db, order);
      hide UsersKept, StampsRight, Collapse, Downgrade, Upgrade;
    }
  }

  /** No identity is lost or invented exactly when no user was linked to two of them. */
  lemma RoundTripKeepsRowsIff(db: Db, order: seq<nat>, back: seq<nat>)
    requires CanGoBack(db, order, back)
    ensures Rows(Downgrade(Upgrade(db, order), back)) == Rows(db) <==> LinksInjective(db)
  {
    var down := Downgrade(Upgrade(db, order), back);
    assert forall e :: e in db.links ==> e in db.extUsers;
    if LinksInjective(db) {
      var rename := RoundTripRenames(db, order, back);
      RenamedRowsAreEqual(db, down, rename);
    } else {
      var e, f :| e in db.links && f in db.links && db.links[e] == db.links[f] && e != f;
      SharedUserLosesRow(db, order, back, e, f);
      assert db.extUsers[e] in Rows(db) && db.extUsers[f] in Rows(db);
    }
  }

  // ----- the two procedures, updating the tables in place -----

  lemma CollapseSnoc(db: Db, order: seq<nat>, i: nat)
    requires Valid(db) && InOrder(db, order) && i < |order|
    ensures InOrder(db, order[..i]) && InOrder(db, order[..i + 1])
    ensures order[i] in db.links ==> db.links[order[i]] in Collapse(db, order[..i]).users
    ensures Collapse(db, order[..i + 1]) ==
            CollapseOne(Collapse(db, order[..i]), order[i], db.extUsers[order[i]], LinkOf(db, order[i]))
  {
    assert order[..i + 1][..i] == order[..i];
    assert Distinct(order[..i]) && Distinct(order[..i + 1]);
    assert order[i] in db.links ==> db.links[order[i]] in db.users;
    hide CollapseOne, Valid;
  }

  lemma RemapDone(services: map<nat, Service>, owners: map<nat, nat>, done: set<nat>, s: nat)
    requires s in services && s !in done
    ensures s in RemapSome(services, owners, done)
    ensures RemapSome(services, owners, done + {s}) ==
            RemapSome(services, owners, done)[s := RemapOne(RemapSome(services, owners, done)[s], owners)]
  {
    hide RemapOne;
  }

  lemma RemapNothing(services: map<nat, Service>, owners: map<nat, nat>)
    ensures RemapSome(services, owners, {}) == services
  {
    hide RemapOne;
  }

  lemma RemapAll(services: map<nat, Service>, owners: map<nat, nat>, done: set<nat>)
    requires services.Keys - done == {}
    ensures RemapSome(services, owners, done) == Remap(services, owners)
  {
    hide RemapOne;
    forall s | s in services ensures s in done {
      assert s in done || s in services.Keys - done;
    }
  }

  /** The services table after the rows in `done` have been rewritten. */
  function RemapSome(services: map<nat, Service>, owners: map<nat, nat>, done: set<nat>): map<nat, Service> {
    map s | s in services :: if s in done then RemapOne(services[s], owners) else services[s]
  }

  class Database {
    var users: Users
    var nextUser: nat
    var extUsers: ExtUsers
    var links: map<nat, nat>
    var services: map<nat, Service>

    ghost function View(): Db
      reads this
    {
      Db(users, nextUser, extUsers, links, services)
    }

    constructor (db: Db)
      ensures View() == db
    {
      users, nextUser, extUsers, links, services := db.users, db.nextUser, db.extUsers, db.links, db.services;
    }

    method FindUsername(base: string) returns (username: string)
      ensures username == UniqueUsername(Usernames(users), base)
    {
      var name, _ := Search(UsernameNumbering(SafeBase(base)), Usernames(users));
      username := name;
    }

    method FindEmail(base: Option<string>, username: string) returns (email: string)
      ensures email == UniqueEmail(Emails(users), base, username)
    {
      if base.Some? && base.value != "" && base.value !in Emails(users) { return base.value; }
      var name, _ := Search(EmailNumbering(username), Emails(users));
      email := name;
    }

    /** Inserts the portal account of a never-linked identity. */
    method InsertUser(row: ExtUser) returns (id: nat)
      modifies this`users, this`nextUser
      ensures id == old(nextUser) && nextUser == old(nextUser) + 1
      ensures users == old(users)[id := NewUser(old(users), row)]
    {
      var username := FindUsername(BaseName(row));
      var email := FindEmail(row.email, username);
      id := nextUser;
      users := users[id := User(username, email, None, false, BLANK)];
      nextUser := nextUser + 1;
    }

    /** One row: find or create its user, stamp it, remember it. */
    method CollapseRow(e: nat, owners: map<nat, nat>, ghost stampedBy: map<nat, nat>) returns (updated: map<nat, nat>)
      requires e in extUsers && (e in links ==> links[e] in users)
      modifies this`users, this`nextUser
      ensures var q := CollapseOne(Progress(old(users), old(nextUser), owners, stampedBy), e, extUsers[e],
                                   if e in links then Some(links[e]) else None);
              users == q.users && nextUser == q.nextUser && updated == q.owners
    {
      var row := extUsers[e];
      var u;
      if e in links {
        u := links[e];
      } else {
        u := InsertUser(row);
      }
      hide NewUser;
      users := users[u := users[u].(stamp := StampOf(row))];
      updated := owners[e := u];
    }

    /** The loop over external_users; `owners` is the eu_to_user dictionary. */
    method CollapseExternalUsers(order: seq<nat>) returns (owners: map<nat, nat>)
      requires Valid(View()) && FullOrder(View(), order)
      modifies this`users, this`nextUser
      ensures var p := Collapse(old(View()), order);
              users == p.users && nextUser == p.nextUser && owners == p.owners
    {
      owners := map[];
      ghost var db := View();
      ghost var p := Collapse(db, []);
      assert order[..0] == [] && order[..|order|] == order;
      hide Collapse, CollapseOne, Valid, FullOrder;
      for i := 0 to |order|
        invariant extUsers == db.extUsers && links == db.links
        invariant InOrder(db, order[..i]) && p == Collapse(db, order[..i])
        invariant users == p.users && nextUser == p.nextUser && owners == p.owners
      {
        CollapseSnoc(db, order, i);
        owners := CollapseRow(order[i], owners, p.stampedBy);
        p := Collapse(db, order[..i + 1]);
      }
    }

    /** The loop over the services that have an external user and no owner. */
    method RemapServices(owners: map<nat, nat>)
      modifies this`services
      ensures services == Remap(old(services), owners)
    {
      ghost var before := services;
      var todo := services.Keys;
      ghost var done: set<nat> := {};
      RemapNothing(before, owners);
      hide *;
      while todo != {}
        invariant todo == before.Keys - done && services == RemapSome(before, owners, done)
        decreases |todo|
      {
        var s :| s in todo;
        RemapDone(before, owners, done, s);
        todo, done := todo - {s}, done + {s};
        services := services[s := RemapOne(services[s], owners)];
      }
      RemapAll(before, owners, done);
    }

    method UpgradeTables(order: seq<nat>)
      requires Valid(View()) && FullOrder(View(), order)
      modifies this
      ensures View() == Upgrade(old(View()), order)
    {
      var owners := CollapseExternalUsers(order);
      RemapServices(owners);
      links := map[];
      extUsers := map[];
    }

    /** Recreates both tables from the billing columns, then drops the columns. */
    method DowngradeTables(order: seq<nat>)
      requires BillingOrder(users, order) && extUsers == map[] && links == map[]
      modifies this
      ensures View() == Downgrade(old(View()), order)
    {
      var nextKey := 1;
      for i := 0 to |order|
        invariant nextKey == i + 1 && users == old(users) && nextUser == old(nextUser) && services == old(services)
        invariant extUsers == RestoredRows(users, order[..i])
        invariant links == RestoredLinks(order[..i])
      {
        RestoredSnoc(users, order, i);
        extUsers := extUsers[nextKey := RowOf(users[order[i]].stamp)];
        links := links[nextKey := order[i]];
        nextKey := nextKey + 1;
      }
      assert order[..|order|] == order;
      users := map u | u in users :: users[u].(stamp := BLANK);
    }
  }

  lemma RestoredSnoc(users: Users, order: seq<nat>, i: nat)
    requires i < |order|
    requires forall i :: 0 <= i < |order| ==> order[i] in users && HasPair(users[order[i]].stamp)
    ensures RestoredRows(users, order[..i + 1]) ==
            RestoredRows(users, order[..i])[i + 1 := RowOf(users[order[i]].stamp)]
    ensures RestoredLinks(order[..i + 1]) == RestoredLinks(order[..i])[i + 1 := order[i]]
  {
    forall d | 1 <= d <= i ensures UserAt(order[..i + 1], d) == UserAt(order[..i], d) {
    }
  }
}
