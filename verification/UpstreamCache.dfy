/**
 The upstream cache of the IPMI proxy. It is replaced by polls and on-demand
 syncs, whose answers may be stale when they arrive, and written by redeemed tickets.
 */
module UpstreamCache {
  import opened PyText

  type Listing = map<string, string>

  /** A row of the server list; rows without a uuid or a url are skipped. */
  datatype Row = Row(uuid: Option<string>, url: Option<string>)

  predicate Truthy(s: Option<string>) {
    s.Some? && s.value != ""
  }

  /** The dictionary comprehension of `sync_upstreams`: the last row of a uuid counts. */
  function ListingOf(rows: seq<Row>): Listing {
    if rows == [] then map[]
    else
      var (front, last) := (ListingOf(rows[..|rows| - 1]), rows[|rows| - 1]);
      if Truthy(last.uuid) && Truthy(last.url) then front[last.uuid.value := last.url.value] else front
  }

  lemma {:induction false} ListingTruthy(rows: seq<Row>)
    ensures forall u :: u in ListingOf(rows) ==> u != "" && ListingOf(rows)[u] != ""
  {
    if rows != [] { ListingTruthy(rows[..|rows| - 1]); }
  }

  predicate Complete(row: Row, u: string) {
    row.uuid == Some(u) && u != "" && row.url.Some? && row.url.value != ""
  }

  /** A uuid is listed exactly when some complete row has it, with the url of the last such row. */
  lemma {:induction false} ListingIs(rows: seq<Row>, u: string)
    ensures u in ListingOf(rows) <==> exists i :: 0 <= i < |rows| && Complete(rows[i], u)
    ensures u in ListingOf(rows) ==>
              exists i :: && 0 <= i < |rows| && Complete(rows[i], u) && rows[i].url.value == ListingOf(rows)[u]
                          && forall j :: i < j < |rows| ==> !Complete(rows[j], u)
  {
    if rows != [] {
      var n := |rows| - 1;
      var front := rows[..n];
      ListingIs(front, u);
      assert forall i :: 0 <= i < n ==> front[i] == rows[i];
      if Complete(rows[n], u) {
        assert ListingOf(rows)[u] == rows[n].url.value;
      } else if u in ListingOf(front) {
        var i :| 0 <= i < n && Complete(front[i], u) && front[i].url.value == ListingOf(front)[u]
                 && forall j :: i < j < n ==> !Complete(front[j], u);
        assert Complete(rows[i], u) && ListingOf(rows)[u] == ListingOf(front)[u];
      }
    }
  }

  /** Where one `get_upstream` call is between its awaits. */
  datatype Lookup =
    | Idle                         // not begun
    | Missed                       // not in the cache; the on-demand sync has not been answered yet
    | Fetching(version: nat)       // the server answered from this version
    | Synced                       // the answer was applied
    | Failed                       // the sync raised; the cache is read once more anyway
    | Done(result: Option<string>)

  /**
   `versions` is the server list over time, the last one current; `polls` and
   `redeems` are the answers on their way, by the version they were made from,
   until they are applied or lost. The on-demand syncs of other requests count
   as polls.
   */
  datatype State = State(
    versions: seq<Listing>, cache: Listing, polls: multiset<nat>, redeems: multiset<nat>, uuid: string, lookup: Lookup)

  datatype Event =
    | ListChanges(listing: Listing)
    | PollAnswered
    | PollApplied(version: nat)
    | PollLost(version: nat)
    | RedeemAnswered
    | RedeemApplied(version: nat, uuid: string)
    | RedeemLost(version: nat)
    | LookupBegins(uuid: string)
    | LookupAnswered
    | LookupApplied
    | LookupFailed
    | LookupReads

  function Current(s: State): nat
    requires s.versions != []
  {
    |s.versions| - 1
  }

  function Get(m: Listing, u: string): Option<string> {
    if u in m then Some(m[u]) else None
  }

  /** The oldest version an answer on its way may still bring in. */
  ghost predicate NoneOlder(s: State, v: nat) {
    && (forall p :: p in s.polls ==> v <= p)
    && (forall r :: r in s.redeems ==> v <= r)
  }

  function Step(s: State, e: Event): State
    requires s.versions != []
  {
    match e
    case ListChanges(listing) => s.(versions := s.versions + [listing])
    case PollAnswered => s.(polls := s.polls + multiset{Current(s)})
    case PollApplied(v) =>
      if v in s.polls && v < |s.versions| then s.(cache := s.versions[v], polls := s.polls - multiset{v}) else s
    case PollLost(v) => s.(polls := s.polls - multiset{v})
    case RedeemAnswered => s.(redeems := s.redeems + multiset{Current(s)})
    case RedeemApplied(v, u) =>
      if v in s.redeems && v < |s.versions|
      then s.(cache := if u in s.versions[v] then s.cache[u := s.versions[v][u]] else s.cache,
              redeems := s.redeems - multiset{v})
      else s
    case RedeemLost(v) => s.(redeems := s.redeems - multiset{v})
    case LookupBegins(u) =>
      if !s.lookup.Idle? then s
      else if Truthy(Get(s.cache, u)) then s.(uuid := u, lookup := Done(Get(s.cache, u)))
      else s.(uuid := u, lookup := Missed)
    case LookupAnswered => if s.lookup.Missed? then s.(lookup := Fetching(Current(s))) else s
    case LookupApplied =>
      if s.lookup.Fetching? && s.lookup.version < |s.versions|
      then s.(cache := s.versions[s.lookup.version], lookup := Synced) else s
    case LookupFailed => if s.lookup.Missed? || s.lookup.Fetching? then s.(lookup := Failed) else s
    case LookupReads =>
      if s.lookup.Synced? || s.lookup.Failed? then s.(lookup := Done(Get(s.cache, s.uuid))) else s
  }

  function Run(s: State, events: seq<Event>): State
    requires s.versions != []
    ensures |Run(s, events).versions| >= |s.versions|
  {
    if events == [] then s
    else
      var r := Run(s, events[..|events| - 1]);
      Step(r, events[|events| - 1])
  }

  lemma RunSnoc(s: State, events: seq<Event>, e: Event)
    requires s.versions != []
    ensures Run(s, []) == s && Run(s, events + [e]) == Step(Run(s, events), e)
  {
    assert (events + [e])[..|events|] == events;
  }

  /** A url in the cache answers at once; anything else, the empty one included, needs a sync. */
  lemma LookupBeginsWithHit(s: State, u: string)
    requires s.versions != [] && s.lookup.Idle?
    ensures var t := Step(s, LookupBegins(u));
            && t.uuid == u && t.cache == s.cache
            && t.lookup == if u in s.cache && s.cache[u] != "" then Done(Some(s.cache[u])) else Missed
  {
  }

  /** What each answer does when it arrives: it leaves, and a poll replaces the cache, a redeem one entry of it. */
  lemma ArrivalEffects(s: State, v: nat, u: string)
    requires s.versions != [] && v < |s.versions|
    ensures v in s.polls ==>
              Step(s, PollApplied(v)) == s.(cache := s.versions[v], polls := s.polls[v := s.polls[v] - 1])
    ensures v in s.redeems && u in s.versions[v] ==>
              Step(s, RedeemApplied(v, u)) ==
              s.(cache := s.cache[u := s.versions[v][u]], redeems := s.redeems[v := s.redeems[v] - 1])
    ensures v in s.redeems && u !in s.versions[v] ==>
              Step(s, RedeemApplied(v, u)) == s.(redeems := s.redeems[v := s.redeems[v] - 1])
    ensures s.lookup == Missed ==> Step(s, LookupFailed) == s.(lookup := Failed)
    ensures s.lookup == Failed ==> Step(s, LookupReads) == s.(lookup := Done(Get(s.cache, s.uuid)))
  {
  }

  /** Answers are made from the list as it is; a lookup goes through its phases in order and ends once. */
  lemma LookupPhases(s: State, e: Event)
    requires s.versions != []
    ensures var t := Step(s, e);
            && (e.ListChanges? ==> t == s.(versions := s.versions + [e.listing]))
            && (e.PollAnswered? ==> t == s.(polls := s.polls + multiset{|s.versions| - 1}))
            && (e.RedeemAnswered? ==> t == s.(redeems := s.redeems + multiset{|s.versions| - 1}))
            && (s.lookup.Done? ==> t.lookup == s.lookup)
            && (t.lookup.Fetching? && t.lookup != s.lookup ==> s.lookup.Missed? && t.lookup.version == |s.versions| - 1)
            && (t.lookup.Synced? && t.lookup != s.lookup ==>
                  s.lookup.Fetching? && s.lookup.version < |s.versions| && t.cache == s.versions[s.lookup.version])
            && (t.lookup.Failed? && t.lookup != s.lookup ==> s.lookup.Missed? || s.lookup.Fetching?)
            && (t.lookup.Done? && t.lookup != s.lookup ==> e.LookupBegins? || s.lookup.Synced? || s.lookup.Failed?)
  {
  }

  /** A miss whose own sync comes through with nothing in between answers from the current list. */
  lemma UndisturbedLookup(s: State, u: string)
    requires s.versions != [] && s.lookup.Idle? && !Truthy(Get(s.cache, u))
    ensures var now := s.versions[|s.versions| - 1];
            Run(s, [LookupBegins(u)] + [LookupAnswered] + [LookupApplied] + [LookupReads]) ==
            s.(cache := now, uuid := u, lookup := Done(Get(now, u)))
  {
    RunSnoc(s, [], LookupBegins(u));
    assert [] + [LookupBegins(u)] == [LookupBegins(u)];
    RunSnoc(s, [LookupBegins(u)], LookupAnswered);
    RunSnoc(s, [LookupBegins(u)] + [LookupAnswered], LookupApplied);
    RunSnoc(s, [LookupBegins(u)] + [LookupAnswered] + [LookupApplied], LookupReads);
    hide Run;
  }

  ghost predicate Listed(versions: seq<Listing>, from: nat, u: string, url: string) {
    exists i :: from <= i < |versions| && u in versions[i] && versions[i][u] == url
  }

  ghost predicate Unlisted(versions: seq<Listing>, from: nat, u: string) {
    exists i :: from <= i < |versions| && u !in versions[i]
  }

  /** Answers on their way come from known versions. */
  ghost predicate Known(s: State) {
    && s.versions != []
    && (forall p :: p in s.polls ==> p < |s.versions|)
    && (forall r :: r in s.redeems ==> r < |s.versions|)
    && (s.lookup.Fetching? ==> s.lookup.version < |s.versions|)
  }

  /** Every cached url was listed once. */
  ghost predicate CacheListed(s: State) {
    forall u :: u in s.cache ==> Listed(s.versions, 0, u, s.cache[u])
  }

  ghost predicate Sound(s: State) {
    Known(s) && CacheListed(s)
  }

  lemma ListedLater(versions: seq<Listing>, more: seq<Listing>, from: nat, u: string, url: string)
    requires Listed(versions, from, u, url)
    ensures Listed(versions + more, from, u, url)
  {
    var i :| from <= i < |versions| && u in versions[i] && versions[i][u] == url;
    assert (versions + more)[i] == versions[i];
  }

  lemma StepKeepsKnown(s: State, e: Event)
    requires Known(s)
    ensures Known(Step(s, e))
  {
  }

  /** A version put in as a whole, or one entry of it, lists what it brings. */
  lemma VersionListed(versions: seq<Listing>, v: nat)
    requires v < |versions|
    ensures forall u :: u in versions[v] ==> Listed(versions, 0, u, versions[v][u])
  {
  }

  lemma StepKeepsCache(s: State, e: Event)
    requires Known(s) && CacheListed(s)
    ensures CacheListed(Step(s, e))
  {
    hide Listed;
    match e
    case ListChanges(listing) =>
      forall u | u in s.cache ensures Listed(s.versions + [listing], 0, u, s.cache[u]) {
        ListedLater(s.versions, [listing], 0, u, s.cache[u]);
      }
    case PollApplied(v) => if v < |s.versions| { VersionListed(s.versions, v); }
    case RedeemApplied(v, u) => if v < |s.versions| { VersionListed(s.versions, v); }
    case LookupApplied => if s.lookup.Fetching? { VersionListed(s.versions, s.lookup.version); }
    case _ =>
  }

  /** In every interleaving the cache holds only urls that some version listed. */
  lemma {:induction false} CacheWasListed(s: State, events: seq<Event>)
    requires Sound(s)
    ensures Sound(Run(s, events))
  {
    if events != [] {
      hide Known, CacheListed, Step;
      CacheWasListed(s, events[..|events| - 1]);
      StepKeepsKnown(Run(s, events[..|events| - 1]), events[|events| - 1]);
      StepKeepsCache(Run(s, events[..|events| - 1]), events[|events| - 1]);
    }
  }

  /** What the cache says about the looked-up server was so in a version no older than `v`. */
  ghost predicate FreshCache(s: State, v: nat) {
    if s.uuid in s.cache then Listed(s.versions, v, s.uuid, s.cache[s.uuid]) else Unlisted(s.versions, v, s.uuid)
  }

  /** While a lookup waits: nothing on its way is older than `v`, nor what it uses. */
  ghost predicate FreshSince(s: State, v: nat) {
    && v < |s.versions| && NoneOlder(s, v)
    && (s.lookup.Fetching? ==> v <= s.lookup.version)
    && (s.lookup.Synced? ==> FreshCache(s, v))
  }

  /** Whether the lookup ended well, and then what it may return. */
  ghost predicate FreshResult(s: State, v: nat) {
    s.lookup.Done? ==>
      match s.lookup.result
      case Some(url) => Listed(s.versions, v, s.uuid, url)
      case None => Unlisted(s.versions, v, s.uuid)
  }

  lemma UnlistedLater(versions: seq<Listing>, more: seq<Listing>, from: nat, u: string)
    requires Unlisted(versions, from, u)
    ensures Unlisted(versions + more, from, u)
  {
    var i :| from <= i < |versions| && u !in versions[i];
    assert (versions + more)[i] == versions[i];
  }

  /** What a version no older than `v` says about a server is fresh. */
  lemma VersionFresh(versions: seq<Listing>, v: nat, w: nat, u: string)
    requires v <= w < |versions|
    ensures if u in versions[w] then Listed(versions, v, u, versions[w][u]) else Unlisted(versions, v, u)
  {
  }

  lemma ListChangeKeepsFresh(s: State, listing: Listing, v: nat)
    requires s.versions != [] && FreshSince(s, v) && FreshResult(s, v)
    ensures FreshSince(Step(s, ListChanges(listing)), v) && FreshResult(Step(s, ListChanges(listing)), v)
  {
    hide Listed, Unlisted;
    if s.lookup.Synced? {
      if s.uuid in s.cache { ListedLater(s.versions, [listing], v, s.uuid, s.cache[s.uuid]); }
      else { UnlistedLater(s.versions, [listing], v, s.uuid); }
    }
    if s.lookup.Done? {
      if s.lookup.result.Some? { ListedLater(s.versions, [listing], v, s.uuid, s.lookup.result.value); }
      else { UnlistedLater(s.versions, [listing], v, s.uuid); }
    }
  }

  /** An applied answer, whichever it is, leaves the cache as fresh as its version. */
  lemma AppliedIsFresh(s: State, w: nat, v: nat)
    requires v <= w < |s.versions|
    ensures FreshCache(s.(cache := s.versions[w]), v)
    ensures FreshCache(s, v) ==>
              forall u :: u in s.versions[w] ==> FreshCache(s.(cache := s.cache[u := s.versions[w][u]]), v)
  {
    VersionFresh(s.versions, v, w, s.uuid);
    hide Listed, Unlisted;
  }

  /** Steps of others that keep the list and the lookup, and the cache fresh. */
  lemma OthersKeepFresh(s: State, t: State, v: nat)
    requires FreshSince(s, v) && FreshResult(s, v)
    requires t.versions == s.versions && t.uuid == s.uuid && t.lookup == s.lookup
    requires NoneOlder(t, v) && (FreshCache(s, v) ==> FreshCache(t, v))
    ensures FreshSince(t, v) && FreshResult(t, v)
  {
    hide NoneOlder, FreshCache, Listed, Unlisted;
  }

  lemma StepKeepsNoneOlder(s: State, e: Event, v: nat)
    requires s.versions != [] && NoneOlder(s, v) && v < |s.versions|
    ensures NoneOlder(Step(s, e), v)
  {
  }

  /** The events of the lookup itself. */
  predicate IsOwn(e: Event) {
    e.LookupBegins? || e.LookupAnswered? || e.LookupApplied? || e.LookupReads?
  }

  lemma OwnStepKeepsFresh(s: State, e: Event, v: nat)
    requires Known(s) && FreshSince(s, v) && FreshResult(s, v) && IsOwn(e) && !s.lookup.Failed? && !s.lookup.Idle?
    ensures FreshSince(Step(s, e), v) && FreshResult(Step(s, e), v)
  {
    hide Listed, Unlisted, NoneOlder;
    StepKeepsNoneOlder(s, e, v);
    if e.LookupApplied? && s.lookup.Fetching? { AppliedIsFresh(s, s.lookup.version, v); }
  }

  lemma StepKeepsFresh(s: State, e: Event, v: nat)
    requires Known(s) && FreshSince(s, v) && FreshResult(s, v) && e != LookupFailed
    requires !s.lookup.Failed? && !s.lookup.Idle?
    ensures FreshSince(Step(s, e), v) && FreshResult(Step(s, e), v)
  {
    hide FreshCache, FreshResult;
    if IsOwn(e) {
      OwnStepKeepsFresh(s, e, v);
    } else if e.ListChanges? {
      ListChangeKeepsFresh(s, e.listing, v);
    } else {
      StepKeepsNoneOlder(s, e, v);
      if e.PollApplied? && e.version in s.polls { AppliedIsFresh(s, e.version, v); }
      if e.RedeemApplied? && e.version in s.redeems { AppliedIsFresh(s, e.version, v); }
      FreshCacheOf(s, Step(s, e), v);
      OthersKeepFresh(s, Step(s, e), v);
    }
  }

  lemma FreshCacheOf(s: State, t: State, v: nat)
    ensures t.versions == s.versions && t.uuid == s.uuid ==>
              FreshCache(t, v) == FreshCache(s.(cache := t.cache), v)
  {
  }

  lemma LookupGoesOn(s: State, e: Event)
    requires s.versions != [] && e != LookupFailed && !s.lookup.Failed? && !s.lookup.Idle?
    ensures !Step(s, e).lookup.Failed? && !Step(s, e).lookup.Idle? && Step(s, e).uuid == s.uuid
  {
  }

  lemma FreshAtFirst(s: State, v: nat)
    requires s.lookup.Missed? && v < |s.versions| && NoneOlder(s, v)
    ensures FreshSince(s, v) && FreshResult(s, v)
  {
  }

  /**
   A lookup whose on-demand sync succeeds returns what the server listed for the
   uuid in some version no older than the oldest answer still on its way when
   it began (`v` bounds those; an answer that was applied or lost is not one),
   however polls, redeems and list changes interleave.
   */
  lemma {:induction false} LookupIsFresh(s: State, events: seq<Event>, v: nat)
    requires Sound(s) && s.lookup.Missed? && v < |s.versions| && NoneOlder(s, v)
    requires LookupFailed !in events
    ensures var t := Run(s, events);
            && Sound(t) && FreshSince(t, v) && FreshResult(t, v)
            && !t.lookup.Failed? && !t.lookup.Idle? && t.uuid == s.uuid
  {
    hide Step, FreshSince, FreshResult, CacheListed;
    CacheWasListed(s, events);
    FreshAtFirst(s, v);
    if events != [] {
      var front := events[..|events| - 1];
      assert events[|events| - 1] in events;
      LookupIsFresh(s, front, v);
      StepKeepsFresh(Run(s, front), events[|events| - 1], v);
      LookupGoesOn(Run(s, front), events[|events| - 1]);
    }
  }

  lemma {:induction false} FixedList(s: State, events: seq<Event>)
    requires |s.versions| == 1 && forall e :: e in events ==> !e.ListChanges?
    ensures Run(s, events).versions == s.versions
  {
    if events != [] {
      assert events[|events| - 1] in events;
      FixedList(s, events[..|events| - 1]);
    }
  }

  /**
   While the list is fixed the cache stays a sub-map of it, and a lookup whose
   sync succeeds returns exactly the listed url, even when a stale poll dropped
   a redeemed entry in between.
   */
  lemma FixedListLookupIsExact(s: State, events: seq<Event>)
    requires Sound(s) && |s.versions| == 1 && s.lookup.Missed?
    requires forall e :: e in events ==> !e.ListChanges?
    ensures var t := Run(s, events);
            && (forall u :: u in t.cache ==> u in s.versions[0] && t.cache[u] == s.versions[0][u])
            && (LookupFailed !in events && t.lookup.Done? ==> t.lookup.result == Get(s.versions[0], s.uuid))
  {
    hide Run, NoneOlder, FreshSince;
    var t := Run(s, events);
    FixedList(s, events);
    CacheWasListed(s, events);
    assert CacheListed(t);
    if LookupFailed !in events {
      NoneOlderThanFirst(s);
      LookupIsFresh(s, events, 0);
    }
  }

  lemma NoneOlderThanFirst(s: State)
    ensures NoneOlder(s, 0)
  {
  }

  // ----- the shared dictionary, one method per stretch between awaits -----

  class Upstreams {
    var entries: Listing
    ghost var versions: seq<Listing>
    ghost var polls: multiset<nat>
    ghost var redeems: multiset<nat>
    ghost var uuid: string
    ghost var lookup: Lookup

    ghost function View(): State
      reads this
    {
      State(versions, entries, polls, redeems, uuid, lookup)
    }

    constructor (listing: Listing)
      ensures View() == State([listing], map[], multiset{}, multiset{}, "", Idle)
    {
      entries, versions, polls, redeems, uuid, lookup := map[], [listing], multiset{}, multiset{}, "", Idle;
    }

    /** Under the lock: clear, then update with the answer's rows. */
    method ApplySync(rows: seq<Row>)
      modifies this`entries
      ensures entries == ListingOf(rows)
    {
      entries := map[];
      for i := 0 to |rows|
        invariant entries == ListingOf(rows[..i])
      {
        assert rows[..i + 1][..i] == rows[..i];
        if Truthy(rows[i].uuid) && Truthy(rows[i].url) {
          entries := entries[rows[i].uuid.value := rows[i].url.value];
        }
      }
      assert rows[..|rows|] == rows;
    }

    /** The answer to a poll, or to the sync of another request. */
    method ApplyPoll(rows: seq<Row>, ghost version: nat)
      requires version in polls && version < |versions| && versions[version] == ListingOf(rows)
      modifies this`entries, this`polls
      ensures View() == Step(old(View()), PollApplied(version))
    {
      ApplySync(rows);
      polls := polls - multiset{version};
    }

    /**
     The write of `session_handler`, done only for a redeemed ticket of this host;
     the answer names the url its version lists, and none for a host without one.
     */
    method ApplyRedeem(hostUuid: string, answeredUuid: Option<string>, url: Option<string>, ghost version: nat)
      returns (redeemed: bool)
      requires version in redeems && version < |versions|
      requires answeredUuid == Some(hostUuid) ==>
                 if Truthy(url) then Get(versions[version], hostUuid) == url else hostUuid !in versions[version]
      modifies this`entries, this`redeems
      ensures redeemed <==> answeredUuid == Some(hostUuid)
      ensures entries == if redeemed && Truthy(url) then old(entries)[hostUuid := url.value] else old(entries)
      ensures View() == Step(old(View()), if redeemed then RedeemApplied(version, hostUuid) else RedeemLost(version))
    {
      redeemed := answeredUuid == Some(hostUuid);
      if redeemed && Truthy(url) {
        assert hostUuid in versions[version] && versions[version][hostUuid] == url.value;
        entries := entries[hostUuid := url.value];
      }
      redeems := redeems - multiset{version};
    }

    /** `get_upstream` up to its await: a truthy hit ends it. */
    method BeginLookup(server: string) returns (hit: Option<string>)
      requires lookup.Idle? && versions != []
      modifies this`uuid, this`lookup
      ensures View() == Step(old(View()), LookupBegins(server))
      ensures lookup == if Truthy(hit) then Done(hit) else Missed
    {
      hit := Get(entries, server);
      uuid, lookup := server, if Truthy(hit) then Done(hit) else Missed;
    }

    /** The answer to its own sync. */
    method ApplyLookupSync(rows: seq<Row>)
      requires lookup.Fetching? && lookup.version < |versions| && versions[lookup.version] == ListingOf(rows)
      modifies this`entries, this`lookup
      ensures View() == Step(old(View()), LookupApplied)
    {
      ApplySync(rows);
      lookup := Synced;
    }

    /** The second look, whatever happened to the cache since. */
    method FinishLookup(server: string) returns (url: Option<string>)
      requires (lookup.Synced? || lookup.Failed?) && versions != [] && server == uuid
      modifies this`lookup
      ensures View() == Step(old(View()), LookupReads) && lookup == Done(url)
    {
      url := Get(entries, server);
      lookup := Done(url);
    }

    /** `get_upstream` when nothing comes between its awaits. */
    method GetUpstream(server: string, answer: Option<seq<Row>>) returns (url: Option<string>)
      requires lookup.Idle? && versions != []
      requires answer.Some? ==> versions[|versions| - 1] == ListingOf(answer.value)
      modifies this`entries, this`uuid, this`lookup
      ensures Truthy(Get(old(entries), server)) ==> url == Get(old(entries), server) && entries == old(entries)
      ensures !Truthy(Get(old(entries), server)) ==>
                && entries == (if answer.Some? then ListingOf(answer.value) else old(entries))
                && url == Get(entries, server)
      ensures lookup == Done(url)
    {
      url := BeginLookup(server);
      if Truthy(url) { return; }
      if answer.Some? {
        lookup := Fetching(|versions| - 1);
        ApplyLookupSync(answer.value);
      } else {
        lookup := Failed;
      }
      url := FinishLookup(server);
    }
  }
}
