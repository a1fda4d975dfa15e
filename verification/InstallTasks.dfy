/**
 The installation tasks of the servers, and the rule that a server has at most
 one open task. Requests run on one event loop: code between two awaits is one
 step, and a reinstall awaits between cancelling the open tasks and queueing its own.
 */
module InstallTasks {
  import opened PyText

  datatype Status = Pending | InProgress | Completed | Failed | Cancelled

  datatype Task = Task(server: nat, status: Status) {
    predicate Open() {
      status.Pending? || status.InProgress?
    }
  }

  type Rows = map<nat, Task>

  function OpenOn(rows: Rows, server: nat): set<nat> {
    set id | id in rows && rows[id].server == server && rows[id].Open()
  }

  ghost predicate AtMostOneOpen(rows: Rows) {
    forall i, j :: i in rows && j in rows && rows[i].Open() && rows[j].Open() && rows[i].server == rows[j].server ==>
                     i == j
  }

  /** `rows` is the table, `nextId` its auto-increment, `suspended` the reinstalls at their await. */
  datatype State = State(rows: Rows, nextId: nat, suspended: map<nat, nat>)

  ghost predicate Valid(s: State) {
    forall id :: id in s.rows ==> id < s.nextId
  }

  datatype Event =
    | Install(server: nat)                          // queue an install
    | AdminInstall(server: nat)                     // the administrators' boot task with a template
    | ReinstallBegin(request: nat, server: nat)     // up to the await
    | ReinstallFinish(request: nat)                 // after the await
    | SetStatus(id: nat, status: Status)            // mark_in_progress, mark_completed, mark_failed
    | Cancel(id: nat)
    | DeletePending(server: nat)

  function WithStatus(rows: Rows, id: nat, status: Status): Rows {
    if id in rows then rows[id := rows[id].(status := status)] else rows
  }

  function CancelOne(rows: Rows, id: nat): Rows {
    if id in rows && rows[id].Open() then WithStatus(rows, id, Cancelled) else rows
  }

  function CancelOn(rows: Rows, server: nat): Rows {
    map id | id in rows :: if id in OpenOn(rows, server) then rows[id].(status := Cancelled) else rows[id]
  }

  function DeletePendingOn(rows: Rows, server: nat): Rows {
    map id | id in rows && !(rows[id].server == server && rows[id].status.Pending?) :: rows[id]
  }

  function Create(s: State, server: nat): State {
    s.(rows := s.rows[s.nextId := Task(server, Pending)], nextId := s.nextId + 1)
  }

  /** Refused (the 409) while a task is open, else one new pending task. */
  function Queue(s: State, server: nat): State {
    if OpenOn(s.rows, server) != {} then s else Create(s, server)
  }

  function Step(s: State, e: Event): State {
    match e
    case Install(server) => Queue(s, server)
    case AdminInstall(server) => Create(s, server)
    case ReinstallBegin(request, server) =>
      s.(rows := CancelOn(s.rows, server), suspended := s.suspended[request := server])
    case ReinstallFinish(request) =>
      if request !in s.suspended then s
      else Queue(s.(suspended := s.suspended - {request}), s.suspended[request])
    case SetStatus(id, status) => s.(rows := WithStatus(s.rows, id, status))
    case Cancel(id) => s.(rows := CancelOne(s.rows, id))
    case DeletePending(server) => s.(rows := DeletePendingOn(s.rows, server))
  }

  function Run(s: State, events: seq<Event>): State {
    if events == [] then s else Step(Run(s, events[..|events| - 1]), events[|events| - 1])
  }

  /** A closed task is set back to pending or in progress while its server has an open one. */
  ghost predicate ReopensBesideOther(s: State, e: Event) {
    && e.SetStatus? && e.id in s.rows
    && !s.rows[e.id].Open() && s.rows[e.id].(status := e.status).Open()
    && OpenOn(s.rows, s.rows[e.id].server) != {}
  }

  /** The two ways to a second open task; the administrators' route does not look for one. */
  ghost predicate OpensBesideOther(s: State, e: Event) {
    ReopensBesideOther(s, e) || (e.AdminInstall? && OpenOn(s.rows, e.server) != {})
  }

  lemma StepKeepsValid(s: State, e: Event)
    requires Valid(s)
    ensures Valid(Step(s, e))
  {
  }

  /** One step from a good state leaves a good one, those two being the only exceptions. */
  lemma StepKeepsAtMostOneIff(s: State, e: Event)
    requires Valid(s) && AtMostOneOpen(s.rows)
    ensures AtMostOneOpen(Step(s, e).rows) <==> !OpensBesideOther(s, e)
  {
    var t := Step(s, e);
    match e
    case SetStatus(id, status) =>
      if ReopensBesideOther(s, e) {
        var other :| other in OpenOn(s.rows, s.rows[id].server);
        assert t.rows[id].Open() && t.rows[other].Open() && id != other;
      } else if id in s.rows && t.rows[id].Open() {
        forall j | j in t.rows && t.rows[j].Open() && t.rows[j].server == t.rows[id].server ensures j == id {
          assert j in OpenOn(s.rows, s.rows[id].server) || j == id;
        }
      }
    case Install(server) => QueueKeeps(s, server);
    case AdminInstall(server) => CreateKeepsIff(s, server);
    case ReinstallFinish(request) =>
      if request in s.suspended { QueueKeeps(s.(suspended := s.suspended - {request}), s.suspended[request]); }
    case _ =>
  }

  /** Creating a task opens exactly one more on its server. */
  lemma CreateOpensOneMore(s: State, server: nat)
    requires Valid(s)
    ensures OpenOn(Create(s, server).rows, server) == OpenOn(s.rows, server) + {s.nextId}
    ensures s.nextId !in OpenOn(s.rows, server)
  {
    var t := Create(s, server);
    forall id ensures id in OpenOn(t.rows, server) <==> id in OpenOn(s.rows, server) + {s.nextId} {
    }
  }

  lemma CreateKeepsIff(s: State, server: nat)
    requires Valid(s) && AtMostOneOpen(s.rows)
    ensures AtMostOneOpen(Create(s, server).rows) <==> OpenOn(s.rows, server) == {}
  {
    var t := Create(s, server);
    CreateOpensOneMore(s, server);
    if j :| j in OpenOn(s.rows, server) {
      assert j in OpenOn(t.rows, server) && s.nextId in OpenOn(t.rows, server) && j != s.nextId;
    } else {
      forall j | j in t.rows && t.rows[j].Open() && t.rows[j].server == server ensures j == s.nextId {
        assert j in OpenOn(t.rows, server);
      }
    }
  }

  lemma QueueKeeps(s: State, server: nat)
    requires Valid(s) && AtMostOneOpen(s.rows)
    ensures AtMostOneOpen(Queue(s, server).rows)
  {
    CreateKeepsIff(s, server);
  }

  /** Good in the state reached and in every state on the way. */
  ghost predicate GoodThroughout(s: State, events: seq<Event>) {
    AtMostOneOpen(Run(s, events).rows) && (events == [] || GoodThroughout(s, events[..|events| - 1]))
  }

  ghost predicate NeverOpensBeside(s: State, events: seq<Event>) {
    events == [] ||
    var front := events[..|events| - 1];
    !OpensBesideOther(Run(s, front), events[|events| - 1]) && NeverOpensBeside(s, front)
  }

  lemma {:induction false} RunValid(s: State, events: seq<Event>)
    requires Valid(s)
    ensures Valid(Run(s, events))
  {
    if events != [] {
      var front := events[..|events| - 1];
      RunValid(s, front);
      StepKeepsValid(Run(s, front), events[|events| - 1]);
    }
  }

  lemma RunPrefix(s: State, events: seq<Event>, k: nat)
    requires k < |events|
    ensures Run(s, events[..k + 1]) == Step(Run(s, events[..k]), events[k])
  {
    assert events[..k + 1][..k] == events[..k];
  }

  /**
   In every interleaving of installs by any route, reinstalls and status changes:
   each server has at most one open task all the time exactly when no event
   reopens a closed task, or creates an administrator's one, beside an open one.
   */
  lemma {:induction false} AtMostOneOpenIff(s: State, events: seq<Event>)
    requires Valid(s) && AtMostOneOpen(s.rows)
    ensures GoodThroughout(s, events) <==> NeverOpensBeside(s, events)
  {
    if events != [] {
      var front := events[..|events| - 1];
      AtMostOneOpenIff(s, front);
      RunValid(s, front);
      if GoodThroughout(s, front) {
        assert AtMostOneOpen(Run(s, front).rows);
        StepKeepsAtMostOneIff(Run(s, front), events[|events| - 1]);
      }
    }
  }

  /**
   The exception is reachable: an install is replaced by a reinstall, and then
   the installer of the replaced task reports that it is in progress.
   */
  lemma CancelledTaskCanReopen(server: nat)
    ensures var start := State(map[], 0, map[]);
            var events := [Install(server), ReinstallBegin(0, server), ReinstallFinish(0), SetStatus(0, InProgress)];
            OpenOn(Run(start, events).rows, server) == {0, 1}
  {
    var start := State(map[], 0, map[]);
    var events := [Install(server), ReinstallBegin(0, server), ReinstallFinish(0), SetStatus(0, InProgress)];
    RunPrefix(start, events, 0);
    RunPrefix(start, events, 1);
    RunPrefix(start, events, 2);
    RunPrefix(start, events, 3);
    assert events[..0] == [] && events[..4] == events;
    var s1 := Step(start, events[0]);
    assert OpenOn(start.rows, server) == {} && s1.rows == map[0 := Task(server, Pending)];
    var s2 := Step(s1, events[1]);
    assert OpenOn(s1.rows, server) == {0} && s2.rows == map[0 := Task(server, Cancelled)];
    var s3 := Step(s2, events[2]);
    assert OpenOn(s2.rows, server) == {} && s3.rows == map[0 := Task(server, Cancelled), 1 := Task(server, Pending)];
  }

  /** So is the other: an administrator's install leaves every open task open beside its own. */
  lemma AdminInstallAddsOpenTask(s: State, server: nat)
    requires Valid(s) && OpenOn(s.rows, server) != {}
    ensures var t := Step(s, AdminInstall(server));
            OpenOn(t.rows, server) > OpenOn(s.rows, server) && !AtMostOneOpen(t.rows)
  {
    var t := Step(s, AdminInstall(server));
    CreateOpensOneMore(s, server);
    var j :| j in OpenOn(s.rows, server);
    assert j in OpenOn(t.rows, server) && s.nextId in OpenOn(t.rows, server) && j != s.nextId;
  }

  /** From the empty table: a queued install, then an administrator's. */
  lemma AdminInstallBesideInstall(server: nat)
    ensures OpenOn(Run(State(map[], 0, map[]), [Install(server), AdminInstall(server)]).rows, server) == {0, 1}
  {
    var start := State(map[], 0, map[]);
    var events := [Install(server), AdminInstall(server)];
    RunPrefix(start, events, 0);
    RunPrefix(start, events, 1);
    assert events[..0] == [] && events[..2] == events;
    assert OpenOn(start.rows, server) == {};
    CreateOpensOneMore(start, server);
    CreateOpensOneMore(Create(start, server), server);
  }

  // ----- what a reinstall achieves -----

  /** Cancelling closes every open task of the server and touches no other row. */
  lemma CancelOnClosesAll(rows: Rows, server: nat)
    ensures OpenOn(CancelOn(rows, server), server) == {}
    ensures forall other :: other != server ==> OpenOn(CancelOn(rows, server), other) == OpenOn(rows, other)
  {
    forall other | other != server ensures OpenOn(CancelOn(rows, server), other) == OpenOn(rows, other) {
      forall id ensures id in OpenOn(CancelOn(rows, server), other) <==> id in OpenOn(rows, other) {
      }
    }
  }

  /** Events that leave the open tasks of `server` alone or close them. */
  ghost predicate OpensNothingOn(s: State, e: Event, server: nat) {
    match e
    case Install(other) => other != server
    case AdminInstall(other) => other != server
    case ReinstallFinish(request) => request in s.suspended ==> s.suspended[request] != server
    case SetStatus(id, status) =>
      id in s.rows && s.rows[id].server == server ==> !status.Pending? && !status.InProgress?
    case _ => true
  }

  lemma OpensNothingStep(s: State, e: Event, server: nat)
    requires Valid(s) && OpenOn(s.rows, server) == {} && OpensNothingOn(s, e, server)
    ensures OpenOn(Step(s, e).rows, server) == {}
  {
    var t := Step(s, e);
    forall id | id in t.rows && t.rows[id].server == server ensures !t.rows[id].Open() {
      if id in s.rows { assert id !in OpenOn(s.rows, server); }
    }
  }

  /** Between the two halves: nothing opens on the server and the request stays suspended. */
  ghost predicate Undisturbed(s: State, between: seq<Event>, request: nat, server: nat) {
    forall k :: 0 <= k < |between| ==>
      && OpensNothingOn(Run(s, between[..k]), between[k], server)
      && between[k] != ReinstallFinish(request)
      && !(between[k].ReinstallBegin? && between[k].request == request)
  }

  lemma {:induction false} UndisturbedRun(s: State, between: seq<Event>, request: nat, server: nat)
    requires Valid(s) && OpenOn(s.rows, server) == {} && request in s.suspended && s.suspended[request] == server
    requires Undisturbed(s, between, request, server)
    ensures var t := Run(s, between);
            OpenOn(t.rows, server) == {} && request in t.suspended && t.suspended[request] == server
  {
    if between != [] {
      var n := |between| - 1;
      var front := between[..n];
      assert forall k :: 0 <= k < n ==> front[k] == between[k] && front[..k] == between[..k];
      UndisturbedRun(s, front, request, server);
      RunValid(s, front);
      OpensNothingStep(Run(s, front), between[n], server);
    }
  }

  /**
   A reinstall replaces whatever was open: if nothing opens on the server during
   its await it ends with exactly one open task, its own; in general it is
   refused exactly when some task is open at that moment.
   */
  lemma ReinstallReplacesOpenTasks(s: State, between: seq<Event>, request: nat, server: nat)
    requires Valid(s)
    requires Undisturbed(Step(s, ReinstallBegin(request, server)), between, request, server)
    ensures var late := Run(Step(s, ReinstallBegin(request, server)), between);
            OpenOn(Step(late, ReinstallFinish(request)).rows, server) == {late.nextId}
  {
    var begun := Step(s, ReinstallBegin(request, server));
    CancelOnClosesAll(s.rows, server);
    StepKeepsValid(s, ReinstallBegin(request, server));
    UndisturbedRun(begun, between, request, server);
    var late := Run(begun, between);
    var end := Step(late, ReinstallFinish(request));
    assert end.rows == late.rows[late.nextId := Task(server, Pending)];
    forall id | id in OpenOn(end.rows, server) ensures id == late.nextId {
      assert id != late.nextId ==> id in OpenOn(late.rows, server);
    }
    assert late.nextId in OpenOn(end.rows, server);
  }

  lemma ReinstallRefusedIff(s: State, request: nat)
    requires Valid(s) && request in s.suspended
    ensures Step(s, ReinstallFinish(request)).rows == s.rows <==> OpenOn(s.rows, s.suspended[request]) != {}
  {
    assert s.nextId !in s.rows;
  }

  // ----- the table as the DAO and the request handlers use it -----

  class TaskTable {
    var rows: Rows
    var nextId: nat
    var suspended: map<nat, nat>

    ghost function View(): State
      reads this
    {
      State(rows, nextId, suspended)
    }

    constructor ()
      ensures View() == State(map[], 0, map[]) && Valid(View())
    {
      rows, nextId, suspended := map[], 0, map[];
    }

    /** Some open task of the server, if there is one. */
    method GetActiveByServer(server: nat) returns (id: Option<nat>)
      ensures id.None? <==> OpenOn(rows, server) == {}
      ensures id.Some? ==> id.value in OpenOn(rows, server)
    {
      if i :| i in rows && rows[i].server == server && rows[i].Open() {
        assert i in OpenOn(rows, server);
        id := Some(i);
      } else {
        id := None;
      }
    }

    method CancelTask(id: nat)
      modifies this`rows
      ensures rows == CancelOne(old(rows), id)
      ensures View() == Step(old(View()), Cancel(id))
    {
      if id in rows && rows[id].Open() {
        rows := rows[id := rows[id].(status := Cancelled)];
      }
    }

    method Mark(id: nat, status: Status)
      modifies this`rows
      ensures View() == Step(old(View()), SetStatus(id, status))
    {
      if id in rows {
        rows := rows[id := rows[id].(status := status)];
      }
    }

    method DeletePendingByServer(server: nat)
      modifies this`rows
      ensures View() == Step(old(View()), DeletePending(server))
    {
      rows := map id | id in rows && !(rows[id].server == server && rows[id].status.Pending?) :: rows[id];
    }

    /** Cancels until none is open; returns how many were. */
    method CancelOpenServerTasks(server: nat) returns (installs: nat)
      modifies this`rows
      ensures rows == CancelOn(old(rows), server)
      ensures installs == |OpenOn(old(rows), server)|
    {
      installs := 0;
      var task := GetActiveByServer(server);
      while task.Some?
        invariant task.None? <==> OpenOn(rows, server) == {}
        invariant task.Some? ==> task.value in OpenOn(rows, server)
        invariant CancelOn(rows, server) == CancelOn(old(rows), server)
        invariant installs + |OpenOn(rows, server)| == |OpenOn(old(rows), server)|
        decreases |OpenOn(rows, server)|
      {
        CancelOneOf(rows, server, task.value);
        CancelTask(task.value);
        installs := installs + 1;
        task := GetActiveByServer(server);
      }
      NothingToCancel(rows, server);
    }

    /** The active-task check and the creation, with no await between them. */
    method QueueTemplateInstall(server: nat) returns (id: Option<nat>)
      modifies this
      ensures View() == Queue(old(View()), server)
      ensures id == if OpenOn(old(rows), server) != {} then None else Some(old(nextId))
    {
      var active := GetActiveByServer(server);
      if active.Some? { return None; }
      var created := CreateTask(server);
      id := Some(created);
    }

    /** The administrators' route: the creation alone. */
    method CreateTask(server: nat) returns (id: nat)
      modifies this`rows, this`nextId
      ensures View() == Step(old(View()), AdminInstall(server))
      ensures id == old(nextId)
    {
      id := nextId;
      rows := rows[nextId := Task(server, Pending)];
      nextId := nextId + 1;
    }

    method ReinstallUntilAwait(request: nat, server: nat) returns (cancelled: nat)
      modifies this
      ensures View() == Step(old(View()), ReinstallBegin(request, server))
      ensures cancelled == |OpenOn(old(rows), server)|
    {
      cancelled := CancelOpenServerTasks(server);
      suspended := suspended[request := server];
    }

    method ReinstallAfterAwait(request: nat) returns (id: Option<nat>)
      requires request in suspended
      modifies this
      ensures View() == Step(old(View()), ReinstallFinish(request))
    {
      var server := suspended[request];
      suspended := suspended - {request};
      id := QueueTemplateInstall(server);
    }
  }

  lemma CancelOneOf(rows: Rows, server: nat, id: nat)
    requires id in OpenOn(rows, server)
    ensures OpenOn(CancelOne(rows, id), server) == OpenOn(rows, server) - {id}
    ensures CancelOn(CancelOne(rows, id), server) == CancelOn(rows, server)
  {
    var next := CancelOne(rows, id);
    forall i ensures i in OpenOn(next, server) <==> i in OpenOn(rows, server) - {id} {
    }
    assert next.Keys == rows.Keys;
    forall i | i in rows ensures CancelOn(next, server)[i] == CancelOn(rows, server)[i] {
      assert i in OpenOn(next, server) <==> i in OpenOn(rows, server) - {id};
    }
  }

  lemma NothingToCancel(rows: Rows, server: nat)
    requires OpenOn(rows, server) == {}
    ensures CancelOn(rows, server) == rows
  {
  }

  // ----- what each step does to the rows -----

  predicate IsOpen(t: Task) {
    t.status == Pending || t.status == InProgress
  }

  /** Cancelling: open tasks of the server become cancelled, every other row stays. */
  lemma CancelOnRows(rows: Rows, server: nat)
    ensures CancelOn(rows, server).Keys == rows.Keys
    ensures forall id :: id in rows ==>
              CancelOn(rows, server)[id] ==
              if rows[id].server == server && IsOpen(rows[id]) then Task(server, Cancelled) else rows[id]
  {
  }

  /** Every other event touches one task, adds one, or deletes the server's pending ones. */
  lemma StepRows(s: State, e: Event)
    ensures var t := Step(s, e);
            match e
            case Install(server) =>
              if exists id :: id in s.rows && s.rows[id].server == server && IsOpen(s.rows[id]) then t == s
              else t == State(s.rows[s.nextId := Task(server, Pending)], s.nextId + 1, s.suspended)
            case AdminInstall(server) =>
              t == State(s.rows[s.nextId := Task(server, Pending)], s.nextId + 1, s.suspended)
            case ReinstallBegin(request, server) =>
              t == State(CancelOn(s.rows, server), s.nextId, s.suspended[request := server])
            case ReinstallFinish(request) =>
              if request !in s.suspended then t == s
              else
                var (server, waiting) := (s.suspended[request], s.suspended - {request});
                if exists id :: id in s.rows && s.rows[id].server == server && IsOpen(s.rows[id])
                then t == State(s.rows, s.nextId, waiting)
                else t == State(s.rows[s.nextId := Task(server, Pending)], s.nextId + 1, waiting)
            case SetStatus(id, status) =>
              t == if id in s.rows then s.(rows := s.rows[id := Task(s.rows[id].server, status)]) else s
            case Cancel(id) =>
              t == if id in s.rows && IsOpen(s.rows[id])
                   then s.(rows := s.rows[id := Task(s.rows[id].server, Cancelled)]) else s
            case DeletePending(server) =>
              && t.nextId == s.nextId && t.suspended == s.suspended
              && (forall id :: id in t.rows <==>
                    id in s.rows && !(s.rows[id].server == server && s.rows[id].status == Pending))
              && (forall id :: id in t.rows ==> t.rows[id] == s.rows[id])
  {
    if e.Install? { OpenOnIff(s.rows, e.server); }
    if e.ReinstallFinish? && e.request in s.suspended { OpenOnIff(s.rows, s.suspended[e.request]); }
  }

  lemma OpenOnIff(rows: Rows, server: nat)
    ensures OpenOn(rows, server) == {} <==> !exists id :: id in rows && rows[id].server == server && IsOpen(rows[id])
  {
    forall id | id in rows && rows[id].server == server && IsOpen(rows[id]) ensures id in OpenOn(rows, server) {
    }
    if id :| id in OpenOn(rows, server) {
      assert IsOpen(rows[id]);
    }
  }
}
