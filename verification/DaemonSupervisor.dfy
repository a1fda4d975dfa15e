/**
 The supervisor of the DHCP daemon; the TFTP one is the same machine. Start and
 stop run under one lock, but they await inside it, and a process may exit at any time.
 */
module DaemonSupervisor {
  import opened PyText

  /** An exited process is noticed (`returncode` set) only when it is reaped. */
  datatype Proc = Alive | Exited | Reaped

  /** Where the operation that holds the lock is. */
  datatype Holder =
    | Free
    | Starting                 // inside create_subprocess_exec, nothing spawned yet
    | Spawned(pid: nat)        // the process exists, `_process` is not assigned yet
    | Publishing               // awaiting the state publication
    | Terminating              // SIGTERM sent, waiting up to 10 s
    | Killing                  // SIGKILL sent, waiting

  datatype State = State(procs: map<nat, Proc>, nextPid: nat, current: Option<nat>, holder: Holder)

  datatype Event =
    | StartBegin(configured: bool)   // lock taken; configured: the config file exists
    | SpawnOk
    | SpawnFails
    | StartAssign                    // `_process = ...`
    | StopBegin
    | TermTimeout                    // 10 s passed: kill, or ProcessLookupError when just reaped
    | WaitDone                       // `_process.wait()` returned: `_process = None`
    | PublishDone                    // lock released
    | Exit(pid: nat)
    | Reap(pid: nat)

  /** `_process is not None and _process.returncode is None` */
  predicate IsRunning(s: State) {
    s.current.Some? && s.current.value in s.procs && s.procs[s.current.value] != Reaped
  }

  function Step(s: State, e: Event): State {
    match e
    case StartBegin(configured) =>
      if !s.holder.Free? || IsRunning(s) || !configured then s else s.(holder := Starting)
    case SpawnOk =>
      if s.holder.Starting?
      then s.(procs := s.procs[s.nextPid := Alive], nextPid := s.nextPid + 1, holder := Spawned(s.nextPid)) else s
    case SpawnFails => if s.holder.Starting? then s.(holder := Free) else s
    case StartAssign => if s.holder.Spawned? then s.(current := Some(s.holder.pid), holder := Publishing) else s
    case StopBegin =>
      if !s.holder.Free? then s else if IsRunning(s) then s.(holder := Terminating) else s.(holder := Publishing)
    case TermTimeout =>
      if !s.holder.Terminating? then s else if IsRunning(s) then s.(holder := Killing) else s.(holder := Free)
    case WaitDone =>
      if (s.holder.Terminating? || s.holder.Killing?) && !IsRunning(s)
      then s.(current := None, holder := Publishing) else s
    case PublishDone => if s.holder.Publishing? then s.(holder := Free) else s
    case Exit(pid) => if pid in s.procs && s.procs[pid].Alive? then s.(procs := s.procs[pid := Exited]) else s
    case Reap(pid) => if pid in s.procs && s.procs[pid].Exited? then s.(procs := s.procs[pid := Reaped]) else s
  }

  function Run(s: State, events: seq<Event>): State {
    if events == [] then s else Step(Run(s, events[..|events| - 1]), events[|events| - 1])
  }

  const INITIAL := State(map[], 1, None, Free)

  /** The process the supervisor answers for: the current one, or the one just spawned. */
  predicate Tracked(s: State, pid: nat) {
    s.current == Some(pid) || s.holder == Spawned(pid)
  }

  ghost predicate Inv(s: State) {
    && (forall p :: p in s.procs ==> p < s.nextPid)
    && (s.current.Some? ==> s.current.value in s.procs)
    && (s.holder.Spawned? ==> s.holder.pid in s.procs)
    && (forall p :: p in s.procs && s.procs[p] != Reaped ==> Tracked(s, p))
    && (s.holder.Starting? || s.holder.Spawned? ==> !IsRunning(s))
  }

  lemma StepKeepsInv(s: State, e: Event)
    requires Inv(s)
    ensures Inv(Step(s, e))
  {
  }

  lemma {:induction false} RunKeepsInv(s: State, events: seq<Event>)
    requires Inv(s)
    ensures Inv(Run(s, events))
  {
    if events != [] {
      RunKeepsInv(s, events[..|events| - 1]);
      StepKeepsInv(Run(s, events[..|events| - 1]), events[|events| - 1]);
    }
  }

  /**
   In every interleaving: an unreaped process is the current one, or the one a
   start has spawned and is about to assign; two are never there at once, so no
   two daemons are alive; with the lock free the current one is the only one.
   */
  lemma AtMostOneDaemon(events: seq<Event>)
    ensures var s := Run(INITIAL, events);
            && (forall p :: p in s.procs && s.procs[p] != Reaped ==> Tracked(s, p))
            && (forall p, q :: p in s.procs && q in s.procs && s.procs[p] != Reaped && s.procs[q] != Reaped ==> p == q)
            && (forall p :: p in s.procs && s.procs[p].Alive? && !s.holder.Spawned? ==> s.current == Some(p))
  {
    RunKeepsInv(INITIAL, events);
  }

  /** When stop clears `_process`, no daemon is alive, nor any exited one unnoticed. */
  lemma StopLeavesNone(events: seq<Event>)
    requires var s := Run(INITIAL, events); Step(s, WaitDone) != s
    ensures var t := Step(Run(INITIAL, events), WaitDone);
            t.current.None? && forall p :: p in t.procs ==> t.procs[p] == Reaped
  {
    RunKeepsInv(INITIAL, events);
  }

  predicate Unreaped(s: State, p: nat) {
    p in s.procs && s.procs[p] != Reaped
  }

  predicate Stopping(s: State) {
    s.holder.Terminating? || s.holder.Killing?
  }

  /** Outside a spawn, running means that some process is unreaped, and then the current one is. */
  lemma RunningIffUnreaped(s: State)
    requires Inv(s) && !s.holder.Spawned?
    ensures IsRunning(s) <==> exists p :: Unreaped(s, p)
    ensures forall p: nat :: Unreaped(s, p) ==> s.current == Some(p)
  {
    if IsRunning(s) { assert Unreaped(s, s.current.value); }
  }

  /** A start that gets the lock spawns exactly when it may: a config file is there and no process unreaped. */
  lemma StartSpawnsIff(events: seq<Event>, configured: bool)
    requires Run(INITIAL, events).holder.Free?
    ensures var s := Run(INITIAL, events);
            var t := Step(s, StartBegin(configured));
            && (t.holder.Starting? <==> configured && forall p :: !Unreaped(s, p)) && (t != s ==> t.holder.Starting?)
            && (t.holder.Starting? ==>
                  var u := Step(Step(t, SpawnOk), StartAssign);
                  u.current == Some(s.nextPid) && u.procs == s.procs[s.nextPid := Alive] && u.holder.Publishing?)
  {
    RunKeepsInv(INITIAL, events);
    RunningIffUnreaped(Run(INITIAL, events));
  }

  /** A stop that gets the lock terminates exactly when some process is unreaped. */
  lemma StopTerminatesIff(events: seq<Event>)
    requires Run(INITIAL, events).holder.Free?
    ensures var s := Run(INITIAL, events);
            var t := Step(s, StopBegin);
            && (t.holder.Terminating? <==> exists p :: Unreaped(s, p))
            && (!t.holder.Terminating? ==> t.holder.Publishing? && forall p :: !Unreaped(t, p))
  {
    RunKeepsInv(INITIAL, events);
    RunningIffUnreaped(Run(INITIAL, events));
  }

  /** It gets out of its waits only with every process reaped; a time-out before that kills. */
  lemma StopEndsOnlyReaped(events: seq<Event>, e: Event)
    requires Stopping(Run(INITIAL, events))
    ensures var (s, t) := (Run(INITIAL, events), Step(Run(INITIAL, events), e));
            && (!Stopping(t) ==> forall p :: !Unreaped(t, p))
            && (e.WaitDone? && (forall p :: !Unreaped(s, p)) ==> t.current.None? && t.holder.Publishing?)
            && (e.TermTimeout? && s.holder.Terminating? && (exists p :: Unreaped(s, p)) ==> t.holder.Killing?)
            && (e.TermTimeout? && s.holder.Terminating? && (forall p :: !Unreaped(s, p)) ==>
                  t.holder.Free? && t.current == s.current)
  {
    RunKeepsInv(INITIAL, events);
    RunningIffUnreaped(Run(INITIAL, events));
  }

  /** Processes change only by spawning, exiting and being reaped; the end of an operation releases the lock. */
  lemma StepEffects(s: State, e: Event)
    ensures var t := Step(s, e);
            && (!e.SpawnOk? && !e.Exit? && !e.Reap? ==> t.procs == s.procs)
            && (e.Exit? && e.pid in s.procs && s.procs[e.pid].Alive? ==> t == s.(procs := s.procs[e.pid := Exited]))
            && (e.Reap? && e.pid in s.procs && s.procs[e.pid].Exited? ==> t == s.(procs := s.procs[e.pid := Reaped]))
            && (e.PublishDone? && s.holder.Publishing? ==> t == s.(holder := Free))
            && (e.SpawnFails? && s.holder.Starting? ==> t == s.(holder := Free))
            && (s.current.Some? && t.current != s.current ==> e.WaitDone? || e.StartAssign?)
  {
  }

  lemma RunSnoc(s: State, events: seq<Event>, e: Event)
    ensures Run(s, []) == s && Run(s, events + [e]) == Step(Run(s, events), e)
  {
    assert (events + [e])[..|events|] == events;
  }

  lemma Then(s: State, events: seq<Event>, e: Event, t: State, u: State) returns (more: seq<Event>)
    requires Run(s, events) == t && Step(t, e) == u
    ensures more == events + [e] && Run(s, more) == u
  {
    RunSnoc(s, events, e);
    more := events + [e];
  }

  /** A start as it goes when nothing interferes: one daemon runs and the lock is free. */
  lemma UndisturbedStart(s: State)
    requires s.holder.Free? && !IsRunning(s)
    ensures var t := Run(s, [StartBegin(true)] + [SpawnOk] + [StartAssign] + [PublishDone]);
            t == State(s.procs[s.nextPid := Alive], s.nextPid + 1, Some(s.nextPid), Free) && IsRunning(t)
  {
    hide Run;
    var t1 := s.(holder := Starting);
    var t2 := State(s.procs[s.nextPid := Alive], s.nextPid + 1, s.current, Spawned(s.nextPid));
    var t3 := t2.(current := Some(s.nextPid), holder := Publishing);
    RunSnoc(s, [], SpawnOk);
    var events := Then(s, [], StartBegin(true), s, t1);
    assert events == [StartBegin(true)];
    events := Then(s, events, SpawnOk, t1, t2);
    events := Then(s, events, StartAssign, t2, t3);
    events := Then(s, events, PublishDone, t3, t3.(holder := Free));
  }

  /** A stop likewise: the daemon is gone and the lock is free. */
  lemma UndisturbedStop(s: State, p: nat)
    requires s.holder.Free? && s.current == Some(p) && p in s.procs && s.procs[p].Alive?
    ensures var t := Run(s, [StopBegin] + [Exit(p)] + [Reap(p)] + [WaitDone] + [PublishDone]);
            t == State(s.procs[p := Reaped], s.nextPid, None, Free) && !IsRunning(t)
  {
    hide Run;
    var t1 := s.(holder := Terminating);
    var t2 := t1.(procs := s.procs[p := Exited]);
    var t3 := t1.(procs := s.procs[p := Reaped]);
    var t4 := t3.(current := None, holder := Publishing);
    assert t2.procs[p := Reaped] == t3.procs;
    RunSnoc(s, [], StopBegin);
    var events := Then(s, [], StopBegin, s, t1);
    assert events == [StopBegin];
    events := Then(s, events, Exit(p), t1, t2);
    events := Then(s, events, Reap(p), t2, t3);
    events := Then(s, events, WaitDone, t3, t4);
    events := Then(s, events, PublishDone, t4, t4.(holder := Free));
  }

  /** `_current_state` reports running exactly when some tracked process is unreaped, outside a spawn. */
  lemma ReportedRunningIff(events: seq<Event>)
    ensures var s := Run(INITIAL, events);
            !s.holder.Spawned? ==> (IsRunning(s) <==> exists p :: p in s.procs && s.procs[p] != Reaped)
  {
    RunKeepsInv(INITIAL, events);
  }

  // ----- the module state of the runner, one method per stretch between awaits -----

  class Supervisor {
    var procs: map<nat, Proc>
    var nextPid: nat
    var current: Option<nat>
    var holder: Holder

    ghost function View(): State
      reads this
    {
      State(procs, nextPid, current, holder)
    }

    constructor ()
      ensures View() == INITIAL && Inv(View())
    {
      procs, nextPid, current, holder := map[], 1, None, Free;
    }

    /** The flag of the status report: outside a spawn, whether any process is left unreaped. */
    method Running() returns (running: bool)
      ensures running == IsRunning(View())
      ensures Inv(View()) && !holder.Spawned? ==> (running <==> exists p :: p in procs && procs[p] != Reaped)
    {
      running := current.Some? && current.value in procs && procs[current.value] != Reaped;
    }

    /** `start` up to the spawn: refused while running, an error without a config file. */
    method BeginStart(configured: bool) returns (spawning: bool)
      requires Inv(View()) && holder.Free?
      modifies this`holder
      ensures View() == Step(old(View()), StartBegin(configured)) && Inv(View())
      ensures spawning <==> configured && !IsRunning(old(View()))
    {
      var running := Running();
      spawning := configured && !running;
      if spawning { holder := Starting; }
    }

    /** What the operating system does during the await. */
    method Spawn()
      requires Inv(View()) && holder.Starting?
      modifies this
      ensures View() == Step(old(View()), SpawnOk) && Inv(View())
    {
      procs := procs[nextPid := Alive];
      holder := Spawned(nextPid);
      nextPid := nextPid + 1;
    }

    method AssignProcess()
      requires Inv(View()) && holder.Spawned?
      modifies this`current, this`holder
      ensures View() == Step(old(View()), StartAssign) && Inv(View())
    {
      current := Some(holder.pid);
      holder := Publishing;
    }

    /** `stop` up to its wait. */
    method BeginStop() returns (terminating: bool)
      requires Inv(View()) && holder.Free?
      modifies this`holder
      ensures View() == Step(old(View()), StopBegin) && Inv(View())
      ensures terminating <==> IsRunning(old(View()))
    {
      terminating := Running();
      holder := if terminating then Terminating else Publishing;
    }

    /** The wait ended because the process was reaped. */
    method ClearProcess()
      requires Inv(View()) && (holder.Terminating? || holder.Killing?) && !IsRunning(View())
      modifies this`current, this`holder
      ensures View() == Step(old(View()), WaitDone) && Inv(View())
      ensures forall p :: p in procs ==> procs[p] == Reaped
    {
      current := None;
      holder := Publishing;
    }
  }
}
