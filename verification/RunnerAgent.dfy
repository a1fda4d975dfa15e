/**
 The runner's uplink agent as a step machine: a debounced state publisher, an
 RPC loop and reconnects that interleave at their awaits. A frame is on the wire
 when `send` is called; the await on `send` may last, and the lock is held meanwhile.
 */
module RunnerAgent {
  import opened PyText
  import opened RunnerProtocol

  const DEBOUNCE := 0.4
  const SHORTEST_DELAY := 0.05

  /** A published state; `serialisable` says whether `json.dumps` accepts it. */
  datatype Snapshot = Snapshot(content: Json, serialisable: bool)

  /** Why a flush was called: forced, at once because the window had passed, or by the timer. */
  datatype Origin = Forced | Immediate | Delayed

  datatype Frame =
    | HelloFrame
    | StateFrame(content: Json, stamp: nat, at: real, origin: Origin, waited: bool)
    | ReplyFrame(envelope: Envelope)
    | EventFrame

  /** A running `_flush_state`: the connection it read, and whether it found the lock taken. */
  datatype Flush = Flush(conn: nat, origin: Origin, waited: bool, opening: bool)

  /** The delayed flush task: none or done, asleep, or past its sleep. */
  datatype Timer = Idle | Sleeping(since: real, due: real) | Flushing

  datatype Session =
    | Offline
    | Opening                          // the hello has been sent, the await on it may last
    | Announcing                       // the opening state is being flushed
    | Serving(busy: Option<Json>)      // the receive loop, with the id of the request being handled

  /**
   `history` is every value `_latest_state` had, the last one current. `wire`
   and `inbox` are the frames sent and the request ids read on connection
   number `conn`, which is the current one unless the session is offline; `muted`
   notes that its opening flush found nothing it could encode.
   */
  datatype State = State(
    now: real, conn: nat, open: bool, history: seq<Snapshot>, lastPush: real, timer: Timer,
    sending: Option<Flush>, waiting: seq<Flush>, wire: seq<Frame>, inbox: seq<Json>, session: Session, muted: bool)

  datatype Event =
    | Tick(elapsed: real)
    | Publish(snapshot: Snapshot, force: bool)     // publish_state, heartbeats included
    | TimerFires
    | Grant                                        // the lock passes to the first waiting flush
    | SendDone                                     // the await on `send` ends
    | Connect
    | HelloDone(snapshot: Snapshot)
    | Receive(raw: Raw)
    | HandlerDone(outcome: Outcome, newId: string)
    | SendEvent                                    // publish_event
    | Drop                                         // the peer closes the connection
    | EndSession

  function Latest(s: State): Snapshot
    requires s.history != []
  {
    s.history[|s.history| - 1]
  }

  /** `send` works on the open current connection only; anything else raises, and that is logged. */
  predicate Reaches(s: State, f: Flush) {
    s.open && f.conn == s.conn
  }

  /** The flush returns: a delayed one ends its task, the opening one starts the receive loop. */
  function Finish(s: State, f: Flush): (t: State)
    ensures t.history == s.history && t.now == s.now && t.conn == s.conn
  {
    var t := if f.origin.Delayed? then s.(timer := Idle) else s;
    if f.opening && f.conn == s.conn && s.session.Announcing? then t.(session := Serving(None)) else t
  }

  /** The flush holds the lock: encode the latest state and send it. */
  function Begin(s: State, f: Flush): (t: State)
    requires s.history != []
    ensures t.history == s.history && t.now == s.now && t.conn == s.conn
  {
    if !Reaches(s, f) then Finish(s, f)
    else if !Latest(s).serialisable then Finish(if f.opening then s.(muted := true) else s, f)
    else
      s.(wire := s.wire + [StateFrame(Latest(s).content, |s.history|, s.now, f.origin, f.waited)], sending := Some(f))
  }

  /** `_flush_state` up to its first await. */
  function CallFlush(s: State, origin: Origin, opening: bool): (t: State)
    requires s.history != []
    ensures t.history == s.history && t.now == s.now && t.conn == s.conn
  {
    if s.session.Offline? then (if origin.Delayed? then s.(timer := Idle) else s)
    else if s.sending.None? && s.waiting == [] then Begin(s, Flush(s.conn, origin, false, opening))
    else s.(waiting := s.waiting + [Flush(s.conn, origin, true, opening)])
  }

  function Delay(sincePush: real): real {
    if DEBOUNCE - sincePush > SHORTEST_DELAY then DEBOUNCE - sincePush else SHORTEST_DELAY
  }

  function Record(s: State, snapshot: Snapshot): State {
    s.(history := s.history + [snapshot])
  }

  function PublishState(s: State, snapshot: Snapshot, force: bool): (r: State)
    ensures r.history == s.history + [snapshot] && r.now == s.now && r.conn == s.conn
  {
    var t := Record(s, snapshot);
    if force then CallFlush(t, Forced, false)
    else if s.now - s.lastPush >= DEBOUNCE then CallFlush(t, Immediate, false)
    else if s.timer.Idle? then t.(timer := Sleeping(s.now, s.now + Delay(s.now - s.lastPush)))
    else t
  }

  function FireTimer(s: State): (t: State)
    requires s.history != []
    ensures t.history == s.history && t.now == s.now && t.conn == s.conn
  {
    if s.timer.Sleeping? && s.now >= s.timer.due then CallFlush(s.(timer := Flushing), Delayed, false) else s
  }

  function GrantLock(s: State): (t: State)
    requires s.history != []
    ensures t.history == s.history && t.now == s.now && t.conn == s.conn
  {
    if s.sending.None? && s.waiting != [] then Begin(s.(waiting := s.waiting[1..]), s.waiting[0]) else s
  }

  /** Only a send that went through moves `_last_push`. */
  function EndSend(s: State): (t: State)
    ensures t.history == s.history && t.now == s.now && t.conn == s.conn
  {
    if s.sending.None? then s
    else
      var f := s.sending.value;
      Finish(if Reaches(s, f) then s.(sending := None, lastPush := s.now) else s.(sending := None), f)
  }

  function Open(s: State): State {
    if !s.session.Offline? then s
    else s.(conn := s.conn + 1, open := true, wire := [HelloFrame], inbox := [], session := Opening, muted := false)
  }

  function Announce(s: State, snapshot: Snapshot): (t: State)
    ensures s.history <= t.history <= s.history + [snapshot] && t.now == s.now && t.conn == s.conn
  {
    if !s.session.Opening? then s else CallFlush(Record(s, snapshot).(session := Announcing), Forced, true)
  }

  function Accept(s: State, raw: Raw): (t: State)
    ensures t.history == s.history && t.now == s.now && t.conn == s.conn
  {
    if s.session != Serving(None) then s
    else match DecodeMessage(raw)
      case None => s
      case Some(m) => if m.kind.Rpc? then s.(inbox := s.inbox + [m.id], session := Serving(Some(m.id))) else s
  }

  /** The reply; on a closed connection its `send` raises out of the session. */
  function Answer(s: State, outcome: Outcome, newId: string): (t: State)
    ensures t.history == s.history && t.now == s.now && t.conn == s.conn
  {
    if !s.session.Serving? || s.session.busy.None? then s
    else if !s.open then s.(session := Offline)
    else s.(wire := s.wire + [ReplyFrame(EncodeReply(s.session.busy.value, outcome, newId))], session := Serving(None))
  }

  function Step(s: State, e: Event): State
    requires s.history != []
  {
    match e
    case Tick(elapsed) => if elapsed >= 0.0 then s.(now := s.now + elapsed) else s
    case Publish(snapshot, force) => PublishState(s, snapshot, force)
    case TimerFires => FireTimer(s)
    case Grant => GrantLock(s)
    case SendDone => EndSend(s)
    case Connect => Open(s)
    case HelloDone(snapshot) => Announce(s, snapshot)
    case Receive(raw) => Accept(s, raw)
    case HandlerDone(outcome, newId) => Answer(s, outcome, newId)
    case SendEvent => if s.open then s.(wire := s.wire + [EventFrame]) else s
    case Drop => s.(open := false)
    case EndSession => if s.session.Offline? then s else s.(session := Offline, open := false)
  }

  /** The agent as constructed, at a non-negative clock reading. */
  function Initial(now: real): State {
    State(now, 0, false, [Snapshot(JObj(map[]), true)], 0.0, Idle, None, [], [], [], Offline, false)
  }

  function Run(s: State, events: seq<Event>): (t: State)
    requires s.history != []
    ensures t.history != []
  {
    if events == [] then s
    else
      var r := Run(s, events[..|events| - 1]);
      HistoryGrows(r, events[|events| - 1]);
      Step(r, events[|events| - 1])
  }

  /** Past values of `_latest_state` are never forgotten or changed. */
  lemma HistoryGrows(s: State, e: Event)
    requires s.history != []
    ensures s.history <= Step(s, e).history && s.now <= Step(s, e).now
  {
    hide Begin, CallFlush, PublishState, FireTimer, GrantLock, EndSend, Announce, Accept, Answer;
  }

  // ----- the state frames on the wire -----

  function States(wire: seq<Frame>): (r: seq<Frame>)
    ensures forall i :: 0 <= i < |r| ==> r[i].StateFrame?
  {
    if wire == [] then []
    else
      var last := wire[|wire| - 1];
      States(wire[..|wire| - 1]) + if last.StateFrame? then [last] else []
  }

  lemma StatesSnoc(wire: seq<Frame>, f: Frame)
    ensures States(wire + [f]) == if f.StateFrame? then States(wire) + [f] else States(wire)
  {
    assert (wire + [f])[..|wire|] == wire;
  }

  /** Two state frames in a row never come closer than the window unless a force or a wait explains it. */
  predicate Spaced(a: Frame, b: Frame)
    requires a.StateFrame? && b.StateFrame?
  {
    && (b.origin.Immediate? && !b.waited ==> b.at >= a.at + DEBOUNCE)
    && (a.origin.Delayed? && b.origin.Delayed? ==> b.at >= a.at + DEBOUNCE)
  }

  /** `b` is not older than `a`, in content and in time. */
  predicate Follows(a: Frame, b: Frame)
    requires a.StateFrame? && b.StateFrame?
  {
    a.stamp <= b.stamp && a.at <= b.at && Spaced(a, b)
  }

  /** A state frame shows the value `_latest_state` had when it was sent. */
  predicate Genuine(f: Frame, history: seq<Snapshot>, now: real) {
    f.StateFrame? && 1 <= f.stamp <= |history| && f.content == history[f.stamp - 1].content && f.at <= now
  }

  ghost predicate InStep(st: seq<Frame>, history: seq<Snapshot>, now: real) {
    && (forall i :: 0 <= i < |st| ==> Genuine(st[i], history, now))
    && (forall i :: 0 < i < |st| ==> Follows(st[i - 1], st[i]))
  }

  // ----- invariants -----

  ghost predicate Clock(s: State) {
    && s.history != [] && s.lastPush <= s.now
    && (s.timer.Sleeping? ==>
          s.timer.since <= s.now && s.timer.since + SHORTEST_DELAY <= s.timer.due <= s.timer.since + DEBOUNCE)
  }

  ghost predicate DelayedWaits(s: State) {
    exists i :: 0 <= i < |s.waiting| && s.waiting[i].origin.Delayed?
  }

  ghost predicate DelayedSends(s: State) {
    s.sending.Some? && s.sending.value.origin.Delayed?
  }

  /** The timer task is past its sleep exactly while its one flush waits or sends. */
  ghost predicate OneDelayed(s: State) {
    && (s.timer.Flushing? <==> DelayedWaits(s) || DelayedSends(s))
    && !(DelayedWaits(s) && DelayedSends(s))
    && (forall i, j :: 0 <= i < j < |s.waiting| ==> !(s.waiting[i].origin.Delayed? && s.waiting[j].origin.Delayed?))
  }

  ghost predicate KnownConns(s: State) {
    && (s.sending.Some? ==> s.sending.value.conn <= s.conn)
    && (forall i :: 0 <= i < |s.waiting| ==> s.waiting[i].conn <= s.conn && s.waiting[i].waited)
  }

  predicate SendsHere(s: State) {
    s.sending.Some? && s.sending.value.conn == s.conn
  }

  /** How the last state frame of an open connection bounds what may follow. */
  ghost predicate Linked(s: State) {
    var st := States(s.wire);
    s.open ==>
      && (SendsHere(s) ==> st != [] && st[|st| - 1].origin == s.sending.value.origin)
      && (st != [] ==>
            var last := st[|st| - 1];
            && (!SendsHere(s) ==> last.at <= s.lastPush)
            && (last.origin.Delayed? && s.timer.Sleeping? ==> s.timer.due >= last.at + DEBOUNCE)
            && (last.origin.Delayed? && DelayedWaits(s) ==> s.now >= last.at + DEBOUNCE))
  }

  ghost predicate Inv(s: State) {
    Clock(s) && OneDelayed(s) && KnownConns(s) && InStep(States(s.wire), s.history, s.now) && Linked(s)
    && (s.session.Offline? ==> !s.open)
  }

  lemma InStepLater(st: seq<Frame>, history: seq<Snapshot>, now: real, more: seq<Snapshot>, later: real)
    requires InStep(st, history, now) && history <= more && now <= later
    ensures InStep(st, more, later)
  {
  }

  lemma InStepSnoc(st: seq<Frame>, f: Frame, history: seq<Snapshot>, now: real)
    requires InStep(st, history, now) && Genuine(f, history, now)
    requires st != [] ==> Follows(st[|st| - 1], f)
    ensures InStep(st + [f], history, now)
  {
  }

  /** The invariant while flush `f` is about to begin: the lock is free and `f` no longer waits. */
  ghost predicate Ready(s: State, f: Flush) {
    var st := States(s.wire);
    && Clock(s) && KnownConns(s) && InStep(st, s.history, s.now) && Linked(s) && (s.session.Offline? ==> !s.open)
    && s.sending.None? && f.conn <= s.conn
    && (s.timer.Flushing? <==> DelayedWaits(s) || f.origin.Delayed?)
    && !(DelayedWaits(s) && f.origin.Delayed?)
    && (forall i, j :: 0 <= i < j < |s.waiting| ==> !(s.waiting[i].origin.Delayed? && s.waiting[j].origin.Delayed?))
    && (Reaches(s, f) && st != [] ==>
          var last := st[|st| - 1];
          && (f.origin.Immediate? && !f.waited ==> s.now >= last.at + DEBOUNCE)
          && (last.origin.Delayed? && f.origin.Delayed? ==> s.now >= last.at + DEBOUNCE))
  }

  lemma FinishKeeps(s: State, f: Flush)
    requires Ready(s, f)
    ensures Inv(Finish(s, f))
  {
    var t := Finish(s, f);
    assert DelayedWaits(t) == DelayedWaits(s);
    hide InStep, States;
  }

  function NewFrame(s: State, f: Flush): Frame
    requires s.history != []
  {
    StateFrame(Latest(s).content, |s.history|, s.now, f.origin, f.waited)
  }

  lemma NewFrameFits(s: State, f: Flush)
    requires Ready(s, f) && Reaches(s, f)
    ensures InStep(States(s.wire) + [NewFrame(s, f)], s.history, s.now)
    ensures States(s.wire + [NewFrame(s, f)]) == States(s.wire) + [NewFrame(s, f)]
  {
    var st := States(s.wire);
    StatesSnoc(s.wire, NewFrame(s, f));
    hide States;
    if st != [] { assert Genuine(st[|st| - 1], s.history, s.now); }
    InStepSnoc(st, NewFrame(s, f), s.history, s.now);
  }

  lemma SendLinked(s: State, f: Flush)
    requires Ready(s, f) && Reaches(s, f)
    ensures Linked(s.(wire := s.wire + [NewFrame(s, f)], sending := Some(f)))
  {
    StatesSnoc(s.wire, NewFrame(s, f));
    assert DelayedWaits(s.(wire := s.wire + [NewFrame(s, f)], sending := Some(f))) == DelayedWaits(s);
    hide InStep, States, DelayedWaits, Latest;
  }

  lemma SendOneDelayed(s: State, f: Flush)
    requires Ready(s, f) && Reaches(s, f)
    ensures OneDelayed(s.(wire := s.wire + [NewFrame(s, f)], sending := Some(f)))
  {
    assert DelayedWaits(s.(wire := s.wire + [NewFrame(s, f)], sending := Some(f))) == DelayedWaits(s);
    hide InStep, States, DelayedWaits, Linked;
  }

  lemma SendKeeps(s: State, f: Flush)
    requires Ready(s, f) && Reaches(s, f)
    ensures Inv(s.(wire := s.wire + [NewFrame(s, f)], sending := Some(f)))
  {
    NewFrameFits(s, f);
    SendLinked(s, f);
    SendOneDelayed(s, f);
    hide InStep, States, DelayedWaits, Linked, OneDelayed, NewFrame;
  }

  lemma BeginKeeps(s: State, f: Flush)
    requires Ready(s, f)
    ensures Inv(Begin(s, f))
  {
    if Reaches(s, f) && Latest(s).serialisable {
      SendKeeps(s, f);
      hide Inv, Ready, States;
    } else {
      var t := if f.opening && Reaches(s, f) then s.(muted := true) else s;
      MutedReady(s, t, f);
      FinishKeeps(t, f);
      hide Inv, Ready, States, Finish;
    }
  }

  lemma MutedReady(s: State, t: State, f: Flush)
    requires Ready(s, f) && (t == s || t == s.(muted := true))
    ensures Ready(t, f)
  {
    assert DelayedWaits(t) == DelayedWaits(s);
    hide InStep, States;
  }

  lemma EnqueueKeeps(s: State, f: Flush)
    requires Clock(s) && KnownConns(s) && InStep(States(s.wire), s.history, s.now) && Linked(s)
    requires s.session.Offline? ==> !s.open
    requires f.conn <= s.conn && f.waited
    requires if f.origin.Delayed? then s.timer.Flushing? && !DelayedWaits(s) && !DelayedSends(s) else OneDelayed(s)
    requires forall i, j :: 0 <= i < j < |s.waiting| ==> !(s.waiting[i].origin.Delayed? && s.waiting[j].origin.Delayed?)
    requires f.origin.Delayed? && s.open && States(s.wire) != [] ==>
               var last := States(s.wire)[|States(s.wire)| - 1];
               last.origin.Delayed? ==> s.now >= last.at + DEBOUNCE
    ensures Inv(s.(waiting := s.waiting + [f]))
  {
    var t := s.(waiting := s.waiting + [f]);
    assert DelayedWaits(t) <==> DelayedWaits(s) || f.origin.Delayed? by {
      if DelayedWaits(s) {
        var i :| 0 <= i < |s.waiting| && s.waiting[i].origin.Delayed?;
        assert t.waiting[i] == s.waiting[i];
      }
      assert t.waiting[|s.waiting|] == f;
    }
    hide InStep, States;
  }

  /** Calling a flush that is not the timer's. */
  lemma CallFlushKeeps(s: State, origin: Origin, opening: bool)
    requires Inv(s) && !origin.Delayed?
    requires origin.Immediate? ==> s.now - s.lastPush >= DEBOUNCE
    ensures Inv(CallFlush(s, origin, opening))
  {
    hide InStep, States;
    if s.session.Offline? {
    } else if s.sending.None? && s.waiting == [] {
      assert Ready(s, Flush(s.conn, origin, false, opening));
      BeginKeeps(s, Flush(s.conn, origin, false, opening));
    } else {
      EnqueueKeeps(s, Flush(s.conn, origin, true, opening));
    }
  }

  lemma RecordKeeps(s: State, snapshot: Snapshot)
    requires Inv(s)
    ensures Inv(Record(s, snapshot))
  {
    InStepLater(States(s.wire), s.history, s.now, s.history + [snapshot], s.now);
    assert DelayedWaits(Record(s, snapshot)) == DelayedWaits(s);
    hide InStep, States;
  }

  lemma PublishKeeps(s: State, snapshot: Snapshot, force: bool)
    requires Inv(s)
    ensures Inv(PublishState(s, snapshot, force))
  {
    var t := Record(s, snapshot);
    RecordKeeps(s, snapshot);
    if force {
      CallFlushKeeps(t, Forced, false);
    } else if s.now - s.lastPush >= DEBOUNCE {
      CallFlushKeeps(t, Immediate, false);
    } else if s.timer.Idle? {
      ScheduleKeeps(t);
    }
  }

  lemma ScheduleKeeps(t: State)
    requires Inv(t) && t.timer.Idle? && t.now - t.lastPush < DEBOUNCE
    ensures Inv(t.(timer := Sleeping(t.now, t.now + Delay(t.now - t.lastPush))))
  {
    assert DelayedWaits(t.(timer := Sleeping(t.now, t.now + Delay(t.now - t.lastPush)))) == DelayedWaits(t);
    hide InStep, States;
  }

  lemma FireKeeps(s: State)
    requires Inv(s)
    ensures Inv(FireTimer(s))
  {
    hide InStep, States;
    if s.timer.Sleeping? && s.now >= s.timer.due {
      var t := s.(timer := Flushing);
      assert !DelayedWaits(s) && !DelayedSends(s);
      assert !DelayedWaits(t);
      if t.session.Offline? {
        assert !DelayedWaits(t.(timer := Idle));
      } else if t.sending.None? && t.waiting == [] {
        assert Ready(t, Flush(t.conn, Delayed, false, false));
        BeginKeeps(t, Flush(t.conn, Delayed, false, false));
      } else {
        EnqueueKeeps(t, Flush(t.conn, Delayed, true, false));
      }
    }
  }

  lemma GrantKeeps(s: State)
    requires Inv(s)
    ensures Inv(GrantLock(s))
  {
    hide InStep, States;
    if s.sending.None? && s.waiting != [] {
      var (f, t) := (s.waiting[0], s.(waiting := s.waiting[1..]));
      assert DelayedWaits(s) <==> DelayedWaits(t) || f.origin.Delayed? by {
        if DelayedWaits(s) {
          var i :| 0 <= i < |s.waiting| && s.waiting[i].origin.Delayed?;
          assert i > 0 ==> t.waiting[i - 1] == s.waiting[i];
        }
        if DelayedWaits(t) {
          var i :| 0 <= i < |t.waiting| && t.waiting[i].origin.Delayed?;
          assert s.waiting[i + 1] == t.waiting[i];
        }
      }
      assert Ready(t, f);
      BeginKeeps(t, f);
    }
  }

  lemma EndSendKeeps(s: State)
    requires Inv(s)
    ensures Inv(EndSend(s))
  {
    if s.sending.Some? {
      var f := s.sending.value;
      var t := if Reaches(s, f) then s.(sending := None, lastPush := s.now) else s.(sending := None);
      var st := States(s.wire);
      assert st != [] ==> Genuine(st[|st| - 1], s.history, s.now);
      assert DelayedWaits(t) == DelayedWaits(s);
      hide InStep, States;
      EndedKeeps(t, f);
    }
  }

  lemma EndedKeeps(t: State, f: Flush)
    requires Clock(t) && KnownConns(t) && InStep(States(t.wire), t.history, t.now) && Linked(t)
    requires (t.session.Offline? ==> !t.open) && t.sending.None?
    requires t.timer.Flushing? <==> DelayedWaits(t) || f.origin.Delayed?
    requires !(DelayedWaits(t) && f.origin.Delayed?)
    requires forall i, j :: 0 <= i < j < |t.waiting| ==> !(t.waiting[i].origin.Delayed? && t.waiting[j].origin.Delayed?)
    ensures Inv(Finish(t, f))
  {
    var r := Finish(t, f);
    assert DelayedWaits(r) == DelayedWaits(t);
    hide InStep, States, DelayedWaits;
    assert OneDelayed(r) && KnownConns(r) && Clock(r);
    hide OneDelayed, KnownConns, Clock;
  }

  /** Steps that add no state frame and leave the flushes alone. */
  lemma QuietKeeps(s: State, t: State)
    requires Inv(s)
    requires t.history == s.history && t.now >= s.now && t.lastPush == s.lastPush && t.timer == s.timer
    requires t.sending == s.sending && t.waiting == s.waiting && t.conn == s.conn && (t.open ==> s.open)
    requires States(t.wire) == States(s.wire) && (t.session.Offline? ==> !t.open)
    ensures Inv(t)
  {
    InStepLater(States(s.wire), s.history, s.now, t.history, t.now);
    assert DelayedWaits(t) == DelayedWaits(s);
    hide InStep, States;
  }

  lemma OpenKeeps(s: State)
    requires Inv(s)
    ensures Inv(Open(s))
  {
    StatesSnoc([], HelloFrame);
    assert [] + [HelloFrame] == [HelloFrame];
    assert DelayedWaits(Open(s)) == DelayedWaits(s);
  }

  lemma AcceptKeeps(s: State, raw: Raw)
    requires Inv(s)
    ensures Inv(Accept(s, raw))
  {
    hide States, DecodeMessage, Clock, OneDelayed, KnownConns, InStep, Linked;
    QuietKeeps(s, Accept(s, raw));
  }

  lemma AnswerKeeps(s: State, outcome: Outcome, newId: string)
    requires Inv(s)
    ensures Inv(Answer(s, outcome, newId))
  {
    if s.session.Serving? && s.session.busy.Some? {
      StatesSnoc(s.wire, ReplyFrame(EncodeReply(s.session.busy.value, outcome, newId)));
    }
    hide States, EncodeReply, Clock, OneDelayed, KnownConns, InStep, Linked;
    QuietKeeps(s, Answer(s, outcome, newId));
  }

  lemma TickKeeps(s: State, elapsed: real)
    requires Inv(s)
    ensures Inv(Step(s, Tick(elapsed)))
  {
    assert s.history != [];
    hide States, Clock, OneDelayed, KnownConns, InStep, Linked;
    QuietKeeps(s, Step(s, Tick(elapsed)));
  }

  lemma CloseKeeps(s: State, e: Event)
    requires Inv(s) && (e.Drop? || e.EndSession? || e.SendEvent?)
    ensures Inv(Step(s, e))
  {
    StatesSnoc(s.wire, EventFrame);
    assert s.history != [];
    hide States, Clock, OneDelayed, KnownConns, InStep, Linked;
    QuietKeeps(s, Step(s, e));
  }

  lemma StepKeepsInv(s: State, e: Event)
    requires Inv(s)
    ensures Inv(Step(s, e))
  {
    hide Inv, PublishState, FireTimer, GrantLock, EndSend, Open, Announce, Accept, Answer;
    match e
    case Tick(elapsed) => TickKeeps(s, elapsed);
    case Publish(snapshot, force) => PublishKeeps(s, snapshot, force);
    case TimerFires => FireKeeps(s);
    case Grant => GrantKeeps(s);
    case SendDone => EndSendKeeps(s);
    case Connect => OpenKeeps(s);
    case HelloDone(snapshot) => AnnounceKeeps(s, snapshot);
    case Receive(raw) => AcceptKeeps(s, raw);
    case HandlerDone(outcome, newId) => AnswerKeeps(s, outcome, newId);
    case _ => CloseKeeps(s, e);
  }

  lemma AnnounceKeeps(s: State, snapshot: Snapshot)
    requires Inv(s)
    ensures Inv(Announce(s, snapshot))
  {
    if s.session.Opening? {
      RecordKeeps(s, snapshot);
      var t := Record(s, snapshot).(session := Announcing);
      hide InStep, States;
      assert DelayedWaits(t) == DelayedWaits(Record(s, snapshot));
      assert Inv(t);
      CallFlushKeeps(t, Forced, true);
    }
  }

  lemma InitialInv(now: real)
    requires now >= 0.0
    ensures Inv(Initial(now))
  {
  }

  lemma {:induction false} RunKeepsInv(s: State, events: seq<Event>)
    requires Inv(s)
    ensures Inv(Run(s, events))
  {
    if events != [] {
      var front := events[..|events| - 1];
      RunKeepsInv(s, front);
      StepKeepsInv(Run(s, front), events[|events| - 1]);
      hide Inv, Step;
    }
  }

  // ----- frames never go back, and the rate bound -----

  lemma {:induction false} NeverBack(st: seq<Frame>, history: seq<Snapshot>, now: real, i: nat, j: nat)
    requires InStep(st, history, now) && i <= j < |st|
    ensures st[i].stamp <= st[j].stamp && st[i].at <= st[j].at
  {
    if i < j {
      NeverBack(st, history, now, i, j - 1);
      assert Follows(st[j - 1], st[j]);
    }
  }

  /**
   In every interleaving, even while sends wait: a later state frame of a
   connection never shows an older snapshot than an earlier one, and each shows
   a value `_latest_state` really had.
   */
  lemma FramesNeverGoBack(now: real, events: seq<Event>, i: nat, j: nat)
    requires now >= 0.0
    requires var s := Run(Initial(now), events); i <= j < |States(s.wire)|
    ensures var s := Run(Initial(now), events);
            var (a, b) := (States(s.wire)[i], States(s.wire)[j]);
            1 <= a.stamp <= b.stamp <= |s.history| && b.content == s.history[b.stamp - 1].content
  {
    var s := Run(Initial(now), events);
    InitialInv(now);
    RunKeepsInv(Initial(now), events);
    NeverBack(States(s.wire), s.history, s.now, i, j);
    assert Genuine(States(s.wire)[i], s.history, s.now) && Genuine(States(s.wire)[j], s.history, s.now);
  }

  /** How a state frame came about; one called at once may have found the lock taken. */
  datatype Pace = ByForce | AtOnce | AfterWait | ByTimer

  function PaceOf(f: Frame): Pace
    requires f.StateFrame?
  {
    match f.origin
    case Forced => ByForce
    case Immediate => if f.waited then AfterWait else AtOnce
    case Delayed => ByTimer
  }

  /** The paces of the last two of three frames that keep them apart. */
  predicate KeepsWindow(b: Pace, c: Pace) {
    b.AtOnce? || c.AtOnce? || (b.ByTimer? && c.ByTimer?)
  }

  /**
   Three consecutive state frames of a connection span at least the debounce
   window when one of the last two was sent at once without a wait, or both were
   sent by the timer; two frames may be closer.
   */
  lemma RateBound(now: real, events: seq<Event>, i: nat)
    requires now >= 0.0
    requires var st := States(Run(Initial(now), events).wire);
             i + 2 < |st| && KeepsWindow(PaceOf(st[i + 1]), PaceOf(st[i + 2]))
    ensures var st := States(Run(Initial(now), events).wire); st[i + 2].at - st[i].at >= DEBOUNCE
  {
    var s := Run(Initial(now), events);
    var st := States(s.wire);
    InitialInv(now);
    RunKeepsInv(Initial(now), events);
    assert InStep(st, s.history, s.now);
    assert Follows(st[i + 1 - 1], st[i + 1]) && Follows(st[i + 2 - 1], st[i + 2]);
  }

  /** A delayed flush is due 0.05 to 0.4 seconds after it was scheduled, and there is only one. */
  lemma DelayIsBounded(now: real, events: seq<Event>)
    requires now >= 0.0 && Run(Initial(now), events).timer.Sleeping?
    ensures var t := Run(Initial(now), events).timer;
            t.since + SHORTEST_DELAY <= t.due <= t.since + DEBOUNCE
  {
    InitialInv(now);
    RunKeepsInv(Initial(now), events);
  }

  // ----- lost updates -----

  function LastStamp(wire: seq<Frame>): nat {
    var st := States(wire);
    if st == [] then 0 else st[|st| - 1].stamp
  }

  ghost predicate WaitsHere(s: State) {
    exists i :: 0 <= i < |s.waiting| && s.waiting[i].conn == s.conn
  }

  /**
   The current state has been sent on the open connection, or something that
   will send it is under way. A state that cannot be serialised is never sent.
   */
  ghost predicate Covered(s: State) {
    s.open && s.history != [] && Latest(s).serialisable ==>
      s.session.Opening? || s.timer.Sleeping? || WaitsHere(s) || LastStamp(s.wire) == |s.history|
  }

  /**
   The publish that nothing will send: inside the window, while the delayed
   flush task is not done but has already encoded its frame.
   */
  ghost predicate Swallowed(s: State, e: Event) {
    && e.Publish? && !e.force && e.snapshot.serialisable && s.open && !s.session.Opening?
    && s.now - s.lastPush < DEBOUNCE && s.timer.Flushing? && !WaitsHere(s)
  }

  lemma StampBound(s: State)
    requires Inv(s)
    ensures LastStamp(s.wire) <= |s.history|
  {
    var st := States(s.wire);
    if st != [] { assert Genuine(st[|st| - 1], s.history, s.now); }
  }

  lemma BeginCovers(s: State, f: Flush)
    requires s.history != [] && f.conn == s.conn
    ensures Covered(Begin(s, f))
  {
    StatesSnoc(s.wire, NewFrame(s, f));
    hide States;
  }

  lemma BeginElsewhere(s: State, f: Flush)
    requires s.history != [] && f.conn != s.conn && Covered(s)
    requires f.origin.Delayed? ==> !s.timer.Sleeping?
    ensures Covered(Begin(s, f))
  {
    assert WaitsHere(Begin(s, f)) == WaitsHere(s);
    hide States;
  }

  lemma CallFlushCovers(s: State, origin: Origin, opening: bool)
    requires s.history != [] && (s.session.Offline? ==> !s.open)
    ensures Covered(CallFlush(s, origin, opening))
  {
    if s.session.Offline? {
    } else if s.sending.None? && s.waiting == [] {
      BeginCovers(s, Flush(s.conn, origin, false, opening));
    } else {
      var t := CallFlush(s, origin, opening);
      assert t.waiting[|s.waiting|].conn == s.conn;
    }
    hide States;
  }

  lemma PublishCoversIff(s: State, snapshot: Snapshot, force: bool)
    requires Inv(s)
    ensures Covered(PublishState(s, snapshot, force)) <==> !Swallowed(s, Publish(snapshot, force))
  {
    var t := Record(s, snapshot);
    StampBound(s);
    assert WaitsHere(t) == WaitsHere(s) && Latest(t) == snapshot;
    hide Inv, States, LastStamp;
    assert s.session.Offline? ==> !s.open by { InvOffline(s); }
    if force {
      CallFlushCovers(t, Forced, false);
    } else if s.now - s.lastPush >= DEBOUNCE {
      CallFlushCovers(t, Immediate, false);
    }
    hide CallFlush;
  }

  lemma InvOffline(s: State)
    requires Inv(s)
    ensures s.session.Offline? ==> !s.open
  {
  }

  lemma GrantCovers(s: State)
    requires Inv(s) && Covered(s)
    ensures Covered(GrantLock(s))
  {
    if s.sending.None? && s.waiting != [] {
      var (f, t) := (s.waiting[0], s.(waiting := s.waiting[1..]));
      if f.conn == s.conn {
        BeginCovers(t, f);
      } else {
        assert f.origin.Delayed? ==> DelayedWaits(s);
        assert WaitsHere(s) ==> WaitsHere(t) by {
          if WaitsHere(s) {
            var i :| 0 <= i < |s.waiting| && s.waiting[i].conn == s.conn;
            assert t.waiting[i - 1] == s.waiting[i];
          }
        }
        BeginElsewhere(t, f);
      }
    }
    hide Inv, States;
  }

  lemma FireCovers(s: State)
    requires Inv(s) && Covered(s)
    ensures Covered(FireTimer(s))
  {
    if s.timer.Sleeping? && s.now >= s.timer.due {
      CallFlushCovers(s.(timer := Flushing), Delayed, false);
    }
    hide Inv, States, CallFlush;
  }

  lemma QuietCovers(s: State, t: State)
    requires Covered(s)
    requires t.history == s.history && t.conn == s.conn && t.waiting == s.waiting && (t.open ==> s.open)
    requires s.timer.Sleeping? ==> t.timer.Sleeping?
    requires t.open && s.session.Opening? ==> t.session.Opening?
    requires States(t.wire) == States(s.wire)
    ensures Covered(t)
  {
    assert WaitsHere(t) == WaitsHere(s);
    hide States;
  }

  lemma EndSendCovers(s: State)
    requires Inv(s) && Covered(s)
    ensures Covered(EndSend(s))
  {
    assert s.sending.Some? && s.sending.value.origin.Delayed? ==> s.timer.Flushing? by { assert OneDelayed(s); }
    QuietCovers(s, EndSend(s));
    hide Inv, States, Covered;
  }

  lemma AnswerCovers(s: State, outcome: Outcome, newId: string)
    requires Inv(s) && Covered(s)
    ensures Covered(Answer(s, outcome, newId))
  {
    hide Inv, States, Covered, EncodeReply;
    if s.session.Serving? && s.session.busy.Some? {
      StatesSnoc(s.wire, ReplyFrame(EncodeReply(s.session.busy.value, outcome, newId)));
    }
    QuietCovers(s, Answer(s, outcome, newId));
  }

  lemma AnnounceCovers(s: State, snapshot: Snapshot)
    requires Inv(s) && Covered(s)
    ensures Covered(Announce(s, snapshot))
  {
    hide Inv, States, Covered, CallFlush;
    if s.session.Opening? {
      CallFlushCovers(Record(s, snapshot).(session := Announcing), Forced, true);
    }
  }

  lemma OtherCovers(s: State, e: Event)
    requires Inv(s) && Covered(s) && (e.Tick? || e.Connect? || e.Receive? || e.SendEvent? || e.Drop? || e.EndSession?)
    ensures Covered(Step(s, e))
  {
    StatesSnoc(s.wire, EventFrame);
    assert s.history != [];
    hide Inv, States, DecodeMessage;
    if !e.Connect? { QuietCovers(s, Step(s, e)); }
  }

  /** One step keeps the current state covered, the swallowed publish being the only exception. */
  lemma StepCoversIff(s: State, e: Event)
    requires Inv(s) && Covered(s)
    ensures Covered(Step(s, e)) <==> !Swallowed(s, e)
  {
    hide Inv, Covered, PublishState, FireTimer, GrantLock, EndSend, Open, Announce, Accept, Answer;
    match e
    case Publish(snapshot, force) => PublishCoversIff(s, snapshot, force);
    case TimerFires => FireCovers(s);
    case Grant => GrantCovers(s);
    case SendDone => EndSendCovers(s);
    case HelloDone(snapshot) => AnnounceCovers(s, snapshot);
    case HandlerDone(outcome, newId) => AnswerCovers(s, outcome, newId);
    case _ => OtherCovers(s, e);
  }

  /** Covered in the state reached and in every state on the way. */
  ghost predicate CoveredThroughout(s: State, events: seq<Event>)
    requires s.history != []
  {
    Covered(Run(s, events)) && (events == [] || CoveredThroughout(s, events[..|events| - 1]))
  }

  ghost predicate NeverSwallows(s: State, events: seq<Event>)
    requires s.history != []
  {
    events == [] ||
    var front := events[..|events| - 1];
    !Swallowed(Run(s, front), events[|events| - 1]) && NeverSwallows(s, front)
  }

  /**
   No update is lost exactly when no publish is swallowed: then, at every moment
   of an open connection past its hello, the last state frame shows the current
   state or a flush that will send it waits or is scheduled.
   */
  lemma {:induction false} NoLostUpdateIff(s: State, events: seq<Event>)
    requires Inv(s) && Covered(s)
    ensures CoveredThroughout(s, events) <==> NeverSwallows(s, events)
  {
    if events != [] {
      var front := events[..|events| - 1];
      NoLostUpdateIff(s, front);
      RunKeepsInv(s, front);
      hide Inv, Covered, Swallowed, Step;
      if CoveredThroughout(s, front) {
        assert Covered(Run(s, front));
        StepCoversIff(Run(s, front), events[|events| - 1]);
      }
    }
  }

  /** Every publish comes while no send is under way, as when sends do not yield. */
  ghost predicate PublishesBetweenSends(s: State, events: seq<Event>)
    requires s.history != []
  {
    events == [] ||
    var (front, last) := (events[..|events| - 1], events[|events| - 1]);
    && (last.Publish? ==> Run(s, front).sending.None? && Run(s, front).waiting == [])
    && PublishesBetweenSends(s, front)
  }

  lemma {:induction false} NothingSwallowed(s: State, events: seq<Event>)
    requires Inv(s) && PublishesBetweenSends(s, events)
    ensures NeverSwallows(s, events)
  {
    if events != [] {
      var front := events[..|events| - 1];
      NothingSwallowed(s, front);
      RunKeepsInv(s, front);
      assert OneDelayed(Run(s, front));
      hide Run;
    }
  }

  /** With sends that do not yield, no update is ever lost. */
  lemma NoLostUpdateWithAtomicSends(now: real, events: seq<Event>)
    requires now >= 0.0 && PublishesBetweenSends(Initial(now), events)
    ensures Covered(Run(Initial(now), events))
  {
    InitialInv(now);
    NothingSwallowed(Initial(now), events);
    NoLostUpdateIff(Initial(now), events);
    hide Inv, Run, Covered;
  }

  /** With nothing scheduled or waiting, covered means the peer has the current state. */
  lemma CoveredAtRestIsInSync(s: State)
    requires Inv(s) && Covered(s) && s.open && Latest(s).serialisable
    requires !s.session.Opening? && !s.timer.Sleeping? && s.waiting == []
    ensures States(s.wire) != [] && States(s.wire)[|States(s.wire)| - 1].content == Latest(s).content
  {
    var st := States(s.wire);
    assert st != [];
    assert Genuine(st[|st| - 1], s.history, s.now);
  }

  lemma RunSnoc(s: State, events: seq<Event>, e: Event)
    requires s.history != []
    ensures Run(s, events + [e]) == Step(Run(s, events), e)
  {
    assert (events + [e])[..|events|] == events;
  }

  // ----- what the session says -----

  /** The ids of the replies sent, as the peer decodes them. */
  function ReplyIds(wire: seq<Frame>): seq<Json> {
    if wire == [] then []
    else
      var last := wire[|wire| - 1];
      ReplyIds(wire[..|wire| - 1]) +
      (if last.ReplyFrame? && DecodeMessage(Object(last.envelope)).Some?
       then [DecodeMessage(Object(last.envelope)).value.id] else [])
  }

  /** Every reply comes after some state frame. */
  ghost predicate RepliesAfterState(wire: seq<Frame>) {
    wire == [] ||
    var front := wire[..|wire| - 1];
    RepliesAfterState(front) && (wire[|wire| - 1].ReplyFrame? ==> States(front) != [])
  }

  /** `hello` opens the connection and is not repeated. */
  ghost predicate HelloFirst(wire: seq<Frame>) {
    wire != [] ==> wire[0] == HelloFrame && forall i :: 0 < i < |wire| ==> wire[i] != HelloFrame
  }

  ghost predicate Talk(s: State) {
    && HelloFirst(s.wire) && (!s.session.Offline? ==> s.wire != [])
    && (s.session.Offline? ==> !s.open)
    && (match s.session
        case Offline => ReplyIds(s.wire) <= s.inbox && |s.inbox| <= |ReplyIds(s.wire)| + 1
        case Serving(Some(id)) => ReplyIds(s.wire) + [id] == s.inbox && Truthy(id)
        case _ => ReplyIds(s.wire) == s.inbox)
    && (s.muted || RepliesAfterState(s.wire))
    && (s.session.Serving? && s.open ==> s.muted || States(s.wire) != [])
  }

  lemma WireSnoc(wire: seq<Frame>, f: Frame)
    requires !f.ReplyFrame? && !f.HelloFrame? && wire != []
    ensures ReplyIds(wire + [f]) == ReplyIds(wire)
    ensures RepliesAfterState(wire) ==> RepliesAfterState(wire + [f])
    ensures HelloFirst(wire) ==> HelloFirst(wire + [f])
    ensures States(wire) != [] || f.StateFrame? ==> States(wire + [f]) != []
  {
    assert (wire + [f])[..|wire|] == wire;
    StatesSnoc(wire, f);
  }

  lemma FinishTalks(s: State, f: Flush)
    requires Talk(s)
    requires f.opening && f.conn == s.conn && s.open ==> s.muted || States(s.wire) != []
    ensures Talk(Finish(s, f))
  {
    hide States, ReplyIds, RepliesAfterState, HelloFirst, Truthy;
  }

  lemma BeginTalks(s: State, f: Flush)
    requires s.history != [] && Talk(s)
    ensures Talk(Begin(s, f))
  {
    if Reaches(s, f) && Latest(s).serialisable {
      WireSnoc(s.wire, NewFrame(s, f));
      hide States, ReplyIds, RepliesAfterState, HelloFirst, Truthy;
    } else {
      var t := if f.opening && Reaches(s, f) then s.(muted := true) else s;
      hide States, ReplyIds, RepliesAfterState, HelloFirst, Truthy;
      FinishTalks(t, f);
      hide Finish, Talk;
    }
  }

  lemma CallFlushTalks(s: State, origin: Origin, opening: bool)
    requires s.history != [] && Talk(s)
    ensures Talk(CallFlush(s, origin, opening))
  {
    if !s.session.Offline? && s.sending.None? && s.waiting == [] {
      BeginTalks(s, Flush(s.conn, origin, false, opening));
    }
    hide Begin, States, ReplyIds, RepliesAfterState, HelloFirst, Truthy;
  }

  lemma PublishTalks(s: State, snapshot: Snapshot, force: bool)
    requires s.history != [] && Talk(s)
    ensures Talk(PublishState(s, snapshot, force))
  {
    hide CallFlush, States, ReplyIds, RepliesAfterState, HelloFirst, Truthy;
    var t := Record(s, snapshot);
    CallFlushTalks(t, Forced, false);
    CallFlushTalks(t, Immediate, false);
  }

  lemma FireTalks(s: State)
    requires s.history != [] && Talk(s)
    ensures Talk(FireTimer(s))
  {
    hide CallFlush, States, ReplyIds, RepliesAfterState, HelloFirst, Truthy;
    CallFlushTalks(s.(timer := Flushing), Delayed, false);
  }

  lemma GrantTalks(s: State)
    requires s.history != [] && Talk(s)
    ensures Talk(GrantLock(s))
  {
    hide Begin, States, ReplyIds, RepliesAfterState, HelloFirst, Truthy;
    if s.sending.None? && s.waiting != [] { BeginTalks(s.(waiting := s.waiting[1..]), s.waiting[0]); }
  }

  lemma EndSendTalks(s: State)
    requires Inv(s) && Talk(s)
    ensures Talk(EndSend(s))
  {
    assert Linked(s);
    if s.sending.Some? {
      var f := s.sending.value;
      assert f.conn == s.conn && s.open ==> States(s.wire) != [];
      hide Inv, Finish, States, ReplyIds, RepliesAfterState, HelloFirst, Truthy;
      FinishTalks(if Reaches(s, f) then s.(sending := None, lastPush := s.now) else s.(sending := None), f);
    }
  }

  lemma AnnounceTalks(s: State, snapshot: Snapshot)
    requires s.history != [] && Talk(s)
    ensures Talk(Announce(s, snapshot))
  {
    hide CallFlush, States, ReplyIds, RepliesAfterState, HelloFirst, Truthy;
    if s.session.Opening? { CallFlushTalks(Record(s, snapshot).(session := Announcing), Forced, true); }
  }

  lemma AcceptTalks(s: State, raw: Raw)
    requires Talk(s)
    ensures Talk(Accept(s, raw))
  {
    DecodedIdIsTruthy(raw);
    hide States, ReplyIds, RepliesAfterState, HelloFirst, Truthy, DecodeMessage;
  }

  lemma AnswerTalks(s: State, outcome: Outcome, newId: string)
    requires Talk(s)
    ensures Talk(Answer(s, outcome, newId))
  {
    if s.session.Serving? && s.session.busy.Some? && s.open {
      var f := ReplyFrame(EncodeReply(s.session.busy.value, outcome, newId));
      ReplyKeepsId(s.session.busy.value, outcome, newId);
      assert (s.wire + [f])[..|s.wire|] == s.wire;
      StatesSnoc(s.wire, f);
    }
    hide States, EncodeReply, DecodeMessage, Truthy;
  }

  lemma OpenTalks(s: State)
    requires Talk(s)
    ensures Talk(Open(s))
  {
    assert [HelloFrame][..0] == [];
  }

  lemma SendEventTalks(s: State)
    requires s.history != [] && Talk(s)
    ensures Talk(Step(s, SendEvent))
  {
    if s.wire != [] { WireSnoc(s.wire, EventFrame); }
    hide States, ReplyIds, RepliesAfterState, HelloFirst, Truthy;
  }

  lemma CloseTalks(s: State, e: Event)
    requires s.history != [] && Talk(s) && (e.Drop? || e.EndSession? || e.Tick?)
    ensures Talk(Step(s, e))
  {
    hide States, ReplyIds, RepliesAfterState, HelloFirst, Truthy;
  }

  lemma StepTalks(s: State, e: Event)
    requires Inv(s) && Talk(s)
    ensures Talk(Step(s, e))
  {
    assert s.history != [];
    hide Inv, Talk, PublishState, FireTimer, GrantLock, EndSend, Open, Announce, Accept, Answer;
    match e
    case Publish(snapshot, force) => PublishTalks(s, snapshot, force);
    case TimerFires => FireTalks(s);
    case Grant => GrantTalks(s);
    case SendDone => EndSendTalks(s);
    case Connect => OpenTalks(s);
    case HelloDone(snapshot) => AnnounceTalks(s, snapshot);
    case Receive(raw) => AcceptTalks(s, raw);
    case HandlerDone(outcome, newId) => AnswerTalks(s, outcome, newId);
    case SendEvent => SendEventTalks(s);
    case _ => CloseTalks(s, e);
  }

  lemma {:induction false} RunTalks(s: State, events: seq<Event>)
    requires Inv(s) && Talk(s)
    ensures Inv(Run(s, events)) && Talk(Run(s, events))
  {
    if events != [] {
      var front := events[..|events| - 1];
      RunTalks(s, front);
      StepKeepsInv(Run(s, front), events[|events| - 1]);
      StepTalks(Run(s, front), events[|events| - 1]);
      hide Inv, Talk, Step;
    }
  }

  /** The opening flush skips its frame only at a moment when the latest state cannot be serialised. */
  lemma StepMutes(s: State, e: Event)
    requires s.history != [] && Step(s, e).muted
    ensures Step(s, e).history != [] && Step(s, e).conn == s.conn && (s.muted || !Latest(Step(s, e)).serialisable)
  {
    hide DecodeMessage, EncodeReply, Delay;
    HistoryGrows(s, e);
  }

  /** At some moment of the connection that is current at the end, the latest state could not be serialised. */
  ghost predicate SomeUnserialisable(now: real, events: seq<Event>) {
    exists k :: 0 <= k <= |events| &&
      var s := Run(Initial(now), events[..k]);
      s.conn == Run(Initial(now), events).conn && !Latest(s).serialisable
  }

  lemma {:induction false} MutedMeans(now: real, events: seq<Event>)
    requires Run(Initial(now), events).muted
    ensures SomeUnserialisable(now, events)
  {
    if events != [] {
      hide Step;
      var n := |events| - 1;
      var front := events[..n];
      var s := Run(Initial(now), front);
      StepMutes(s, events[n]);
      if s.muted {
        MutedMeans(now, front);
        var k :| 0 <= k <= n && (var r := Run(Initial(now), front[..k]); r.conn == s.conn && !Latest(r).serialisable);
        assert front[..k] == events[..k];
      } else {
        assert events[..n + 1] == events;
      }
    }
  }

  /**
   On every connection: hello comes first and once; the reply ids, as decoded,
   are a prefix of the request ids in order, one reply per request and at most
   one outstanding; and a state frame precedes every reply, unless the latest
   state could not be serialised at some moment of that connection.
   */
  lemma SessionProtocol(now: real, events: seq<Event>)
    requires now >= 0.0
    ensures var s := Run(Initial(now), events);
            && (s.wire != [] ==> s.wire[0] == HelloFrame && forall i :: 0 < i < |s.wire| ==> s.wire[i] != HelloFrame)
            && ReplyIds(s.wire) <= s.inbox && |s.inbox| <= |ReplyIds(s.wire)| + 1
            && (s.session == Serving(None) ==> ReplyIds(s.wire) == s.inbox)
            && (RepliesAfterState(s.wire) || SomeUnserialisable(now, events))
  {
    hide Inv, Run, States, RepliesAfterState, SomeUnserialisable;
    InitialInv(now);
    InitialTalks(now);
    RunTalks(Initial(now), events);
    if Run(Initial(now), events).muted { MutedMeans(now, events); }
  }

  lemma InitialTalks(now: real)
    ensures Talk(Initial(now))
  {
  }

  /** Every state handed to the agent is one of `allowed`. */
  ghost predicate PublishesOnly(events: seq<Event>, allowed: iset<Snapshot>) {
    forall i :: 0 <= i < |events| && (events[i].Publish? || events[i].HelloDone?) ==> events[i].snapshot in allowed
  }

  lemma StepRecords(s: State, e: Event)
    requires s.history != []
    ensures var t := Step(s, e);
            t.history == s.history || ((e.Publish? || e.HelloDone?) && t.history == s.history + [e.snapshot])
  {
    hide Begin, CallFlush, FireTimer, GrantLock, EndSend, Accept, Answer;
  }

  /** The agent starts with the empty state; every later one was handed to it. */
  lemma {:induction false} HistoryIsPublished(now: real, events: seq<Event>, allowed: iset<Snapshot>)
    requires PublishesOnly(events, allowed)
    ensures var h := Run(Initial(now), events).history;
            h[0] == Initial(now).history[0] && forall k :: 0 < k < |h| ==> h[k] in allowed
  {
    if events != [] {
      hide Step;
      var n := |events| - 1;
      HistoryIsPublished(now, events[..n], allowed);
      StepRecords(Run(Initial(now), events[..n]), events[n]);
    }
  }

  lemma AlwaysSerialisable(now: real, events: seq<Event>, allowed: iset<Snapshot>)
    requires PublishesOnly(events, allowed) && forall x :: x in allowed ==> x.serialisable
    ensures !SomeUnserialisable(now, events)
  {
    hide Run;
    forall k | 0 <= k <= |events| ensures Latest(Run(Initial(now), events[..k])).serialisable {
      HistoryIsPublished(now, events[..k], allowed);
    }
  }

  /**
   An application whose states are all serialisable gets its state before every
   reply in every run; one with any other state does not.
   */
  lemma StateBeforeReplyIff(allowed: iset<Snapshot>)
    ensures (forall now: real, events: seq<Event> ::
               now >= 0.0 && PublishesOnly(events, allowed) ==> RepliesAfterState(Run(Initial(now), events).wire))
            <==> forall x :: x in allowed ==> x.serialisable
  {
    hide Run, States, RepliesAfterState, SomeUnserialisable;
    if forall x :: x in allowed ==> x.serialisable {
      forall now: real, events: seq<Event> | now >= 0.0 && PublishesOnly(events, allowed)
        ensures RepliesAfterState(Run(Initial(now), events).wire)
      {
        SessionProtocol(now, events);
        AlwaysSerialisable(now, events, allowed);
      }
    } else {
      var x :| x in allowed && !x.serialisable;
      var request := Object(EncodeMessage(Rpc, map[], JStr("1"), ""));
      MessageRoundTrip(Rpc, map[], JStr("1"), "");
      var events := ReplyWithoutState(x, request, Returned(JNull), "");
      assert PublishesOnly(events, allowed);
    }
  }

  // ----- what the replies say -----

  /** The replies sent, as the peer decodes them. */
  function Replies(wire: seq<Frame>): seq<Message> {
    if wire == [] then []
    else
      var last := wire[|wire| - 1];
      Replies(wire[..|wire| - 1]) +
      (if last.ReplyFrame? && DecodeMessage(Object(last.envelope)).Some?
       then [DecodeMessage(Object(last.envelope)).value] else [])
  }

  lemma RepliesSnoc(wire: seq<Frame>, f: Frame)
    ensures Replies(wire + [f]) ==
            Replies(wire) + if f.ReplyFrame? && DecodeMessage(Object(f.envelope)).Some?
                            then [DecodeMessage(Object(f.envelope)).value] else []
  {
    assert (wire + [f])[..|wire|] == wire;
  }

  /** The step ends the handling of a request on an open connection. */
  predicate Answers(s: State, e: Event) {
    e.HandlerDone? && s.open && s.session.Serving? && s.session.busy.Some?
  }

  /** The requests of the current connection that were handled, with their outcomes. */
  function Handled(now: real, events: seq<Event>): seq<(Json, Outcome)> {
    if events == [] then []
    else
      var (front, e) := (events[..|events| - 1], events[|events| - 1]);
      var s := Run(Initial(now), front);
      if e.Connect? && s.session.Offline? then []
      else if Answers(s, e) then Handled(now, front) + [(s.session.busy.value, e.outcome)]
      else Handled(now, front)
  }

  /** The ids of the requests of the current connection that the receive loop took. */
  function Requests(now: real, events: seq<Event>): seq<Json> {
    if events == [] then []
    else
      var (front, e) := (events[..|events| - 1], events[|events| - 1]);
      var s := Run(Initial(now), front);
      if e.Connect? && s.session.Offline? then []
      else if e.Receive? && s.session == Serving(None)
              && DecodeMessage(e.raw).Some? && DecodeMessage(e.raw).value.kind.Rpc?
      then Requests(now, front) + [DecodeMessage(e.raw).value.id]
      else Requests(now, front)
  }

  /** The wire after a step: new on a new connection, a reply when one is due, else at most one other frame more. */
  lemma StepWire(s: State, e: Event)
    requires s.history != []
    ensures var t := Step(s, e);
            if e.Connect? && s.session.Offline? then t.wire == [HelloFrame] && t.inbox == []
            else if Answers(s, e) then
              t.wire == s.wire + [ReplyFrame(EncodeReply(s.session.busy.value, e.outcome, e.newId))]
            else t.wire == s.wire || exists f: Frame :: !f.ReplyFrame? && t.wire == s.wire + [f]
  {
    hide DecodeMessage, EncodeReply, Delay;
  }

  lemma StepInbox(s: State, e: Event)
    requires s.history != [] && !(e.Connect? && s.session.Offline?)
    ensures Step(s, e).inbox ==
            s.inbox + if e.Receive? && s.session == Serving(None)
                         && DecodeMessage(e.raw).Some? && DecodeMessage(e.raw).value.kind.Rpc?
                      then [DecodeMessage(e.raw).value.id] else []
  {
    hide DecodeMessage, EncodeReply, Delay;
  }

  lemma {:induction false} InboxIsRequests(now: real, events: seq<Event>)
    ensures Run(Initial(now), events).inbox == Requests(now, events)
  {
    if events != [] {
      hide Step, DecodeMessage;
      var (front, e) := (events[..|events| - 1], events[|events| - 1]);
      var s := Run(Initial(now), front);
      InboxIsRequests(now, front);
      if e.Connect? && s.session.Offline? { StepWire(s, e); } else { StepInbox(s, e); }
    }
  }

  /** The replies so far are about the requests handled so far, one for one. */
  ghost predicate Tells(rs: seq<Message>, hs: seq<(Json, Outcome)>) {
    && |rs| == |hs|
    && (forall k :: 0 <= k < |rs| ==> rs[k].id == hs[k].0 && rs[k].kind.Reply? && Says(rs[k].payload, hs[k].1))
  }

  lemma StepTells(s: State, e: Event, hs: seq<(Json, Outcome)>)
    requires s.history != [] && Talk(s) && Tells(Replies(s.wire), hs) && !(e.Connect? && s.session.Offline?)
    ensures Tells(Replies(Step(s, e).wire), if Answers(s, e) then hs + [(s.session.busy.value, e.outcome)] else hs)
  {
    hide Step, DecodeMessage, EncodeReply, Says, Replies, Truthy;
    StepWire(s, e);
    if Answers(s, e) {
      var reply := EncodeReply(s.session.busy.value, e.outcome, e.newId);
      ReplySaysOutcome(s.session.busy.value, e.outcome, e.newId);
      RepliesSnoc(s.wire, ReplyFrame(reply));
    } else if Step(s, e).wire != s.wire {
      var f: Frame :| !f.ReplyFrame? && Step(s, e).wire == s.wire + [f];
      RepliesSnoc(s.wire, f);
    }
  }

  /**
   On every connection the k-th reply, as decoded, has the id of the k-th request
   taken and says what became of the k-th request handled.
   */
  lemma {:induction false} RepliesTellOutcomes(now: real, events: seq<Event>)
    requires now >= 0.0
    ensures var rs := Replies(Run(Initial(now), events).wire);
            && Tells(rs, Handled(now, events)) && |rs| <= |Requests(now, events)|
            && forall k :: 0 <= k < |rs| ==> rs[k].id == Requests(now, events)[k]
  {
    hide Step, Talk, Says, Requests;
    var s := Run(Initial(now), events);
    SessionProtocol(now, events);
    InboxIsRequests(now, events);
    SameIds(s.wire);
    if events == [] {
      NothingSaid();
    } else {
      var (front, e) := (events[..|events| - 1], events[|events| - 1]);
      var r := Run(Initial(now), front);
      InitialInv(now);
      InitialTalks(now);
      RunTalks(Initial(now), front);
      RepliesTellOutcomes(now, front);
      if e.Connect? && r.session.Offline? {
        StepWire(r, e);
        RepliesSnoc([], HelloFrame);
        assert [] + [HelloFrame] == [HelloFrame];
      } else {
        StepTells(r, e, Handled(now, front));
      }
    }
  }

  lemma NothingSaid()
    ensures Replies([]) == []
  {
  }

  lemma {:induction false} SameIds(wire: seq<Frame>)
    ensures |ReplyIds(wire)| == |Replies(wire)|
    ensures forall k :: 0 <= k < |Replies(wire)| ==> Replies(wire)[k].id == ReplyIds(wire)[k]
  {
    hide DecodeMessage;
    if wire != [] { SameIds(wire[..|wire| - 1]); }
  }

  /** While the receive loop is free and the connection open, a request is taken and its outcome answered. */
  lemma RequestIsAnswered(s: State, raw: Raw, outcome: Outcome, newId: string)
    requires s.history != [] && s.open && s.session == Serving(None)
    requires DecodeMessage(raw).Some? && DecodeMessage(raw).value.kind.Rpc?
    ensures var id := DecodeMessage(raw).value.id;
            var t := Step(Step(s, Receive(raw)), HandlerDone(outcome, newId));
            t.session == Serving(None) && t.inbox == s.inbox + [id] && |t.wire| == |s.wire| + 1 && s.wire <= t.wire &&
            var f := t.wire[|s.wire|];
            f.ReplyFrame? && var m := DecodeMessage(Object(f.envelope));
            m.Some? && m.value.id == id && m.value.kind.Reply? && Says(m.value.payload, outcome)
  {
    hide DecodeMessage, EncodeReply, Says;
    DecodedIdIsTruthy(raw);
    ReplySaysOutcome(DecodeMessage(raw).value.id, outcome, newId);
  }

  // ----- what a publish achieves -----

  /** Nothing is being sent or waits to be. */
  predicate LockFree(s: State) {
    s.sending.None? && s.waiting == []
  }

  /** A forced publish, or one 0.4 s after the last push, is on the wire at once when the lock is free. */
  lemma PublishSendsAtOnce(s: State, x: Snapshot, force: bool)
    requires s.history != [] && s.open && !s.session.Offline? && LockFree(s) && x.serialisable
    requires force || s.now - s.lastPush >= 0.4
    ensures var t := Step(s, Publish(x, force));
            && |t.wire| == |s.wire| + 1 && s.wire <= t.wire && t.sending.Some? && t.timer == s.timer
            && var f := t.wire[|s.wire|];
            f.StateFrame? && f.content == x.content && f.stamp == |s.history| + 1 && f.at == s.now
  {
  }

  /** Any other publish is left to the delayed flush; the first one schedules it for the end of the window. */
  lemma PublishSchedules(s: State, x: Snapshot)
    requires s.history != [] && s.now - s.lastPush < 0.4
    ensures var t := Step(s, Publish(x, false));
            && t.wire == s.wire && t.history == s.history + [x]
            && (!s.timer.Idle? ==> t.timer == s.timer)
            && (s.timer.Idle? ==> t.timer.Sleeping? && t.timer.since == s.now &&
                                  t.timer.due >= s.now + 0.05 && t.timer.due >= s.lastPush + 0.4 &&
                                  (t.timer.due == s.now + 0.05 || t.timer.due == s.lastPush + 0.4))
  {
  }

  /** The opening state is on the wire right behind the hello when nothing is in the way. */
  lemma OpeningSendsState(s: State, x: Snapshot)
    requires s.history != [] && s.session.Offline? && LockFree(s) && x.serialisable
    ensures var t := Step(Step(s, Connect), HelloDone(x));
            && |t.wire| == 2 && t.wire[0] == HelloFrame && t.wire[1].StateFrame? && t.wire[1].content == x.content
            && t.open && t.conn == s.conn + 1 && t.history == s.history + [x]
            && Step(t, SendDone).session == Serving(None)
  {
  }

  /** An event goes out at once on an open connection, past the lock, and nowhere else. */
  lemma EventIsSent(s: State)
    requires s.history != []
    ensures Step(s, SendEvent) == if s.open then s.(wire := s.wire + [EventFrame]) else s
  {
  }

  /** A send that went through moves the last push, any other leaves it; either way the lock is free again. */
  lemma SendDoneEffects(s: State)
    requires s.history != [] && s.sending.Some?
    ensures var (t, f) := (Step(s, SendDone), s.sending.value);
            && t.sending.None? && t.waiting == s.waiting && t.wire == s.wire && t.history == s.history
            && t.lastPush == (if s.open && f.conn == s.conn then s.now else s.lastPush)
            && t.timer == (if f.origin.Delayed? then Idle else s.timer)
            && (s.session.Serving? ==> t.session == s.session)
  {
  }

  /** A flush whose connection is gone sends nothing, and one that waited goes to its own connection only. */
  lemma LateFlushIsDropped(s: State)
    requires s.history != [] && s.sending.None? && s.waiting != [] && !(s.open && s.waiting[0].conn == s.conn)
    ensures var t := Step(s, Grant);
            && t.wire == s.wire && t.waiting == s.waiting[1..] && t.sending.None? && t.lastPush == s.lastPush
            && t.timer == (if s.waiting[0].origin.Delayed? then Idle else s.timer)
  {
  }

  /** A drop closes the connection under the session; the end of a session takes the agent offline. */
  lemma ConnectionEnds(s: State)
    requires s.history != []
    ensures Step(s, Drop) == s.(open := false)
    ensures var t := Step(s, EndSession);
            t.session.Offline? && t == if s.session.Offline? then s else s.(session := Offline, open := false)
    ensures s.session.Offline? ==>
              forall x, force :: var t := Step(s, Publish(x, force)); t.wire == s.wire && t.sending == s.sending
  {
  }

  /** Only time, the timer and the lock move on; nobody publishes. */
  predicate IsProgress(e: Event) {
    e.Tick? || e.TimerFires? || e.Grant? || e.SendDone?
  }

  lemma {:induction false} RunCons(s: State, e: Event, events: seq<Event>)
    requires s.history != [] && Step(s, e).history != []
    ensures Run(s, [e] + events) == Run(Step(s, e), events)
  {
    hide Step;
    if events == [] {
      assert [e] + events == [e] && [e][..0] == [];
      RunNothing(s);
      RunNothing(Step(s, e));
    } else {
      var n := |events| - 1;
      RunCons(s, e, events[..n]);
      assert ([e] + events)[..|events|] == [e] + events[..n];
    }
  }

  /** Past the hello of an open connection, with a current state that can be sent. */
  ghost predicate Live(s: State) {
    Inv(s) && Covered(s) && s.open && !s.session.Opening? && s.history != [] && Latest(s).serialisable
  }

  function Work(s: State): nat {
    2 * |s.waiting| + if s.sending.Some? then 1 else 0
  }

  lemma ProgressKeepsLive(s: State, e: Event)
    requires Live(s) && IsProgress(e)
    ensures Live(Step(s, e)) && Step(s, e).history == s.history && Step(s, e).conn == s.conn
  {
    StepKeepsInv(s, e);
    StepCoversIff(s, e);
    ProgressKeepsOpen(s, e);
    hide Inv, Covered, Step;
  }

  lemma ProgressKeepsOpen(s: State, e: Event)
    requires s.history != [] && IsProgress(e)
    ensures var t := Step(s, e);
            && t.open == s.open && t.history == s.history && t.conn == s.conn
            && (t.session.Opening? ==> s.session.Opening?)
  {
  }

  /** While the lock is taken or waited for, one step takes work away. */
  lemma WorkShrinks(s: State)
    requires Live(s) && !LockFree(s)
    ensures Work(Step(s, if s.sending.Some? then SendDone else Grant)) < Work(s)
  {
    hide Inv, Covered;
  }

  /** With the lock free, a covered state is in sync unless the delayed flush is yet to come. */
  lemma FreeIsInSync(s: State)
    requires Live(s) && LockFree(s) && !s.timer.Sleeping?
    ensures LastStamp(s.wire) == |s.history|
  {
    hide Inv, LastStamp;
  }

  lemma DueFlushStarts(s: State)
    requires s.history != [] && Latest(s).serialisable && s.open && !s.session.Offline?
    requires LockFree(s) && s.timer.Sleeping? && s.now >= s.timer.due
    ensures Step(s, TimerFires).wire == s.wire + [NewFrame(s, Flush(s.conn, Delayed, false, false))]
  {
  }

  lemma LastStampSnoc(wire: seq<Frame>, f: Frame)
    requires f.StateFrame?
    ensures LastStamp(wire + [f]) == f.stamp
  {
    StatesSnoc(wire, f);
    hide States;
  }

  lemma DueFlushSends(s: State)
    requires Live(s) && LockFree(s) && s.timer.Sleeping? && s.now >= s.timer.due
    ensures LastStamp(Step(s, TimerFires).wire) == |s.history|
  {
    hide Step, LastStamp, Covered;
    assert !s.session.Offline?;
    DueFlushStarts(s);
    LastStampSnoc(s.wire, NewFrame(s, Flush(s.conn, Delayed, false, false)));
  }

  /**
   Updates arrive: from any moment of an open connection at which the latest state
   is covered, letting time, timer and lock run on without further publishes
   leads to the peer having it.
   */
  lemma Settles(s: State) returns (events: seq<Event>)
    requires Live(s)
    ensures forall i :: 0 <= i < |events| ==> IsProgress(events[i])
    ensures var t := Run(s, events); t.history == s.history && t.conn == s.conn && LastStamp(t.wire) == |s.history|
    decreases Work(s), s.timer.Sleeping?, s.timer.Sleeping? && s.now < s.timer.due
  {
    hide Live, Step, Work, LastStamp;
    assert s.history != [] by { LiveHasHistory(s); }
    if LockFree(s) && !s.timer.Sleeping? {
      FreeIsInSync(s);
      RunNothing(s);
      events := [];
    } else if LockFree(s) && s.now >= s.timer.due {
      ProgressKeepsLive(s, TimerFires);
      DueFlushSends(s);
      LiveHasHistory(Step(s, TimerFires));
      RunCons(s, TimerFires, []);
      RunNothing(Step(s, TimerFires));
      assert [TimerFires] + [] == [TimerFires];
      events := [TimerFires];
    } else {
      var e := if LockFree(s) then Tick(s.timer.due - s.now) else if s.sending.Some? then SendDone else Grant;
      ProgressKeepsLive(s, e);
      LiveHasHistory(Step(s, e));
      if LockFree(s) { TickWaits(s); } else { WorkShrinks(s); }
      var rest := Settles(Step(s, e));
      RunCons(s, e, rest);
      events := [e] + rest;
    }
  }

  lemma LiveHasHistory(s: State)
    requires Live(s)
    ensures s.history != []
  {
  }

  lemma TickWaits(s: State)
    requires s.history != [] && s.timer.Sleeping? && s.now < s.timer.due
    ensures var t := Step(s, Tick(s.timer.due - s.now));
            t.timer == s.timer && t.now >= t.timer.due && Work(t) == Work(s)
  {
  }

  // ----- the conditions above are needed -----

  /** An update can be lost: everything is at rest and the peer shows an older state. */
  lemma LostUpdateReachable(a: Json) returns (events: seq<Event>)
    ensures var s := Run(Initial(1.0), events);
            && s.open && Latest(s).serialisable && s.timer.Idle? && s.sending.None? && s.waiting == []
            && s.session == Serving(None) && LastStamp(s.wire) < |s.history|
  {
    var x := Snapshot(a, true);
    var before := SwallowedSoon(x);
    var s := Run(Initial(1.0), before);
    RunSnoc(Initial(1.0), before, Publish(x, false));
    RunSnoc(Initial(1.0), before + [Publish(x, false)], SendDone);
    events := before + [Publish(x, false)] + [SendDone];
    hide Run, States;
    var t := PublishState(s, x, false);
    assert t == Record(s, x);
    assert EndSend(t) == t.(sending := None, lastPush := t.now, timer := Idle);
  }

  lemma Then(events: seq<Event>, e: Event, s: State, t: State) returns (more: seq<Event>)
    requires Run(Initial(1.0), events) == s && s.history != [] && Step(s, e) == t
    ensures Run(Initial(1.0), more) == t && more == events + [e]
  {
    RunSnoc(Initial(1.0), events, e);
    more := events + [e];
  }

  function Pushed(x: Snapshot, stamp: nat, at: real, origin: Origin, waited: bool): Frame {
    StateFrame(x.content, stamp, at, origin, waited)
  }

  /** Connected at time 1.0; the opening state is being sent. */
  function Greeting(x: Snapshot): State {
    State(1.0, 1, true, Initial(1.0).history + [x], 0.0, Idle, Some(Flush(1, Forced, false, true)), [],
          [HelloFrame] + [Pushed(x, 2, 1.0, Forced, false)], [], Announcing, false)
  }

  lemma GreetingReached(x: Snapshot) returns (events: seq<Event>)
    requires x.serialisable
    ensures Run(Initial(1.0), events) == Greeting(x)
  {
    var s0 := Initial(1.0);
    var s1 := s0.(conn := 1, open := true, wire := [HelloFrame], session := Opening);
    events := Then([], Connect, s0, s1);
    events := Then(events, HelloDone(x), s1, Greeting(x));
  }

  /** The opening is over, and an update 0.1 s later has been scheduled for 1.4. */
  function Scheduled(x: Snapshot): State {
    var g := Greeting(x);
    g.(now := 1.1, history := g.history + [x], lastPush := 1.0, timer := Sleeping(1.1, 1.4), sending := None,
       session := Serving(None))
  }

  lemma ScheduledReached(x: Snapshot) returns (events: seq<Event>)
    requires x.serialisable
    ensures Run(Initial(1.0), events) == Scheduled(x)
  {
    events := GreetingReached(x);
    var g := Greeting(x);
    var s3 := g.(lastPush := 1.0, sending := None, session := Serving(None));
    events := Then(events, SendDone, g, s3);
    events := Then(events, Tick(0.1), s3, s3.(now := 1.1));
    events := Then(events, Publish(x, false), s3.(now := 1.1), Scheduled(x));
  }

  /** A forced push at 1.3 comes in between. */
  function PushedBetween(x: Snapshot): State {
    var c := Scheduled(x);
    c.(now := 1.4, history := c.history + [x], lastPush := 1.3, wire := c.wire + [Pushed(x, 4, 1.3, Forced, false)])
  }

  lemma PushedBetweenReached(x: Snapshot) returns (events: seq<Event>)
    requires x.serialisable
    ensures Run(Initial(1.0), events) == PushedBetween(x)
  {
    events := ScheduledReached(x);
    var c := Scheduled(x);
    var c2 := c.(now := 1.3);
    var c3 := c2.(history := c.history + [x], wire := c.wire + [Pushed(x, 4, 1.3, Forced, false)],
                  sending := Some(Flush(1, Forced, false, false)));
    events := Then(events, Tick(0.2), c, c2);
    events := Then(events, Publish(x, true), c2, c3);
    events := Then(events, SendDone, c3, c3.(lastPush := 1.3, sending := None));
    events := Then(events, Tick(0.1), c3.(lastPush := 1.3, sending := None), PushedBetween(x));
  }

  /** A run up to the moment where the delayed flush has encoded its frame and is sending it. */
  lemma SwallowedSoon(x: Snapshot) returns (events: seq<Event>)
    requires x.serialisable
    ensures var s := Run(Initial(1.0), events);
            && s.open && s.session == Serving(None) && s.timer == Flushing && s.waiting == []
            && s.sending == Some(Flush(s.conn, Delayed, false, false))
            && 0.0 <= s.now - s.lastPush < DEBOUNCE && LastStamp(s.wire) == |s.history|
  {
    events := PushedBetweenReached(x);
    var b := PushedBetween(x);
    var frame := Pushed(x, 4, 1.4, Delayed, false);
    var t := b.(wire := b.wire + [frame], timer := Flushing, sending := Some(Flush(1, Delayed, false, false)));
    events := Then(events, TimerFires, b, t);
    StatesSnoc(b.wire, frame);
    hide States, Run;
  }

  /** A forced push at 1.4 is being sent, and the delayed flush is due. */
  function Busy(x: Snapshot): State {
    var c := Scheduled(x);
    c.(now := 1.4, history := c.history + [x], wire := c.wire + [Pushed(x, 4, 1.4, Forced, false)],
       sending := Some(Flush(1, Forced, false, false)))
  }

  lemma BusyReached(x: Snapshot) returns (events: seq<Event>)
    requires x.serialisable
    ensures Run(Initial(1.0), events) == Busy(x)
  {
    events := ScheduledReached(x);
    var c := Scheduled(x);
    events := Then(events, Tick(0.3), c, c.(now := 1.4));
    events := Then(events, Publish(x, true), c.(now := 1.4), Busy(x));
  }

  /** The event that asks for a frame of this pace while the lock is taken. */
  function Request(p: Pace, x: Snapshot): Event {
    match p
    case ByForce => Publish(x, true)
    case ByTimer => TimerFires
    case _ => Publish(x, false)
  }

  function OriginOf(p: Pace): Origin {
    match p
    case ByForce => Forced
    case ByTimer => Delayed
    case _ => Immediate
  }

  /** Served, with a flush of this connection holding the lock. */
  predicate Held(s: State) {
    && s.history != [] && Latest(s).serialisable && s.open && s.session == Serving(None)
    && s.sending.Some? && s.sending.value.conn == s.conn && !s.sending.value.opening
  }

  lemma RequestQueues(s: State, p: Pace, x: Snapshot)
    requires Held(s) && x.serialisable && !p.AtOnce? && s.now - s.lastPush >= DEBOUNCE
    requires p.ByTimer? ==> s.timer.Sleeping? && s.now >= s.timer.due
    ensures var t := Step(s, Request(p, x));
            && Held(t) && t.waiting == s.waiting + [Flush(s.conn, OriginOf(p), true, false)]
            && t.wire == s.wire && t.now == s.now && t.lastPush == s.lastPush && t.conn == s.conn
            && (!p.ByTimer? ==> t.timer == s.timer)
  {
  }

  lemma SendEnds(s: State)
    requires Held(s)
    ensures Step(s, SendDone) == s.(sending := None, lastPush := s.now,
                                    timer := if s.sending.value.origin.Delayed? then Idle else s.timer)
  {
  }

  lemma FirstWaitingSends(s: State, f: Flush)
    requires s.history != [] && Latest(s).serialisable && s.open && s.sending.None? && s.waiting != []
    requires s.waiting[0] == f && f.conn == s.conn
    ensures Step(s, Grant) == s.(waiting := s.waiting[1..], wire := s.wire + [NewFrame(s, f)], sending := Some(f))
  {
  }

  /** The send ends and the first waiting flush sends in its turn, at the same instant. */
  lemma LockPasses(s: State, p: Pace)
    requires Held(s) && !p.AtOnce? && s.waiting != [] && s.waiting[0] == Flush(s.conn, OriginOf(p), true, false)
    ensures Step(s, SendDone).history != []
    ensures var t := Step(Step(s, SendDone), Grant);
            && Held(t) && t.waiting == s.waiting[1..] && t.now == s.now && t.conn == s.conn
            && States(t.wire) != [] && States(t.wire)[..|States(t.wire)| - 1] == States(s.wire)
            && var last := States(t.wire)[|States(t.wire)| - 1]; PaceOf(last) == p && last.at == s.now
  {
    hide Step, States;
    var u := s.(sending := None, lastPush := s.now, timer := if s.sending.value.origin.Delayed? then Idle else s.timer);
    SendEnds(s);
    FirstWaitingSends(u, s.waiting[0]);
    StatesSnoc(s.wire, NewFrame(u, s.waiting[0]));
  }

  lemma Took(events: seq<Event>, e: Event) returns (more: seq<Event>)
    ensures more == events + [e] && Run(Initial(1.0), more) == Step(Run(Initial(1.0), events), e)
  {
    RunSnoc(Initial(1.0), events, e);
    more := events + [e];
  }

  /** Any other two paces can follow a frame at the very same instant. */
  lemma WaitingBreaksRateBound(b: Pace, c: Pace, x: Snapshot) returns (events: seq<Event>)
    requires !KeepsWindow(b, c) && x.serialisable
    ensures var st := States(Run(Initial(1.0), events).wire);
            && |st| >= 3 && PaceOf(st[|st| - 2]) == b && PaceOf(st[|st| - 1]) == c
            && st[|st| - 1].at == st[|st| - 3].at
  {
    hide Run, Step, States;
    events := BusyReached(x);
    BusyHolds(x);
    var s := Busy(x);
    events := Took(events, Request(b, x));
    RequestQueues(s, b, x);
    var s1 := Step(s, Request(b, x));
    events := Took(events, Request(c, x));
    RequestQueues(s1, c, x);
    var s2 := Step(s1, Request(c, x));
    events := Took(events, SendDone);
    events := Took(events, Grant);
    LockPasses(s2, b);
    var s3 := Step(Step(s2, SendDone), Grant);
    events := Took(events, SendDone);
    events := Took(events, Grant);
    LockPasses(s3, c);
  }

  lemma BusyHolds(x: Snapshot)
    requires x.serialisable
    ensures var s := Busy(x);
            && Held(s) && s.now - s.lastPush >= DEBOUNCE && s.timer.Sleeping? && s.now >= s.timer.due && s.waiting == []
            && States(s.wire) != [] && States(s.wire)[|States(s.wire)| - 1].at == s.now
  {
    StatesSnoc(Scheduled(x).wire, Pushed(x, 4, 1.4, Forced, false));
    hide States;
  }

  /** In every run, three frames whose last two have these paces span the window. */
  ghost predicate AlwaysSpaced(b: Pace, c: Pace) {
    forall now: real, events: seq<Event>, i: nat ::
      var st := States(Run(Initial(now), events).wire);
      now >= 0.0 && i + 2 < |st| && PaceOf(st[i + 1]) == b && PaceOf(st[i + 2]) == c ==>
        st[i + 2].at - st[i].at >= DEBOUNCE
  }

  /** The rate bound, exactly: for every pair of paces it holds in all runs or is broken in one. */
  lemma RateBoundIff(b: Pace, c: Pace)
    ensures AlwaysSpaced(b, c) <==> KeepsWindow(b, c)
  {
    hide Run, States;
    if KeepsWindow(b, c) {
      forall now: real, events: seq<Event>, i: nat |
        var st := States(Run(Initial(now), events).wire);
        now >= 0.0 && i + 2 < |st| && PaceOf(st[i + 1]) == b && PaceOf(st[i + 2]) == c
        ensures var st := States(Run(Initial(now), events).wire); st[i + 2].at - st[i].at >= DEBOUNCE
      {
        RateBound(now, events, i);
      }
    } else {
      var events := WaitingBreaksRateBound(b, c, Snapshot(JObj(map[]), true));
      var st := States(Run(Initial(1.0), events).wire);
      assert st[|st| - 3 + 2].at - st[|st| - 3].at < DEBOUNCE;
    }
  }

  /** With an opening state that cannot be serialised, a reply may precede every state frame. */
  lemma ReplyWithoutState(x: Snapshot, raw: Raw, outcome: Outcome, newId: string) returns (events: seq<Event>)
    requires !x.serialisable && DecodeMessage(raw).Some? && DecodeMessage(raw).value.kind.Rpc?
    ensures var s := Run(Initial(1.0), events);
            |s.wire| == 2 && s.wire[0] == HelloFrame && s.wire[1].ReplyFrame? && !RepliesAfterState(s.wire)
    ensures PublishesOnly(events, iset{x})
  {
    hide EncodeReply, DecodeMessage, Run, States, RepliesAfterState;
    var id := DecodeMessage(raw).value.id;
    var reply := ReplyFrame(EncodeReply(id, outcome, newId));
    var s0 := Initial(1.0);
    var s1 := s0.(conn := 1, open := true, wire := [HelloFrame], session := Opening);
    var s2 := s1.(history := s0.history + [x], session := Serving(None), muted := true);
    var s3 := s2.(inbox := [] + [id], session := Serving(Some(id)));
    var s4 := s3.(wire := [HelloFrame] + [reply], session := Serving(None));
    RunNothing(s0);
    events := Then([], Connect, s0, s1);
    events := Then(events, HelloDone(x), s1, s2);
    events := Then(events, Receive(raw), s2, s3);
    events := Then(events, HandlerDone(outcome, newId), s3, s4);
    BareReply(reply);
  }

  lemma RunNothing(s: State)
    requires s.history != []
    ensures Run(s, []) == s
  {
  }

  lemma BareReply(reply: Frame)
    requires reply.ReplyFrame?
    ensures !RepliesAfterState([HelloFrame] + [reply])
  {
    var wire := [HelloFrame] + [reply];
    assert wire[..1] == [HelloFrame] && [HelloFrame][..0] == [];
  }

  // ----- the agent object, one method per stretch between awaits -----

  class Agent {
    var clock: real
    var conn: nat
    var open: bool
    var latestState: Snapshot
    var lastPush: real
    var flushTask: Timer
    var sending: Option<Flush>
    var waiting: seq<Flush>
    var session: Session
    ghost var history: seq<Snapshot>
    ghost var wire: seq<Frame>
    ghost var inbox: seq<Json>
    ghost var muted: bool

    ghost predicate Valid()
      reads this
    {
      history != [] && latestState == history[|history| - 1]
    }

    ghost function View(): State
      reads this
    {
      State(clock, conn, open, history, lastPush, flushTask, sending, waiting, wire, inbox, session, muted)
    }

    constructor (now: real)
      ensures Valid() && View() == Initial(now)
    {
      clock, conn, open, lastPush, flushTask := now, 0, false, 0.0, Idle;
      latestState := Snapshot(JObj(map[]), true);
      sending, waiting, session := None, [], Offline;
      history, wire, inbox, muted := [Snapshot(JObj(map[]), true)], [], [], false;
    }

    /** The end of a flush coroutine. */
    method FinishFlush(f: Flush)
      requires Valid()
      modifies this`flushTask, this`session
      ensures Valid() && View() == Finish(old(View()), f)
    {
      if f.origin.Delayed? { flushTask := Idle; }
      if f.opening && f.conn == conn && session == Announcing { session := Serving(None); }
    }

    /** The body under the lock, up to the await on `send`. */
    method BeginFlush(f: Flush)
      requires Valid()
      modifies this`flushTask, this`session, this`sending, this`wire, this`muted
      ensures Valid() && View() == Begin(old(View()), f)
    {
      if !open || f.conn != conn {
        FinishFlush(f);
      } else if !latestState.serialisable {
        if f.opening { muted := true; }
        FinishFlush(f);
      } else {
        wire := wire + [StateFrame(latestState.content, |history|, clock, f.origin, f.waited)];
        sending := Some(f);
      }
    }

    method FlushState(origin: Origin, opening: bool)
      requires Valid()
      modifies this`flushTask, this`session, this`sending, this`waiting, this`wire, this`muted
      ensures Valid() && View() == CallFlush(old(View()), origin, opening)
    {
      if session == Offline {
        if origin == Delayed { flushTask := Idle; }
      } else if sending == None && waiting == [] {
        BeginFlush(Flush(conn, origin, false, opening));
      } else {
        waiting := waiting + [Flush(conn, origin, true, opening)];
      }
    }

    method Publish(state: Snapshot, force: bool)
      requires Valid()
      modifies this
      ensures Valid() && View() == PublishState(old(View()), state, force)
    {
      latestState, history := state, history + [state];
      if force {
        FlushState(Forced, false);
        return;
      }
      if clock - lastPush >= DEBOUNCE {
        FlushState(Immediate, false);
        return;
      }
      if flushTask == Idle {
        flushTask := Sleeping(clock, clock + Delay(clock - lastPush));
      }
    }

    /** The delayed flush after its sleep. */
    method WakeDelayedFlush()
      requires Valid() && flushTask.Sleeping? && clock >= flushTask.due
      modifies this
      ensures Valid() && View() == FireTimer(old(View()))
    {
      flushTask := Flushing;
      FlushState(Delayed, false);
    }

    /** The await on `send` ends: note the push, release the lock. */
    method SendReturns()
      requires Valid() && sending.Some?
      modifies this
      ensures Valid() && View() == EndSend(old(View()))
    {
      var f := sending.value;
      if open && f.conn == conn { lastPush := clock; }
      sending := None;
      FinishFlush(f);
    }

    /** The first waiting flush gets the lock. */
    method GrantWaiting()
      requires Valid() && sending.None? && waiting != []
      modifies this
      ensures Valid() && View() == GrantLock(old(View()))
    {
      var f := waiting[0];
      waiting := waiting[1..];
      BeginFlush(f);
    }
  }
}
