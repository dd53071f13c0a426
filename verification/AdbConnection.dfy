/**
 * The connection between adbd, this process and the debugger agent, as the poll loop of
 * adbconnection/adbconnection.cc drives it. The agent of dt_fd_forward sits at the other end
 * of a first-in first-out control socket.
 */
module AdbConnection {
  import opened Bytes

  /** What the agent tells the poll loop. */
  datatype Message = StartListen | Attached | EndListen | Closing

  /** File descriptors of connection `conn` handed to the agent, with or without the handshake left to do. */
  datatype Handover = Handover(conn: nat, perform: bool)

  /** What a packet that arrives while no agent is loaded turns out to be. */
  datatype Packet =
    | Unreadable                // peeking, sizing or reading fails
    | ForAgent(attaches: bool)  // needs the agent, whose loading may fail
    | TooShort                  // ignored
    | Chunk                     // handled here

  /**
   * The protocol state of AdbConnectionState. Connections are numbered, `None` being fd -1.
   * `failed` records whether a DCHECK or CHECK has failed, `handed` all successful sends of
   * descriptors, and `shaken` the connections on which this process completed the handshake.
   */
  datatype State = State(
    control: bool,
    adb: Option<nat>,
    loaded: bool,
    listening: bool,
    has: bool,
    sent: bool,
    performed: bool,
    notified: bool,
    failed: bool,
    handed: seq<Handover>,
    shaken: set<nat>)

  const INITIAL := State(false, None, false, false, false, false, false, false, false, [], {})

  function Checked(s: State, ok: bool): State {
    s.(failed := s.failed || !ok)
  }

  function Notified(s: State, active: bool): State {
    Checked(s, s.notified != active).(notified := active)
  }

  function Closed(s: State): State {
    var t := s.(adb := None, performed := false);
    if !t.loaded && t.notified then Notified(t, false) else t
  }

  function Sent(s: State, require: bool, ok: bool): State {
    var t := Checked(s, !s.sent && s.adb.Some?);
    if ok && s.adb.Some? then t.(sent := true, handed := s.handed + [Handover(s.adb.value, require)]) else t
  }

  function Listens(s: State, ok: bool): State {
    var t := s.(listening := true);
    if t.adb.Some? then Sent(t, !t.performed, ok) else t
  }

  function Released(s: State): State {
    Closed(s).(has := false)
  }

  function Told(s: State, m: Message, ok: bool): State {
    var t := Checked(s, s.loaded);
    match m
    case StartListen => Listens(t, ok)
    case EndListen => t.(listening := false)
    case Closing => Released(t)
    case Attached => t.(has := true, sent := false, performed := false)
  }

  /** The control socket is readable; `fd` is what adbd sent over it. */
  function Connected(s: State, fd: Option<nat>, ok: bool): State {
    if fd.None? then s.(control := false)
    else if s.adb.Some? then s
    else
      var t := s.(adb := fd);
      if t.loaded && t.listening then Sent(t, true, ok) else t
  }

  function HungUp(s: State): State {
    Checked(s, !s.has).(control := false)
  }

  function Handshaken(s: State, good: bool): State {
    var t := Checked(s, !s.performed && s.adb.Some?);
    if good && s.adb.Some? then t.(performed := true, shaken := s.shaken + {s.adb.value}) else Closed(t)
  }

  function DataAlone(s: State, good: bool, p: Packet): State {
    var t := Checked(s, !s.loaded && !s.listening);
    if !t.performed then Handshaken(t, good)
    else
      match p
      case Unreadable => Closed(t)
      case ForAgent(attaches) => if attaches then t.(loaded := true) else t
      case TooShort => t
      case Chunk => if t.notified then t else Notified(t, true)
  }

  /** There is data on the connection. */
  function DataArrived(s: State, good: bool, p: Packet, ok: bool): State {
    var t := Checked(s, !s.has);
    if !t.loaded then DataAlone(t, good, p)
    else if t.listening && !t.sent then Sent(t, true, ok)
    else t
  }

  function Dropped(s: State): State {
    Closed(Checked(s, !s.has))
  }

  /** The fields of AdbConnectionState and the code that updates them. */
  class AdbConnectionState {
    var controlSock: bool
    var adbConnectionSocket: Option<nat>
    var agentLoaded: bool
    var agentListening: bool
    var agentHasSocket: bool
    var sentAgentFds: bool
    var performedHandshake: bool
    var notifiedDdmActive: bool
    /** What has gone out to the agent's end of the socket. */
    var handed: seq<Handover>
    ghost var failed: bool
    ghost var shaken: set<nat>

    ghost function View(): State
      reads this
    {
      State(controlSock, adbConnectionSocket, agentLoaded, agentListening, agentHasSocket, sentAgentFds,
            performedHandshake, notifiedDdmActive, failed, handed, shaken)
    }

    constructor ()
      ensures View() == INITIAL
    {
      controlSock, adbConnectionSocket := false, None;
      agentLoaded, agentListening, agentHasSocket, sentAgentFds := false, false, false, false;
      performedHandshake, notifiedDdmActive := false, false;
      failed, handed, shaken := false, [], {};
    }

    /** The descriptors given to poll. */
    predicate Polls(e: Event)
      reads this
    {
      match e
      case AgentMessage(_) => agentLoaded
      case ControlReadable(_, _) => adbConnectionSocket.None?
      case ControlHangup => adbConnectionSocket.None?
      case ConnectionData(_, _, _) => adbConnectionSocket.Some? && !agentHasSocket && !sentAgentFds
      case ConnectionHangup => adbConnectionSocket.Some? && !agentHasSocket && !sentAgentFds
      case _ => true
    }

    method NotifyDdms(active: bool)
      modifies this
      ensures View() == Notified(old(View()), active)
    {
      failed := failed || notifiedDdmActive == active;
      notifiedDdmActive := active;
    }

    method CloseFds()
      modifies this
      ensures View() == Closed(old(View()))
    {
      adbConnectionSocket := None;
      performedHandshake := false;
      if !agentLoaded && notifiedDdmActive {
        NotifyDdms(false);
      }
    }

    /** `ok` is whether sendmsg succeeds. */
    method SendAgentFds(requireHandshake: bool, ok: bool)
      modifies this
      ensures View() == Sent(old(View()), requireHandshake, ok)
    {
      failed := failed || sentAgentFds || adbConnectionSocket.None?;
      if ok && adbConnectionSocket.Some? {
        sentAgentFds := true;
        handed := handed + [Handover(adbConnectionSocket.value, requireHandshake)];
      }
    }

    method HandleListenStart(ok: bool)
      modifies this
      ensures View() == Listens(old(View()), ok)
    {
      hide Sent;
      agentListening := true;
      if adbConnectionSocket.Some? {
        SendAgentFds(!performedHandshake, ok);
      }
    }

    method HandleClose()
      modifies this
      ensures View() == Released(old(View()))
    {
      hide Closed;
      CloseFds();
      agentHasSocket := false;
    }

    method HandleAgentMessage(m: Message, ok: bool)
      modifies this
      ensures View() == Told(old(View()), m, ok)
    {
      hide Listens, Released;
      failed := failed || !agentLoaded;
      match m
      case StartListen =>
        HandleListenStart(ok);
      case EndListen =>
        agentListening := false;
      case Closing =>
        HandleClose();
      case Attached =>
        agentHasSocket := true;
        sentAgentFds := false;
        performedHandshake := false;
    }

    method HandleControlSocket(newFd: Option<nat>, ok: bool)
      modifies this
      ensures View() == Connected(old(View()), newFd, ok)
    {
      var maybeSendFds := false;
      if newFd.None? {
        controlSock := false;
        return;
      } else if adbConnectionSocket.Some? {
        // A second debugger is accepted, then dropped.
      } else {
        adbConnectionSocket := newFd;
        maybeSendFds := true;
      }
      if maybeSendFds && agentLoaded && agentListening {
        SendAgentFds(true, ok);
      }
    }

    method HandleControlHangup()
      modifies this
      ensures View() == HungUp(old(View()))
    {
      failed := failed || agentHasSocket;
      controlSock := false;
    }

    method PerformHandshake(good: bool)
      modifies this
      ensures View() == Handshaken(old(View()), good)
    {
      hide Closed;
      failed := failed || performedHandshake || adbConnectionSocket.None?;
      if !good || adbConnectionSocket.None? {
        CloseFds();
        return;
      }
      performedHandshake := true;
      shaken := shaken + {adbConnectionSocket.value};
    }

    method HandleDataWithoutAgent(good: bool, p: Packet)
      modifies this
      ensures View() == DataAlone(old(View()), good, p)
    {
      hide Handshaken, Closed, Notified;
      failed := failed || agentLoaded || agentListening;
      if !performedHandshake {
        PerformHandshake(good);
        return;
      }
      match p
      case Unreadable =>
        CloseFds();
      case ForAgent(attaches) =>
        if attaches {
          agentLoaded := true;
        }
      case TooShort =>
      case Chunk =>
        if !notifiedDdmActive {
          NotifyDdms(true);
        }
    }

    method HandleConnectionData(good: bool, p: Packet, ok: bool)
      modifies this
      ensures View() == DataArrived(old(View()), good, p, ok)
    {
      hide DataAlone, Sent;
      failed := failed || agentHasSocket;
      if !agentLoaded {
        HandleDataWithoutAgent(good, p);
      } else if agentListening && !sentAgentFds {
        SendAgentFds(true, ok);
      }
    }

    method HandleConnectionHangup()
      modifies this
      ensures View() == Dropped(old(View()))
    {
      hide Closed;
      failed := failed || agentHasSocket;
      CloseFds();
    }
  }

  // The whole system.

  /** The agent listens, takes the descriptors, stops listening and closes; a failed handshake makes it listen on. */
  datatype Phase = Idle | Listening | Accepted | Open

  /** The poll loop, the agent, the messages under way to the loop, and the handovers the agent has received. */
  datatype System = System(s: State, phase: Phase, inbox: seq<Message>, received: nat, next: nat)

  const START := System(INITIAL, Idle, [], 0, 0)

  datatype Event =
    | AgentStarts
    | AgentAttaches
    | AgentRetries
    | AgentStops
    | AgentCloses
    | ControlReady
    | AgentMessage(ok: bool)
    | ControlReadable(works: bool, ok: bool)
    | ControlHangup
    | ConnectionData(good: bool, packet: Packet, ok: bool)
    | ConnectionHangup
    | WakeUp  // nothing to do, or the receive from the agent failed

  /** When an event can happen; for the poll loop, which descriptors it polls. */
  predicate Enabled(y: System, e: Event) {
    match e
    case AgentStarts => y.s.loaded && y.phase.Idle?
    case AgentAttaches => y.phase.Listening? && y.received < |y.s.handed|
    case AgentRetries => y.phase.Accepted? && 0 < y.received <= |y.s.handed| && y.s.handed[y.received - 1].perform
    case AgentStops => y.phase.Accepted?
    case AgentCloses => y.phase.Open?
    case ControlReady => !y.s.control
    case AgentMessage(_) => y.s.control && y.s.loaded && y.inbox != []
    case ControlReadable(_, _) => y.s.control && y.s.adb.None?
    case ControlHangup => y.s.control && y.s.adb.None?
    case ConnectionData(_, _, _) => y.s.control && y.s.adb.Some? && !y.s.has && !y.s.sent
    case ConnectionHangup => y.s.control && y.s.adb.Some? && !y.s.has && !y.s.sent
    case WakeUp => y.s.control
  }

  function Next(y: System, e: Event): System
    requires Enabled(y, e)
  {
    match e
    case AgentStarts => y.(phase := Listening, inbox := y.inbox + [StartListen])
    case AgentAttaches => y.(phase := Accepted, inbox := y.inbox + [Attached], received := y.received + 1)
    case AgentRetries => y.(phase := Listening, inbox := y.inbox + [Closing])
    case AgentStops => y.(phase := Open, inbox := y.inbox + [EndListen])
    case AgentCloses => y.(phase := Idle, inbox := y.inbox + [Closing])
    case ControlReady => y.(s := y.s.(control := true))
    case AgentMessage(ok) => y.(s := Told(y.s, y.inbox[0], ok), inbox := y.inbox[1..])
    case ControlReadable(works, ok) =>
      y.(s := Connected(y.s, if works then Some(y.next) else None, ok), next := y.next + 1)
    case ControlHangup => y.(s := HungUp(y.s))
    case ConnectionData(good, p, ok) => y.(s := DataArrived(y.s, good, p, ok))
    case ConnectionHangup => y.(s := Dropped(y.s))
    case WakeUp => y
  }

  /** The states a run goes through. */
  ghost predicate Run(ys: seq<System>, es: seq<Event>) {
    && |ys| == |es| + 1 && ys[0] == START
    && forall k {:trigger es[k]} :: 0 <= k < |es| ==> Enabled(ys[k], es[k]) && ys[k + 1] == Next(ys[k], es[k])
  }

  /** The agent's phase as the loop will see it when it has read everything. */
  function PhaseOf(listening: bool, has: bool): Phase {
    if listening then if has then Accepted else Listening
    else if has then Open else Idle
  }

  /**
   * The messages under way lead from what the loop believes to what the agent does: each fits
   * the loop's flags at the time it is read, and descriptors the agent has not picked up yet
   * are under way exactly when the loop still waits for them to be accepted.
   */
  predicate InStep(listening: bool, has: bool, sent: bool, inbox: seq<Message>, phase: Phase, underway: int)
    decreases |inbox|
  {
    if inbox == [] then
      && phase == PhaseOf(listening, has) && underway == (if sent then 1 else 0)
      && !(has && sent) && (sent ==> listening)
    else
      var rest := inbox[1..];
      match inbox[0]
      case StartListen => !listening && !has && !sent && rest == [] && phase.Listening? && underway == 0
      case Attached => listening && !has && sent && InStep(true, true, false, rest, phase, underway)
      case EndListen => listening && has && !sent && InStep(false, true, false, rest, phase, underway)
      case Closing => has && !sent && InStep(listening, false, false, rest, phase, underway)
  }

  /** What holds after every step. */
  ghost predicate Inv(y: System) {
    && !y.s.failed
    && (y.s.listening || y.s.has || y.s.sent || y.inbox != [] || !y.phase.Idle? ==> y.s.loaded)
    && (y.s.handed != [] ==> y.s.loaded)
    && (y.s.has || y.s.sent ==> y.s.adb.Some?)
    && !(y.s.has && y.s.sent)
    && InStep(y.s.listening, y.s.has, y.s.sent, y.inbox, y.phase, |y.s.handed| - y.received)
    && Connections(y.s, y.next)
  }

  /** Which connections have been handed over and handshaken. */
  ghost predicate Connections(s: State, next: nat) {
    && (s.adb.Some? ==> s.adb.value < next)
    && (forall c :: c in s.shaken ==> c < next)
    && (s.performed <==> s.adb.Some? && !s.has && s.adb.value in s.shaken)
    && (forall i :: 0 <= i < |s.handed| ==> s.handed[i].conn < next)
    && (forall i :: 0 <= i < |s.handed| && s.adb == Some(s.handed[i].conn) ==> s.has || s.sent)
    && (forall i, j :: 0 <= i < j < |s.handed| ==> s.handed[i].conn != s.handed[j].conn)
  }

  /** A step of the agent: its message, and what it leaves of the descriptors under way. */
  predicate AgentStep(phase: Phase, underway: int, m: Message, phase': Phase, underway': int) {
    match m
    case StartListen => phase.Idle? && phase'.Listening? && underway' == underway
    case Attached => phase.Listening? && underway > 0 && phase'.Accepted? && underway' == underway - 1
    case EndListen => phase.Accepted? && phase'.Open? && underway' == underway
    case Closing => underway' == underway && ((phase.Accepted? && phase'.Listening?) || (phase.Open? && phase'.Idle?))
  }

  lemma {:induction false} AgentKeepsInStep(listening: bool, has: bool, sent: bool, inbox: seq<Message>, m: Message,
                                            phase: Phase, underway: int, phase': Phase, underway': int)
    requires InStep(listening, has, sent, inbox, phase, underway) && AgentStep(phase, underway, m, phase', underway')
    ensures InStep(listening, has, sent, inbox + [m], phase', underway')
    decreases |inbox|
  {
    if inbox == [] {
      assert inbox + [m] == [m] && [m][1..] == [];
    } else {
      var rest := inbox[1..];
      assert (inbox + [m])[1..] == rest + [m];
      match inbox[0]
      case StartListen => assert false;
      case Attached => AgentKeepsInStep(true, true, false, rest, m, phase, underway, phase', underway');
      case EndListen => AgentKeepsInStep(false, true, false, rest, m, phase, underway, phase', underway');
      case Closing => AgentKeepsInStep(listening, false, false, rest, m, phase, underway, phase', underway');
    }
  }

  lemma AgentKeepsInv(y: System, e: Event)
    requires Inv(y) && Enabled(y, e)
    requires e.AgentStarts? || e.AgentAttaches? || e.AgentRetries? || e.AgentStops? || e.AgentCloses?
    ensures Inv(Next(y, e))
  {
    hide Connections, InStep;
    var z := Next(y, e);
    var m := z.inbox[|y.inbox|];
    AgentKeepsInStep(y.s.listening, y.s.has, y.s.sent, y.inbox, m, y.phase, |y.s.handed| - y.received, z.phase,
                     |z.s.handed| - z.received);
    assert z.inbox == y.inbox + [m];
    if y.phase.Idle? {
      assert y.s.loaded;
    }
  }

  /** Handing over a connection that the agent neither has nor was sent. */
  lemma SendKeeps(s: State, next: nat, require: bool, ok: bool)
    requires Connections(s, next) && s.adb.Some? && !s.has && !s.sent
    ensures Connections(Sent(s, require, ok), next)
  {
  }

  lemma CloseKeeps(s: State, next: nat)
    requires Connections(s, next)
    ensures Connections(Closed(s).(has := false, sent := false), next)
    ensures !s.has && !s.sent ==> Connections(Closed(s), next)
  {
  }

  lemma ListenStartKeepsInv(y: System, e: Event)
    requires Inv(y) && Enabled(y, e) && e.AgentMessage? && y.inbox[0].StartListen?
    ensures Inv(Next(y, e))
  {
    hide Connections;
    var t := Checked(y.s, y.s.loaded).(listening := true);
    assert Connections(t, y.next) by { SameConnections(y.s, t, y.next); }
    if t.adb.Some? {
      SendKeeps(t, y.next, !t.performed, e.ok);
    }
  }

  lemma SameConnections(s: State, t: State, next: nat)
    requires Connections(s, next) && t.adb == s.adb && t.has == s.has && t.sent == s.sent
    requires t.performed == s.performed && t.handed == s.handed && t.shaken == s.shaken
    ensures Connections(t, next)
  {
  }

  lemma MessageKeepsInv(y: System, e: Event)
    requires Inv(y) && Enabled(y, e) && e.AgentMessage?
    ensures Inv(Next(y, e))
  {
    var z := Next(y, e);
    match y.inbox[0]
    case StartListen =>
      ListenStartKeepsInv(y, e);
    case EndListen =>
      hide Connections;
      SameConnections(y.s, z.s, y.next);
    case Closing =>
      hide Connections;
      var t := Checked(y.s, y.s.loaded);
      SameConnections(y.s, t, y.next);
      CloseKeeps(t, y.next);
      SameConnections(Closed(t).(has := false, sent := false), z.s, y.next);
    case Attached =>
  }

  lemma LoopKeepsInv(y: System, e: Event)
    requires Inv(y) && Enabled(y, e)
    requires e.ControlReady? || e.ControlHangup? || e.ConnectionHangup?
    ensures Inv(Next(y, e))
  {
    hide Connections, InStep;
    var z := Next(y, e);
    if e.ConnectionHangup? {
      CloseKeeps(y.s, y.next);
      SameConnections(Closed(y.s), z.s, y.next);
    } else {
      SameConnections(y.s, z.s, y.next);
    }
  }

  lemma ConnectKeepsInv(y: System, e: Event)
    requires Inv(y) && Enabled(y, e) && e.ControlReadable?
    ensures Inv(Next(y, e))
  {
    var z := Next(y, e);
    if e.works {
      var t := y.s.(adb := Some(y.next));
      assert Connections(t, y.next + 1);
      hide Connections;
      if t.loaded && t.listening {
        SendKeeps(t, y.next + 1, true, e.ok);
        ReadyToSend(y);
      }
    }
  }

  /** While the loop believes the agent listens and has nothing, nothing is under way in either direction. */
  lemma ReadyToSend(y: System)
    requires Inv(y) && y.s.listening && !y.s.has && !y.s.sent
    ensures y.inbox == [] && y.phase.Listening? && |y.s.handed| == y.received
  {
    hide Connections;
  }

  lemma DataKeepsInv(y: System, e: Event)
    requires Inv(y) && Enabled(y, e) && e.ConnectionData?
    ensures Inv(Next(y, e))
  {
    if y.s.loaded {
      hide Connections;
      var t := Checked(y.s, !y.s.has);
      SameConnections(y.s, t, y.next);
      if t.listening {
        SendKeeps(t, y.next, true, e.ok);
        ReadyToSend(y);
      }
    } else {
      AloneKeepsInv(y, e.good, e.packet);
      assert Checked(y.s, !y.s.has) == y.s;
    }
  }

  lemma AloneKeepsInv(y: System, good: bool, p: Packet)
    requires Inv(y) && !y.s.loaded && y.s.adb.Some?
    ensures Inv(y.(s := DataAlone(y.s, good, p)))
  {
    hide InStep;
    var t := Checked(y.s, !y.s.loaded && !y.s.listening);
    assert t == y.s;
    var z := DataAlone(y.s, good, p);
    if !t.performed {
      hide Connections;
      ShakeKeeps(t, y.next, good);
    } else {
      hide Connections;
      if p.Unreadable? {
        CloseKeeps(t, y.next);
      } else {
        SameConnections(t, z, y.next);
      }
    }
  }

  lemma ShakeKeeps(s: State, next: nat, good: bool)
    requires Connections(s, next) && s.adb.Some? && !s.performed && !s.has && !s.sent && !s.loaded && !s.failed
    ensures Connections(Handshaken(s, good), next)
  {
    var t := Checked(s, !s.performed && s.adb.Some?);
    if !good {
      CloseKeeps(t, next);
    }
  }

  lemma WakeUpKeeps(y: System, e: Event)
    requires Enabled(y, e) && e.WakeUp?
    ensures Next(y, e) == y
  {
  }

  lemma StepKeepsInv(y: System, e: Event)
    requires Inv(y) && Enabled(y, e)
    ensures Inv(Next(y, e))
  {
    hide *;
    match e
    case ControlReady => LoopKeepsInv(y, e);
    case ControlHangup => LoopKeepsInv(y, e);
    case ConnectionHangup => LoopKeepsInv(y, e);
    case AgentMessage(_) => MessageKeepsInv(y, e);
    case ControlReadable(_, _) => ConnectKeepsInv(y, e);
    case ConnectionData(_, _, _) => DataKeepsInv(y, e);
    case WakeUp => WakeUpKeeps(y, e);
    case _ => AgentKeepsInv(y, e);
  }

  /**
   * In every interleaving no DCHECK or CHECK of the loop fails; an agent that listens, holds the
   * connection or was sent descriptors is loaded; and descriptors sent or held keep the connection valid.
   */
  lemma {:induction false} RunSafe(ys: seq<System>, es: seq<Event>, k: nat)
    requires Run(ys, es) && k < |ys|
    ensures Inv(ys[k])
    ensures var s := ys[k].s;
            && !s.failed
            && (s.listening || s.has || s.sent ==> s.loaded)
            && (s.has || s.sent ==> s.adb.Some?)
  {
    if k > 0 {
      RunSafe(ys, es, k - 1);
      var y, e := ys[k - 1], es[k - 1];
      assert ys[k] == Next(y, e);
      StepKeepsInv(y, e);
    }
  }

  /** A step that hands over descriptors appends one handover, of the current connection. */
  predicate HandsOver(y: System, e: Event)
    requires Enabled(y, e)
  {
    |Next(y, e).s.handed| > |y.s.handed|
  }

  /** Descriptors are handed over only when none are waiting to be accepted and the agent has no connection. */
  lemma HandoverStep(y: System, e: Event)
    requires Inv(y) && Enabled(y, e)
    ensures var z := Next(y, e);
            if HandsOver(y, e) then
              && !y.s.sent && !y.s.has && z.s.sent && z.s.adb.Some? && z.s.shaken == y.s.shaken
              && z.s.handed == y.s.handed + [Handover(z.s.adb.value, !(e.AgentMessage? && y.s.performed))]
              && (if e.ControlReadable? then z.s.adb == Some(y.next) else z.s.adb == y.s.adb)
              && (e.AgentMessage? || e.ControlReadable? || e.ConnectionData?)
            else z.s.handed == y.s.handed && (z.s.shaken == y.s.shaken || !y.s.loaded)
  {
    hide Connections;
  }

  lemma OwnHandshake(s: State, next: nat)
    requires Connections(s, next)
    ensures s.performed <==> s.adb.Some? && !s.has && s.adb.value in s.shaken
    ensures next !in s.shaken
  {
  }

  /** The agent is told what this process has done on that connection. */
  predicate Judged(h: Handover, shaken: set<nat>) {
    h.perform <==> h.conn !in shaken
  }

  /**
   * A handover tells the agent to do the handshake precisely when this process has not done it,
   * unless it is the repeated attempt on data after a failed send and the handshake was done.
   */
  lemma HandoverJudged(y: System, e: Event)
    requires Inv(y) && Enabled(y, e) && HandsOver(y, e)
    ensures var z := Next(y, e);
            && |z.s.handed| == |y.s.handed| + 1
            && (Judged(z.s.handed[|y.s.handed|], z.s.shaken) <==> !(e.ConnectionData? && y.s.performed))
  {
    assert Connections(y.s, y.next);
    hide Inv, Connections, Next, Enabled;
    OwnHandshake(y.s, y.next);
    HandoverStep(y, e);
  }

  /** Over a whole run, failed sends included: which handovers are right for good. */
  lemma {:induction false} HandoversJudged(ys: seq<System>, es: seq<Event>, k: nat, n: nat)
    requires Run(ys, es) && k < n < |ys| && HandsOver(ys[k], es[k])
    ensures var i := |ys[k].s.handed|;
            && i < |ys[n].s.handed|
            && (Judged(ys[n].s.handed[i], ys[n].s.shaken) <==> !(es[k].ConnectionData? && ys[k].s.performed))
    decreases n
  {
    hide HandsOver, Judged, Next, Inv;
    var y, e := ys[n - 1], es[n - 1];
    assert ys[n] == Next(y, e);
    RunSafe(ys, es, n - 1);
    if n == k + 1 {
      HandoverJudged(y, e);
    } else {
      HandoversJudged(ys, es, k, n - 1);
      HandoverStep(y, e);
      LoadedByThen(y);
    }
  }

  lemma LoadedByThen(y: System)
    requires Inv(y)
    ensures y.s.handed != [] ==> y.s.loaded
  {
  }

  lemma DistinctHandovers(y: System)
    requires Inv(y)
    ensures forall i, j :: 0 <= i < j < |y.s.handed| ==> y.s.handed[i].conn != y.s.handed[j].conn
  {
  }

  predicate SendSucceeds(e: Event) {
    (e.AgentMessage? ==> e.ok) && (e.ControlReadable? ==> e.ok) && (e.ConnectionData? ==> e.ok)
  }

  /** A listening agent is sent a connection as soon as there is one. */
  predicate Prompt(s: State) {
    s.listening && s.adb.Some? && !s.has ==> s.sent
  }

  lemma PromptKeeps(y: System, e: Event)
    requires Inv(y) && Enabled(y, e) && Prompt(y.s) && SendSucceeds(e)
    ensures Prompt(Next(y, e).s)
    ensures HandsOver(y, e) ==> !e.ConnectionData?
  {
    hide Connections;
  }

  ghost predicate AllJudged(s: State) {
    forall i :: 0 <= i < |s.handed| ==> Judged(s.handed[i], s.shaken)
  }

  lemma JudgedStep(y: System, e: Event)
    requires Inv(y) && Enabled(y, e) && Prompt(y.s) && SendSucceeds(e) && AllJudged(y.s)
    ensures AllJudged(Next(y, e).s)
  {
    hide HandsOver, Judged, Next, Inv, Enabled, SendSucceeds, Prompt;
    PromptKeeps(y, e);
    HandoverStep(y, e);
    LoadedByThen(y);
    if HandsOver(y, e) {
      HandoverJudged(y, e);
    }
  }

  /**
   * If sends succeed, each connection handed over is handshaken exactly once: it is handed over
   * once, and the agent is told to do the handshake precisely when this process did not.
   */
  lemma {:induction false} ExactlyOnce(ys: seq<System>, es: seq<Event>, k: nat)
    requires Run(ys, es) && k < |ys| && forall e :: e in es ==> SendSucceeds(e)
    ensures Prompt(ys[k].s)
    ensures var h := ys[k].s.handed;
            && (forall i :: 0 <= i < |h| ==> Judged(h[i], ys[k].s.shaken))
            && (forall i, j :: 0 <= i < j < |h| ==> h[i].conn != h[j].conn)
  {
    hide HandsOver, Judged, Next, Inv, Enabled, SendSucceeds;
    RunSafe(ys, es, k);
    DistinctHandovers(ys[k]);
    if k > 0 {
      ExactlyOnce(ys, es, k - 1);
      RunSafe(ys, es, k - 1);
      var y, e := ys[k - 1], es[k - 1];
      assert ys[k] == Next(y, e);
      PromptKeeps(y, e);
      JudgedStep(y, e);
    }
  }

  const SHAKE := ConnectionData(true, TooShort, true)
  const LOAD := ConnectionData(true, ForAgent(true), true)

  /** A run up to the moment when the agent is loaded, with the handshake done here. */
  lemma LoadedShaken() returns (ys: seq<System>, es: seq<Event>)
    ensures Run(ys, es) && |es| == 4
    ensures ys[4] == System(State(true, Some(0), true, false, false, false, true, false, false, [], {0}), Idle, [], 0,
                            1)
  {
    es := [ControlReady, ControlReadable(true, true), SHAKE, LOAD];
    var y1 := Next(START, es[0]);
    var y2 := Next(y1, es[1]);
    var y3 := Next(y2, es[2]);
    var y4 := Next(y3, es[3]);
    ys := [START, y1, y2, y3, y4];
  }

  /**
   * Without that condition it is false: after a failed send to an agent that was to skip the
   * handshake, data makes the loop try again and ask for a second handshake.
   */
  lemma SecondHandshake() returns (ys: seq<System>, es: seq<Event>)
    ensures Run(ys, es)
    ensures var s := ys[|es|].s; s.handed == [Handover(0, true)] && 0 in s.shaken
  {
    ys, es := LoadedShaken();
    var y5 := Next(ys[4], AgentStarts);
    var y6 := Next(y5, AgentMessage(false));
    var y7 := Next(y6, SHAKE);
    ys, es := ys + [y5, y6, y7], es + [AgentStarts, AgentMessage(false), SHAKE];
  }

  /** An agent that stops listening without taking the descriptors, and listens again, does make the check fail. */
  lemma StopWithoutAttach(s: State, ok: bool)
    requires s.loaded && s.adb.Some? && !s.sent && !s.failed
    ensures !Told(Told(s, StartListen, true), EndListen, true).failed
    ensures Told(Told(Told(s, StartListen, true), EndListen, true), StartListen, ok).failed
  {
  }

  // What the flags of the loop mean, told from the events so far.

  function MessageOf(e: Event): Option<Message> {
    match e
    case AgentStarts => Some(StartListen)
    case AgentAttaches => Some(Attached)
    case AgentRetries => Some(Closing)
    case AgentStops => Some(EndListen)
    case AgentCloses => Some(Closing)
    case _ => None
  }

  /** The messages that the agent has sent by the first `k` events. */
  function Posted(es: seq<Event>, k: nat): seq<Message>
    requires k <= |es|
  {
    if k == 0 then []
    else
      match MessageOf(es[k - 1])
      case None => Posted(es, k - 1)
      case Some(m) => Posted(es, k - 1) + [m]
  }

  /** How many of them have been read. */
  function Reads(es: seq<Event>, k: nat): nat
    requires k <= |es|
  {
    if k == 0 then 0 else Reads(es, k - 1) + if es[k - 1].AgentMessage? then 1 else 0
  }

  /** The message that event `i` reads. */
  function ReadAt(es: seq<Event>, i: nat): Option<Message>
    requires i < |es|
  {
    if es[i].AgentMessage? && Reads(es, i) < |Posted(es, i)| then Some(Posted(es, i)[Reads(es, i)]) else None
  }

  /** How often adbd has been heard on the control socket; connections are numbered by that. */
  function Arrivals(es: seq<Event>, k: nat): nat
    requires k <= |es|
  {
    if k == 0 then 0 else Arrivals(es, k - 1) + if es[k - 1].ControlReadable? then 1 else 0
  }

  /** The control socket has come up, and since then neither hung up nor failed to be read. */
  ghost predicate ControlUp(es: seq<Event>, k: nat)
    requires k <= |es|
  {
    exists i :: 0 <= i < k && es[i].ControlReady? && forall j :: i < j < k ==> !ControlLost(es[j])
  }

  predicate ControlLost(e: Event) {
    e.ControlHangup? || (e.ControlReadable? && !e.works)
  }

  /** A packet for the agent has attached it. */
  ghost predicate Loaded(es: seq<Event>, k: nat)
    requires k <= |es|
    decreases k, 0
  {
    exists i :: 0 <= i < k && Attaches(es, i)
  }

  ghost predicate Attaches(es: seq<Event>, i: nat)
    requires i < |es|
    decreases i, 2
  {
    es[i].ConnectionData? && es[i].packet == ForAgent(true) && !Loaded(es, i) && Shaken(es, i)
  }

  /** This process has done the handshake, and since then the connection has neither closed nor gone to the agent. */
  ghost predicate Shaken(es: seq<Event>, k: nat)
    requires k <= |es|
    decreases k, 1
  {
    exists i :: 0 <= i < k && Shakes(es, i)
                && forall j :: i < j < k ==> !Closes(es, j) && ReadAt(es, j) != Some(Attached)
  }

  ghost predicate Shakes(es: seq<Event>, i: nat)
    requires i < |es|
    decreases i, 2
  {
    es[i].ConnectionData? && es[i].good && !Loaded(es, i) && !Shaken(es, i)
  }

  /** The connection closes: it hangs up, the agent says so, or without an agent handshake or packet fails. */
  ghost predicate Closes(es: seq<Event>, i: nat)
    requires i < |es|
    decreases i, 2
  {
    || es[i].ConnectionHangup?
    || ReadAt(es, i) == Some(Closing)
    || (es[i].ConnectionData? && !Loaded(es, i) && if Shaken(es, i) then es[i].packet.Unreadable? else !es[i].good)
  }

  /** Connection `c` has been brought by adbd, and has not closed since. */
  ghost predicate Holding(es: seq<Event>, k: nat, c: nat)
    requires k <= |es|
  {
    exists i :: 0 <= i < k && Brings(es, i, c) && forall j :: i < j < k ==> !Closes(es, j)
  }

  predicate Brings(es: seq<Event>, i: nat, c: nat)
    requires i < |es|
  {
    es[i].ControlReadable? && es[i].works && Arrivals(es, i) == c
  }

  /** A chunk has been handled here, and no connection has closed since without an agent. */
  ghost predicate Active(es: seq<Event>, k: nat)
    requires k <= |es|
  {
    exists i :: 0 <= i < k && Handles(es, i) && forall j :: i < j < k ==> Closes(es, j) ==> Loaded(es, j)
  }

  ghost predicate Handles(es: seq<Event>, i: nat)
    requires i < |es|
  {
    es[i].ConnectionData? && es[i].packet.Chunk? && !Loaded(es, i) && Shaken(es, i)
  }

  /** The agent has said that it listens, and not since that it stops. */
  ghost predicate AgentListens(es: seq<Event>, k: nat)
    requires k <= |es|
  {
    exists i :: 0 <= i < k && ReadAt(es, i) == Some(StartListen)
                && forall j :: i < j < k ==> ReadAt(es, j) != Some(EndListen)
  }

  /** The agent has said that it took the connection, and not since that it closed it. */
  ghost predicate HasIt(es: seq<Event>, k: nat)
    requires k <= |es|
  {
    exists i :: 0 <= i < k && ReadAt(es, i) == Some(Attached)
                && forall j :: i < j < k ==> ReadAt(es, j) != Some(Closing)
  }

  /** Descriptors have been sent, and the agent has not said since that it took them. */
  ghost predicate Waits(es: seq<Event>, k: nat)
    requires k <= |es|
  {
    exists i :: 0 <= i < k && Hands(es, i) && forall j :: i < j < k ==> ReadAt(es, j) != Some(Attached)
  }

  /**
   * Descriptors are sent when there is a connection and an agent that listens: when it begins to, when the
   * connection comes, or when there is data on it; provided that sending works.
   */
  ghost predicate Hands(es: seq<Event>, i: nat)
    requires i < |es|
  {
    match es[i]
    case AgentMessage(ok) => ok && ReadAt(es, i) == Some(StartListen) && exists c: nat :: Holding(es, i, c)
    case ControlReadable(works, ok) => ok && works && Loaded(es, i) && AgentListens(es, i)
    case ConnectionData(_, _, ok) => ok && Loaded(es, i) && AgentListens(es, i)
    case _ => false
  }

  /** The loop's state is what the events say. */
  ghost predicate Matches(y: System, es: seq<Event>, k: nat)
    requires k <= |es|
  {
    && y.next == Arrivals(es, k) && Reads(es, k) <= |Posted(es, k)| && y.inbox == Posted(es, k)[Reads(es, k)..]
    && (y.s.control <==> ControlUp(es, k))
    && (y.s.loaded <==> Loaded(es, k)) && (y.s.performed <==> Shaken(es, k)) && (y.s.notified <==> Active(es, k))
    && (y.s.listening <==> AgentListens(es, k)) && (y.s.has <==> HasIt(es, k)) && (y.s.sent <==> Waits(es, k))
    && (forall c: nat :: y.s.adb == Some(c) <==> Holding(es, k, c))
    && (forall c: nat :: c in y.s.shaken <==> ShakenOnce(es, k, c))
  }

  /** This process has done the handshake on connection `c`. */
  ghost predicate ShakenOnce(es: seq<Event>, k: nat, c: nat)
    requires k <= |es|
  {
    exists i :: 0 <= i < k && Shakes(es, i) && Holding(es, i, c)
  }

  predicate ClosedBy(y: System, e: Event)
    requires Enabled(y, e)
  {
    || e.ConnectionHangup?
    || (e.AgentMessage? && y.inbox[0].Closing?)
    || (e.ConnectionData? && !y.s.loaded && if y.s.performed then e.packet.Unreadable? else !e.good)
  }

  predicate ShakenBy(y: System, e: Event) {
    e.ConnectionData? && e.good && !y.s.loaded && !y.s.performed
  }

  predicate HandedBy(y: System, e: Event)
    requires Enabled(y, e)
  {
    match e
    case AgentMessage(ok) => ok && y.inbox[0].StartListen? && y.s.adb.Some?
    case ControlReadable(works, ok) => ok && works && y.s.loaded && y.s.listening
    case ConnectionData(_, _, ok) => ok && y.s.loaded && y.s.listening
    case _ => false
  }

  /** One step, field by field. */
  predicate Moves(y: System, e: Event, z: System)
    requires Enabled(y, e)
  {
    var m := if e.AgentMessage? then Some(y.inbox[0]) else None;
    && z.next == y.next + (if e.ControlReadable? then 1 else 0)
    && z.inbox == (if e.AgentMessage? then y.inbox[1..]
                   else y.inbox + if MessageOf(e).Some? then [MessageOf(e).value] else [])
    && (z.s.control <==> e.ControlReady? || (y.s.control && !ControlLost(e)))
    && (z.s.loaded <==> y.s.loaded || (e.ConnectionData? && e.packet == ForAgent(true) && y.s.performed))
    && (z.s.listening <==> m == Some(StartListen) || (y.s.listening && m != Some(EndListen)))
    && (z.s.has <==> m == Some(Attached) || (y.s.has && m != Some(Closing)))
    && (z.s.sent <==> HandedBy(y, e) || (y.s.sent && m != Some(Attached)))
    && z.s.adb == (if e.ControlReadable? && e.works then Some(y.next) else if ClosedBy(y, e) then None else y.s.adb)
    && (z.s.performed <==> ShakenBy(y, e) || (y.s.performed && !ClosedBy(y, e) && m != Some(Attached)))
    && (z.s.notified <==> || (e.ConnectionData? && e.packet.Chunk? && !y.s.loaded && y.s.performed)
                          || (y.s.notified && !(ClosedBy(y, e) && !y.s.loaded)))
    && z.s.shaken == y.s.shaken + (if ShakenBy(y, e) && y.s.adb.Some? then {y.s.adb.value} else {})
  }

  lemma DataMoves(y: System, e: Event)
    requires Inv(y) && Enabled(y, e) && e.ConnectionData?
    ensures Moves(y, e, Next(y, e))
  {
    hide Connections, InStep;
  }

  lemma MessageMoves(y: System, e: Event)
    requires Inv(y) && Enabled(y, e) && e.AgentMessage?
    ensures Moves(y, e, Next(y, e))
  {
    hide Connections;
  }

  lemma OtherMoves(y: System, e: Event)
    requires Inv(y) && Enabled(y, e) && !e.ConnectionData? && !e.AgentMessage?
    ensures Moves(y, e, Next(y, e))
  {
    hide Connections, InStep;
  }

  lemma StepMoves(y: System, e: Event)
    requires Inv(y) && Enabled(y, e)
    ensures Moves(y, e, Next(y, e))
  {
    hide *;
    if e.ConnectionData? {
      DataMoves(y, e);
    } else if e.AgentMessage? {
      MessageMoves(y, e);
    } else {
      OtherMoves(y, e);
    }
  }

  // How each of these goes on by one event.

  lemma ControlOn(es: seq<Event>, k: nat)
    requires k < |es|
    ensures ControlUp(es, k + 1) <==> es[k].ControlReady? || (ControlUp(es, k) && !ControlLost(es[k]))
  {
    if i :| 0 <= i < k && es[i].ControlReady? && forall j :: i < j < k ==> !ControlLost(es[j]) {
      assert !ControlLost(es[k]) ==> forall j :: i < j < k + 1 ==> !ControlLost(es[j]);
    }
  }

  lemma LoadedOn(es: seq<Event>, k: nat)
    requires k < |es|
    ensures Loaded(es, k + 1) <==> Loaded(es, k) || Attaches(es, k)
  {
    hide Attaches;
  }

  lemma ShakenOn(es: seq<Event>, k: nat)
    requires k < |es|
    ensures Shaken(es, k + 1) <==>
              Shakes(es, k) || (Shaken(es, k) && !Closes(es, k) && ReadAt(es, k) != Some(Attached))
  {
    hide Shakes, Closes, ReadAt;
    if i :| 0 <= i < k && Shakes(es, i)
            && forall j :: i < j < k ==> !Closes(es, j) && ReadAt(es, j) != Some(Attached) {
      assert !Closes(es, k) && ReadAt(es, k) != Some(Attached) ==>
             forall j :: i < j < k + 1 ==> !Closes(es, j) && ReadAt(es, j) != Some(Attached);
    }
  }

  lemma HoldingOn(es: seq<Event>, k: nat, c: nat)
    requires k < |es|
    ensures Holding(es, k + 1, c) <==> Brings(es, k, c) || (Holding(es, k, c) && !Closes(es, k))
  {
    hide Brings, Closes;
    if i :| 0 <= i < k && Brings(es, i, c) && forall j :: i < j < k ==> !Closes(es, j) {
      assert !Closes(es, k) ==> forall j :: i < j < k + 1 ==> !Closes(es, j);
    }
  }

  lemma ActiveOn(es: seq<Event>, k: nat)
    requires k < |es|
    ensures Active(es, k + 1) <==> Handles(es, k) || (Active(es, k) && (Closes(es, k) ==> Loaded(es, k)))
  {
    hide Handles, Closes, Loaded;
    if i :| 0 <= i < k && Handles(es, i) && forall j :: i < j < k ==> Closes(es, j) ==> Loaded(es, j) {
      assert (Closes(es, k) ==> Loaded(es, k)) ==> forall j :: i < j < k + 1 ==> Closes(es, j) ==> Loaded(es, j);
    }
  }

  lemma ListensOn(es: seq<Event>, k: nat)
    requires k < |es|
    ensures AgentListens(es, k + 1) <==>
              ReadAt(es, k) == Some(StartListen) || (AgentListens(es, k) && ReadAt(es, k) != Some(EndListen))
  {
    hide ReadAt;
    if i :| 0 <= i < k && ReadAt(es, i) == Some(StartListen)
            && forall j :: i < j < k ==> ReadAt(es, j) != Some(EndListen) {
      assert ReadAt(es, k) != Some(EndListen) ==> forall j :: i < j < k + 1 ==> ReadAt(es, j) != Some(EndListen);
    }
  }

  lemma HasOn(es: seq<Event>, k: nat)
    requires k < |es|
    ensures HasIt(es, k + 1) <==> ReadAt(es, k) == Some(Attached) || (HasIt(es, k) && ReadAt(es, k) != Some(Closing))
  {
    hide ReadAt;
    if i :| 0 <= i < k && ReadAt(es, i) == Some(Attached)
            && forall j :: i < j < k ==> ReadAt(es, j) != Some(Closing) {
      assert ReadAt(es, k) != Some(Closing) ==> forall j :: i < j < k + 1 ==> ReadAt(es, j) != Some(Closing);
    }
  }

  lemma WaitsOn(es: seq<Event>, k: nat)
    requires k < |es|
    ensures Waits(es, k + 1) <==> Hands(es, k) || (Waits(es, k) && ReadAt(es, k) != Some(Attached))
  {
    hide Hands, ReadAt;
    if i :| 0 <= i < k && Hands(es, i) && forall j :: i < j < k ==> ReadAt(es, j) != Some(Attached) {
      assert ReadAt(es, k) != Some(Attached) ==> forall j :: i < j < k + 1 ==> ReadAt(es, j) != Some(Attached);
    }
  }

  /** What a step does is what its event does. */
  lemma SameMeaning(y: System, es: seq<Event>, k: nat)
    requires k < |es| && Matches(y, es, k) && Inv(y) && Enabled(y, es[k])
    ensures ReadAt(es, k) == if es[k].AgentMessage? then Some(y.inbox[0]) else None
    ensures ClosedBy(y, es[k]) <==> Closes(es, k)
    ensures ShakenBy(y, es[k]) <==> Shakes(es, k)
    ensures HandedBy(y, es[k]) <==> Hands(es, k)
    ensures ShakenBy(y, es[k]) ==> y.s.adb.Some?
  {
    hide Inv, Posted, Reads, Loaded, Shaken, Active, AgentListens, HasIt, Waits, Holding, ControlUp, Arrivals,
      ShakenOnce;
    if y.s.adb.Some? {
      assert Holding(es, k, y.s.adb.value);
    }
    if c: nat :| Holding(es, k, c) {
      assert y.s.adb == Some(c);
    }
  }

  lemma PostedOn(es: seq<Event>, k: nat)
    requires k < |es| && Reads(es, k) <= |Posted(es, k)|
    requires es[k].AgentMessage? ==> Reads(es, k) < |Posted(es, k)|
    ensures Reads(es, k + 1) <= |Posted(es, k + 1)|
    ensures Posted(es, k + 1)[Reads(es, k + 1)..]
            == var inbox := Posted(es, k)[Reads(es, k)..];
               if es[k].AgentMessage? then inbox[1..]
               else inbox + if MessageOf(es[k]).Some? then [MessageOf(es[k]).value] else []
  {
  }

  lemma InboxMoves(y: System, e: Event, z: System)
    requires Enabled(y, e) && Moves(y, e, z)
    ensures z.next == y.next + (if e.ControlReadable? then 1 else 0)
    ensures z.inbox == if e.AgentMessage? then y.inbox[1..]
                       else y.inbox + if MessageOf(e).Some? then [MessageOf(e).value] else []
    ensures e.AgentMessage? ==> y.inbox != []
  {
    hide MessageOf, ClosedBy, ShakenBy, HandedBy, ControlLost;
  }

  lemma InboxMatches(y: System, es: seq<Event>, k: nat)
    requires k <= |es| && Matches(y, es, k)
    ensures y.next == Arrivals(es, k) && Reads(es, k) <= |Posted(es, k)| && y.inbox == Posted(es, k)[Reads(es, k)..]
  {
    hide Loaded, Shaken, Active, AgentListens, HasIt, Waits, Holding, ControlUp, ShakenOnce, Posted, Reads, Arrivals;
  }

  lemma ArrivalsOn(es: seq<Event>, k: nat)
    requires k < |es|
    ensures Arrivals(es, k + 1) == Arrivals(es, k) + if es[k].ControlReadable? then 1 else 0
  {
  }

  lemma InboxOn(y: System, es: seq<Event>, k: nat, z: System)
    requires k < |es| && Matches(y, es, k) && Inv(y) && Enabled(y, es[k]) && Moves(y, es[k], z)
    ensures z.next == Arrivals(es, k + 1) && Reads(es, k + 1) <= |Posted(es, k + 1)|
    ensures z.inbox == Posted(es, k + 1)[Reads(es, k + 1)..]
  {
    hide *;
    InboxMoves(y, es[k], z);
    InboxMatches(y, es, k);
    ArrivalsOn(es, k);
    PostedOn(es, k);
  }

  lemma FlagsOn(y: System, es: seq<Event>, k: nat, z: System)
    requires k < |es| && Matches(y, es, k) && Inv(y) && Enabled(y, es[k]) && Moves(y, es[k], z)
    ensures z.s.control <==> ControlUp(es, k + 1)
    ensures z.s.loaded <==> Loaded(es, k + 1)
    ensures z.s.performed <==> Shaken(es, k + 1)
    ensures z.s.notified <==> Active(es, k + 1)
    ensures z.s.listening <==> AgentListens(es, k + 1)
    ensures z.s.has <==> HasIt(es, k + 1)
    ensures z.s.sent <==> Waits(es, k + 1)
  {
    SameMeaning(y, es, k);
    hide Inv, Enabled, Posted, Reads, ReadAt, Loaded, Shaken, Active, AgentListens, HasIt, Waits, Holding, ControlUp,
      Arrivals, ClosedBy, Closes, ShakenBy, Shakes, HandedBy, Hands, ControlLost;
    ControlOn(es, k);
    LoadedOn(es, k);
    ShakenOn(es, k);
    ActiveOn(es, k);
    ListensOn(es, k);
    HasOn(es, k);
    WaitsOn(es, k);
  }

  lemma HeldOn(y: System, es: seq<Event>, k: nat, z: System, c: nat)
    requires k < |es| && Matches(y, es, k) && Inv(y) && Enabled(y, es[k]) && Moves(y, es[k], z)
    ensures z.s.adb == Some(c) <==> Holding(es, k + 1, c)
  {
    SameMeaning(y, es, k);
    assert es[k].ControlReadable? ==> y.s.adb.None?;
    assert y.s.adb == Some(c) <==> Holding(es, k, c);
    assert y.next == Arrivals(es, k);
    hide Inv, Enabled, Matches, ReadAt, Holding, Arrivals, ClosedBy, Closes, ShakenBy, HandedBy, ControlLost;
    HoldingOn(es, k, c);
  }

  lemma ShakenOnceOn(es: seq<Event>, k: nat, c: nat)
    requires k < |es|
    ensures ShakenOnce(es, k + 1, c) <==> ShakenOnce(es, k, c) || (Shakes(es, k) && Holding(es, k, c))
  {
    hide Shakes, Holding;
    if ShakenOnce(es, k, c) {
      var i :| 0 <= i < k && Shakes(es, i) && Holding(es, i, c);
      assert i < k + 1;
    }
  }

  lemma ShookOn(y: System, es: seq<Event>, k: nat, z: System, c: nat)
    requires k < |es| && Matches(y, es, k) && Inv(y) && Enabled(y, es[k]) && Moves(y, es[k], z)
    ensures c in z.s.shaken <==> ShakenOnce(es, k + 1, c)
  {
    SameMeaning(y, es, k);
    assert y.s.adb == Some(c) <==> Holding(es, k, c);
    assert c in y.s.shaken <==> ShakenOnce(es, k, c);
    hide Inv, Enabled, Matches, ReadAt, Holding, Arrivals, ClosedBy, Closes, ShakenBy, HandedBy, ControlLost, Shakes,
      ShakenOnce;
    ShakenOnceOn(es, k, c);
  }

  lemma MatchesOn(y: System, es: seq<Event>, k: nat)
    requires k < |es| && Matches(y, es, k) && Inv(y) && Enabled(y, es[k])
    ensures Matches(Next(y, es[k]), es, k + 1)
  {
    var z := Next(y, es[k]);
    StepMoves(y, es[k]);
    InboxOn(y, es, k, z);
    FlagsOn(y, es, k, z);
    forall c: nat ensures z.s.adb == Some(c) <==> Holding(es, k + 1, c) {
      HeldOn(y, es, k, z, c);
    }
    forall c: nat ensures c in z.s.shaken <==> ShakenOnce(es, k + 1, c) {
      ShookOn(y, es, k, z, c);
    }
    hide Inv, Enabled, Next, Moves, Posted, Reads, Loaded, Shaken, Active, AgentListens, HasIt, Waits, Holding,
      ControlUp, Arrivals, ShakenOnce;
  }

  lemma MatchesFirst(es: seq<Event>)
    ensures Matches(START, es, 0)
  {
  }

  /** In every run the flags mean what the events say, at every moment. */
  lemma {:induction false} RunMatches(ys: seq<System>, es: seq<Event>, k: nat)
    requires Run(ys, es) && k < |ys|
    ensures Matches(ys[k], es, k)
  {
    hide Inv, Enabled, Next, Matches;
    if k == 0 {
      MatchesFirst(es);
    } else {
      RunMatches(ys, es, k - 1);
      RunSafe(ys, es, k - 1);
      assert Enabled(ys[k - 1], es[k - 1]) && ys[k] == Next(ys[k - 1], es[k - 1]);
      MatchesOn(ys[k - 1], es, k - 1);
    }
  }

  /** How many handovers there have been. */
  ghost function HandCount(es: seq<Event>, k: nat): nat
    requires k <= |es|
  {
    if k == 0 then 0 else HandCount(es, k - 1) + if Hands(es, k - 1) then 1 else 0
  }

  /** `handed` has one handover for each event that sends descriptors, of the connection there is then. */
  ghost predicate HandedExactly(handed: seq<Handover>, es: seq<Event>, k: nat)
    requires k <= |es|
  {
    |handed| == HandCount(es, k) && forall i :: 0 <= i < k && Hands(es, i) ==> HandedAt(handed, es, i)
  }

  ghost predicate HandedAt(handed: seq<Handover>, es: seq<Event>, i: nat)
    requires i < |es|
  {
    && HandCount(es, i) < |handed| && Holding(es, i + 1, handed[HandCount(es, i)].conn)
    && (handed[HandCount(es, i)].perform <==> !(es[i].AgentMessage? && Shaken(es, i)))
  }

  lemma HandsExactly(y: System, e: Event)
    requires Inv(y) && Enabled(y, e)
    ensures HandsOver(y, e) <==> HandedBy(y, e)
  {
    hide Connections;
  }

  lemma HandedMore(handed: seq<Handover>, es: seq<Event>, k: nat, h: Handover)
    requires k < |es| && HandedExactly(handed, es, k)
    requires Hands(es, k) ==> Holding(es, k + 1, h.conn) && (h.perform <==> !(es[k].AgentMessage? && Shaken(es, k)))
    ensures HandedExactly(if Hands(es, k) then handed + [h] else handed, es, k + 1)
  {
    hide Hands, Holding, Shaken;
    var more := if Hands(es, k) then handed + [h] else handed;
    forall i | 0 <= i < k + 1 && Hands(es, i) ensures HandedAt(more, es, i) {
      if i < k {
        HandedStill(handed, more, es, i);
      }
    }
    hide HandedAt;
  }

  lemma HandedStill(handed: seq<Handover>, more: seq<Handover>, es: seq<Event>, i: nat)
    requires i < |es| && HandedAt(handed, es, i) && handed <= more
    ensures HandedAt(more, es, i)
  {
    hide Holding, Shaken, HandCount;
  }

  lemma HandedOn(y: System, es: seq<Event>, k: nat, z: System) returns (h: Handover)
    requires k < |es| && Matches(y, es, k) && Inv(y) && Enabled(y, es[k]) && z == Next(y, es[k])
    requires Matches(z, es, k + 1)
    ensures Hands(es, k) ==> Holding(es, k + 1, h.conn) && (h.perform <==> !(es[k].AgentMessage? && Shaken(es, k)))
    ensures z.s.handed == if Hands(es, k) then y.s.handed + [h] else y.s.handed
  {
    SameMeaning(y, es, k);
    HandsExactly(y, es[k]);
    HandoverStep(y, es[k]);
    assert z.s.adb.Some? ==> Holding(es, k + 1, z.s.adb.value);
    assert y.s.performed <==> Shaken(es, k);
    hide Inv, Enabled, Next, Matches, Hands, Holding, Shaken, HandedBy, Closes, Shakes, ReadAt;
    h := Handover(if z.s.adb.Some? then z.s.adb.value else 0, !(es[k].AgentMessage? && y.s.performed));
  }

  /** And the handovers are those that the events call for. */
  lemma {:induction false} RunHands(ys: seq<System>, es: seq<Event>, k: nat)
    requires Run(ys, es) && k < |ys|
    ensures HandedExactly(ys[k].s.handed, es, k)
  {
    hide Inv, Enabled, Next, Matches, Hands;
    if k > 0 {
      RunHands(ys, es, k - 1);
      RunMatches(ys, es, k - 1);
      RunMatches(ys, es, k);
      RunSafe(ys, es, k - 1);
      assert Enabled(ys[k - 1], es[k - 1]) && ys[k] == Next(ys[k - 1], es[k - 1]);
      var h := HandedOn(ys[k - 1], es, k - 1, ys[k]);
      HandedMore(ys[k - 1].s.handed, es, k - 1, h);
    }
  }

  // Running the loop.

  /** The system after events that are tried one after the other; what cannot happen then is passed over. */
  ghost function Executed(es: seq<Event>): System {
    if es == [] then START
    else
      var y, e := Executed(es[..|es| - 1]), es[|es| - 1];
      if Enabled(y, e) then Next(y, e) else y
  }

  /** A run is carried out to the end. */
  lemma {:induction false} RunExecuted(ys: seq<System>, es: seq<Event>)
    requires Run(ys, es)
    ensures Executed(es) == ys[|es|]
  {
    hide Next, Enabled;
    if es != [] {
      var n := |es| - 1;
      RunExecuted(ys[..n + 1], es[..n]);
      assert Enabled(ys[n], es[n]) && ys[n + 1] == Next(ys[n], es[n]);
    }
  }

  /** Whatever is tried, what happens is a run. */
  lemma {:induction false} ExecutedRuns(es: seq<Event>) returns (ys: seq<System>, ts: seq<Event>)
    ensures Run(ys, ts) && ys[|ts|] == Executed(es) && forall t :: t in ts ==> t in es
  {
    hide Next, Enabled;
    ys, ts := [START], [];
    if es != [] {
      var e := es[|es| - 1];
      ys, ts := ExecutedRuns(es[..|es| - 1]);
      if Enabled(ys[|ts|], e) {
        ys, ts := ys + [Next(ys[|ts|], e)], ts + [e];
      }
    }
  }

  predicate OfLoop(e: Event) {
    || e.AgentMessage? || e.ControlReadable? || e.ControlHangup? || e.ConnectionData? || e.ConnectionHangup?
    || e.WakeUp?
  }

  /** What one turn of the poll loop does about an event that poll reports. */
  method Poll(a: AdbConnectionState, e: Event, message: Message, newFd: nat)
    requires OfLoop(e)
    modifies a
    ensures a.View() == match e
                        case AgentMessage(ok) => Told(old(a.View()), message, ok)
                        case ControlReadable(works, ok) =>
                          Connected(old(a.View()), if works then Some(newFd) else None, ok)
                        case ControlHangup => HungUp(old(a.View()))
                        case ConnectionData(good, p, ok) => DataArrived(old(a.View()), good, p, ok)
                        case ConnectionHangup => Dropped(old(a.View()))
                        case _ => old(a.View())
  {
    hide Told, Connected, HungUp, DataArrived, Dropped;
    match e
    case AgentMessage(ok) => a.HandleAgentMessage(message, ok);
    case ControlReadable(works, ok) => a.HandleControlSocket(if works then Some(newFd) else None, ok);
    case ControlHangup => a.HandleControlHangup();
    case ConnectionData(good, p, ok) => a.HandleConnectionData(good, p, ok);
    case ConnectionHangup => a.HandleConnectionHangup();
    case WakeUp =>
  }

  /** The agent at the other end: its phase, the messages it has sent, and how many descriptors it has taken. */
  class Agent {
    var phase: Phase
    var inbox: seq<Message>
    var received: nat

    constructor ()
      ensures phase == Idle && inbox == [] && received == 0
    {
      phase, inbox, received := Idle, [], 0;
    }

    method Act(e: Event, loaded: bool, handed: seq<Handover>, ghost y: System)
      requires !OfLoop(e) && !e.ControlReady?
      requires y == System(y.s, phase, inbox, received, y.next) && loaded == y.s.loaded && handed == y.s.handed
      modifies this
      ensures System(y.s, phase, inbox, received, y.next) == if Enabled(y, e) then Next(y, e) else y
    {
      match e {
        case AgentStarts =>
          if loaded && phase.Idle? {
            phase, inbox := Listening, inbox + [StartListen];
          }
        case AgentAttaches =>
          if phase.Listening? && received < |handed| {
            phase, inbox, received := Accepted, inbox + [Attached], received + 1;
          }
        case AgentRetries =>
          if phase.Accepted? && 0 < received <= |handed| && handed[received - 1].perform {
            phase, inbox := Listening, inbox + [Closing];
          }
        case AgentStops =>
          if phase.Accepted? {
            phase, inbox := Open, inbox + [EndListen];
          }
        case AgentCloses =>
          if phase.Open? {
            phase, inbox := Idle, inbox + [Closing];
          }
      }
    }
  }

  /** Once Inv is known of the system, so is this of its loop. */
  lemma LoopSafe(y: System)
    requires Inv(y)
    ensures !y.s.failed && (y.s.listening || y.s.has || y.s.sent ==> y.s.loaded)
    ensures (y.s.has || y.s.sent ==> y.s.adb.Some?)
    ensures forall i, j :: 0 <= i < j < |y.s.handed| ==> y.s.handed[i].conn != y.s.handed[j].conn
  {
  }

  lemma ExecutedSafe(es: seq<Event>)
    ensures Inv(Executed(es))
    ensures (forall e :: e in es ==> SendSucceeds(e)) ==> AllJudged(Executed(es).s)
  {
    hide Inv, Executed, SendSucceeds, Judged;
    var ys, ts := ExecutedRuns(es);
    RunSafe(ys, ts, |ts|);
    if forall e :: e in es ==> SendSucceeds(e) {
      ExactlyOnce(ys, ts, |ts|);
    }
  }

  /**
   * The poll loop run against an arbitrary agent, adbd and arbitrary results of system calls. At every
   * moment no debug check of the loop has failed, an agent that listens, holds the connection or was
   * sent descriptors is loaded, descriptors sent or held keep the connection valid, and no connection
   * has been handed over twice; if sends succeed, the agent knows of every handshake.
   */
  method RunPollLoop(es: seq<Event>) returns (a: AdbConnectionState, ghost ys: seq<System>, ghost ts: seq<Event>)
    ensures fresh(a) && a.View() == Executed(es).s
    ensures Run(ys, ts) && a.View() == ys[|ts|].s && Matches(ys[|ts|], ts, |ts|) && forall t :: t in ts ==> t in es
    ensures HandedExactly(a.handed, ts, |ts|)
    ensures !a.failed
    ensures a.agentListening || a.agentHasSocket || a.sentAgentFds ==> a.agentLoaded
    ensures a.agentHasSocket || a.sentAgentFds ==> a.adbConnectionSocket.Some?
    ensures forall i, j :: 0 <= i < j < |a.handed| ==> a.handed[i].conn != a.handed[j].conn
    ensures (forall e :: e in es ==> SendSucceeds(e)) ==> forall h :: h in a.handed ==> Judged(h, a.shaken)
  {
    hide Inv, Next, Enabled, SendSucceeds, Judged, Executed, OfLoop, Matches, HandedExactly;
    a := new AdbConnectionState();
    var agent := new Agent();
    var next := 0;
    NothingExecuted();
    for i := 0 to |es|
      invariant fresh(a) && fresh(agent)
      invariant System(a.View(), agent.phase, agent.inbox, agent.received, next) == Executed(es[..i])
    {
      ghost var y := Executed(es[..i]);
      OneMore(es, i);
      next := Turn(a, agent, es[i], next, y);
    }
    assert es[..|es|] == es;
    ExecutedSafe(es);
    LoopSafe(Executed(es));
    ys, ts := ExecutedRuns(es);
    RunMatches(ys, ts, |ts|);
    RunHands(ys, ts, |ts|);
  }

  lemma NothingExecuted()
    ensures Executed([]) == START
  {
  }

  lemma OneMore(es: seq<Event>, i: nat)
    requires i < |es|
    ensures var y := Executed(es[..i]);
            Executed(es[..i + 1]) == if Enabled(y, es[i]) then Next(y, es[i]) else y
  {
    hide Next, Enabled;
    assert es[..i + 1][..i] == es[..i];
  }

  /**
   * One event: a turn of the loop if it concerns a descriptor that the loop polls, a new control
   * socket, or the agent.
   */
  method Turn(a: AdbConnectionState, agent: Agent, e: Event, next: nat, ghost y: System) returns (next': nat)
    requires y == System(a.View(), agent.phase, agent.inbox, agent.received, next)
    modifies a, agent
    ensures System(a.View(), agent.phase, agent.inbox, agent.received, next') == if Enabled(y, e) then Next(y, e) else y
  {
    hide Told, Connected, HungUp, DataArrived, Dropped;
    next' := next;
    if e.ControlReady? {
      if !a.controlSock {
        a.controlSock := true;
      }
    } else if !OfLoop(e) {
      agent.Act(e, a.agentLoaded, a.handed, y);
    } else if a.controlSock && a.Polls(e) && (e.AgentMessage? ==> agent.inbox != []) {
      Poll(a, e, if agent.inbox != [] then agent.inbox[0] else Closing, next);
      if e.AgentMessage? {
        agent.inbox := agent.inbox[1..];
      } else if e.ControlReadable? {
        next' := next + 1;
      }
    }
  }
}
