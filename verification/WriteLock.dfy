/**
 * The eventfd that serialises writing to a connection: ScopedEventFdLock of
 * adbconnection/adbconnection.cc and of dt_fd_forward/dt_fd_forward.cc. Reading an eventfd takes
 * its whole count, blocking while that is 0; writing adds to it.
 */
module WriteLock {
  import opened Bytes

  /** Both this process and the agent hold a descriptor of the connection. */
  datatype Owner = Process | Agent

  datatype Work =
    | Packet(owner: Owner, conn: nat, bytes: seq<byte>, done: nat)  // writing a packet, `done` bytes of it sent
    | Socket(owner: Owner)                                         // closing or replacing the descriptor
    | Nothing                                                      // there was no connection

  /** A thread outside, or inside with what it read from the eventfd. */
  datatype Thread = Out | In(data: nat, work: Work)

  /** Part of a packet that one holder of the lock sent in one go. */
  datatype Fragment = Fragment(packet: seq<byte>, sent: nat)

  /** `fragments` is the history of what was sent on each connection by past holders of the lock. */
  datatype State = State(
    counter: nat,
    threads: seq<Thread>,
    process: Option<nat>,
    agent: Option<nat>,
    wire: map<nat, seq<byte>>,
    fragments: map<nat, seq<Fragment>>)

  function SocketOf(s: State, o: Owner): Option<nat> {
    if o.Process? then s.process else s.agent
  }

  function Wire(s: State, c: nat): seq<byte> {
    if c in s.wire then s.wire[c] else []
  }

  function Fragments(s: State, c: nat): seq<Fragment> {
    if c in s.fragments then s.fragments[c] else []
  }

  datatype Event =
    | LockToSend(t: nat, owner: Owner, bytes: seq<byte>)
    | LockSocket(t: nat, owner: Owner)
    | Send(t: nat, n: nat)
    | SetSocket(t: nat, socket: Option<nat>)
    | Unlock(t: nat)
    | AgentReceives(conn: nat)

  predicate Enabled(s: State, e: Event) {
    match e
    case LockToSend(t, o, _) => t < |s.threads| && s.threads[t].Out? && s.counter > 0
    case LockSocket(t, o) => t < |s.threads| && s.threads[t].Out? && s.counter > 0
    case Send(t, n) =>
      && t < |s.threads| && s.threads[t].In? && s.threads[t].work.Packet?
      && s.threads[t].work.done + n <= |s.threads[t].work.bytes|
    case SetSocket(t, _) => t < |s.threads| && s.threads[t].In? && s.threads[t].work.Socket?
    case Unlock(t) => t < |s.threads| && s.threads[t].In?
    case AgentReceives(_) => s.agent.None?
  }

  function Locked(s: State, t: nat, w: Work): State
    requires t < |s.threads|
  {
    s.(counter := 0, threads := s.threads[t := In(s.counter, w)])
  }

  function Next(s: State, e: Event): State
    requires Enabled(s, e)
  {
    match e
    case LockToSend(t, o, bytes) =>
      Locked(s, t, if SocketOf(s, o).Some? then Packet(o, SocketOf(s, o).value, bytes, 0) else Nothing)
    case LockSocket(t, o) => Locked(s, t, Socket(o))
    case Send(t, n) =>
      var In(d, w) := s.threads[t];
      s.(threads := s.threads[t := In(d, w.(done := w.done + n))],
         wire := s.wire[w.conn := Wire(s, w.conn) + w.bytes[w.done..w.done + n]])
    case SetSocket(t, socket) =>
      if s.threads[t].work.owner.Process? then s.(process := socket) else s.(agent := socket)
    case Unlock(t) =>
      var In(d, w) := s.threads[t];
      var u := s.(counter := s.counter + d, threads := s.threads[t := Out]);
      if w.Packet? then u.(fragments := s.fragments[w.conn := Fragments(s, w.conn) + [Fragment(w.bytes, w.done)]])
      else u
    case AgentReceives(c) => s.(agent := Some(c))
  }

  /** Any number of threads, all outside, and the eventfd at 1. */
  ghost predicate Initial(s: State) {
    s.counter == 1 && s.process.None? && s.agent.None? && s.wire == map[] && s.fragments == map[]
    && forall t :: 0 <= t < |s.threads| ==> s.threads[t].Out?
  }

  ghost predicate Run(ss: seq<State>, es: seq<Event>) {
    && |ss| == |es| + 1 && Initial(ss[0])
    && forall k {:trigger es[k]} :: 0 <= k < |es| ==> Enabled(ss[k], es[k]) && ss[k + 1] == Next(ss[k], es[k])
  }

  /** What the threads hold of the count. */
  function Held(threads: seq<Thread>): nat {
    if threads == [] then 0
    else Held(threads[..|threads| - 1]) + (if threads[|threads| - 1].In? then threads[|threads| - 1].data else 0)
  }

  lemma {:induction false} HeldUpdate(threads: seq<Thread>, t: nat, x: Thread)
    requires t < |threads|
    ensures Held(threads[t := x]) - (if x.In? then x.data else 0)
            == Held(threads) - (if threads[t].In? then threads[t].data else 0)
  {
    var n := |threads| - 1;
    if t < n {
      HeldUpdate(threads[..n], t, x);
      assert threads[t := x][..n] == threads[..n][t := x];
    } else {
      assert threads[t := x][..n] == threads[..n];
    }
  }

  lemma {:induction false} HeldAtLeast(threads: seq<Thread>, t: nat)
    requires t < |threads| && threads[t].In?
    ensures threads[t].data <= Held(threads)
  {
    if t < |threads| - 1 {
      HeldAtLeast(threads[..|threads| - 1], t);
    }
  }

  lemma {:induction false} NoneHeld(threads: seq<Thread>)
    requires forall t :: 0 <= t < |threads| ==> threads[t].Out?
    ensures Held(threads) == 0
  {
    if threads != [] {
      NoneHeld(threads[..|threads| - 1]);
    }
  }

  /** Two threads inside hold two shares. */
  lemma BothHeld(threads: seq<Thread>, t: nat, u: nat)
    requires t < |threads| && u < |threads| && t != u && threads[t].In? && threads[u].In?
    ensures threads[t].data + threads[u].data <= Held(threads)
  {
    HeldUpdate(threads, t, Out);
    HeldAtLeast(threads[t := Out], u);
  }

  /** The count in the eventfd and in the threads is 1, so one thread at most is inside. */
  ghost predicate Exclusive(s: State) {
    && s.counter + Held(s.threads) == 1
    && (forall t :: 0 <= t < |s.threads| && s.threads[t].In? ==> s.threads[t].data >= 1)
    && (forall t, u :: 0 <= t < |s.threads| && 0 <= u < |s.threads| && s.threads[t].In? && s.threads[u].In? ==> t == u)
  }

  /** A packet being written goes to the connection its owner has. */
  ghost predicate Steady(s: State) {
    forall t :: 0 <= t < |s.threads| && s.threads[t].In? && s.threads[t].work.Packet? ==>
      var w := s.threads[t].work; SocketOf(s, w.owner) == Some(w.conn) && w.done <= |w.bytes|
  }

  lemma ExclusiveFrom(s: State)
    requires s.counter + Held(s.threads) == 1
    requires forall t :: 0 <= t < |s.threads| && s.threads[t].In? ==> s.threads[t].data >= 1
    ensures Exclusive(s)
  {
    forall t, u | 0 <= t < |s.threads| && 0 <= u < |s.threads| && s.threads[t].In? && s.threads[u].In? ensures t == u {
      if t != u {
        BothHeld(s.threads, t, u);
      }
    }
  }

  lemma ExclusiveKept(s: State, e: Event)
    requires Exclusive(s) && Enabled(s, e)
    ensures Exclusive(Next(s, e))
  {
    hide Held;
    var z := Next(s, e);
    match e
    case AgentReceives(_) =>
    case SetSocket(_, _) =>
    case _ =>
      HeldUpdate(s.threads, e.t, z.threads[e.t]);
      ExclusiveFrom(z);
  }

  lemma SteadyKept(s: State, e: Event)
    requires Exclusive(s) && Steady(s) && Enabled(s, e)
    ensures Steady(Next(s, e))
  {
    hide Held;
  }

  /** The sent parts of fragments, one after the other. */
  function Joined(fs: seq<Fragment>): seq<byte> {
    if fs == [] then []
    else
      var f := fs[|fs| - 1];
      Joined(fs[..|fs| - 1]) + if f.sent <= |f.packet| then f.packet[..f.sent] else f.packet
  }

  ghost predicate Sending(s: State, t: int, c: nat) {
    0 <= t < |s.threads| && s.threads[t].In? && s.threads[t].work.Packet? && s.threads[t].work.conn == c
  }

  /**
   * Packets never mix: connection `c` carries what the past holders sent, and then what the present
   * holder has sent.
   */
  ghost predicate Unmixed(s: State, c: nat) {
    && (forall t :: Sending(s, t, c) ==> var w := s.threads[t].work;
          w.done <= |w.bytes| && Wire(s, c) == Joined(Fragments(s, c)) + w.bytes[..w.done])
    && ((forall t :: !Sending(s, t, c)) ==> Wire(s, c) == Joined(Fragments(s, c)))
  }

  lemma JoinedMore(fs: seq<Fragment>, f: Fragment)
    requires f.sent <= |f.packet|
    ensures Joined(fs + [f]) == Joined(fs) + f.packet[..f.sent]
  {
    assert (fs + [f])[..|fs|] == fs;
  }

  lemma NoOtherInside(s: State, t: nat)
    requires Exclusive(s) && t < |s.threads| && s.threads[t].In?
    ensures forall u, c :: Sending(s, u, c) ==> u == t
  {
  }

  lemma NobodyInside(s: State)
    requires Exclusive(s) && s.counter > 0
    ensures forall u, c :: !Sending(s, u, c)
  {
    forall u | 0 <= u < |s.threads| && s.threads[u].In? ensures false {
      HeldAtLeast(s.threads, u);
    }
  }

  lemma LockUnmixed(s: State, e: Event, c: nat)
    requires Exclusive(s) && Unmixed(s, c) && Enabled(s, e) && (e.LockToSend? || e.LockSocket?)
    ensures Unmixed(Next(s, e), c)
  {
    NobodyInside(s);
    hide Exclusive, Joined;
    var z := Next(s, e);
    assert Wire(z, c) == Joined(Fragments(z, c)) + [];
    forall t | Sending(z, t, c) ensures t == e.t {
      assert t != e.t ==> Sending(s, t, c);
    }
  }

  lemma SendUnmixed(s: State, e: Event, c: nat)
    requires Exclusive(s) && Unmixed(s, c) && Enabled(s, e) && e.Send?
    ensures Unmixed(Next(s, e), c)
  {
    NoOtherInside(s, e.t);
    hide Exclusive, Joined;
    var z := Next(s, e);
    var w := s.threads[e.t].work;
    if w.conn == c {
      assert Sending(s, e.t, c) && Sending(z, e.t, c);
      assert w.bytes[..w.done + e.n] == w.bytes[..w.done] + w.bytes[w.done..w.done + e.n];
    } else {
      assert forall t :: Sending(z, t, c) ==> Sending(s, t, c);
    }
  }

  lemma UnlockUnmixed(s: State, e: Event, c: nat)
    requires Exclusive(s) && Unmixed(s, c) && Enabled(s, e) && e.Unlock?
    ensures Unmixed(Next(s, e), c)
  {
    NoOtherInside(s, e.t);
    hide Exclusive, Joined;
    var z := Next(s, e);
    var w := s.threads[e.t].work;
    forall t ensures !Sending(z, t, c) {
      assert Sending(z, t, c) ==> Sending(s, t, c);
    }
    if w.Packet? && w.conn == c {
      assert Sending(s, e.t, c);
      JoinedMore(Fragments(s, c), Fragment(w.bytes, w.done));
      assert Wire(z, c) == Joined(Fragments(z, c));
    } else {
      assert forall t :: !Sending(s, t, c);
      assert Wire(z, c) == Joined(Fragments(z, c));
    }
  }

  lemma UnmixedKept(s: State, e: Event, c: nat)
    requires Exclusive(s) && Unmixed(s, c) && Enabled(s, e)
    ensures Unmixed(Next(s, e), c)
  {
    match e
    case LockToSend(_, _, _) => LockUnmixed(s, e, c);
    case LockSocket(_, _) => LockUnmixed(s, e, c);
    case Send(_, _) => SendUnmixed(s, e, c);
    case Unlock(_) => UnlockUnmixed(s, e, c);
    case _ =>
      var z := Next(s, e);
      assert forall t :: Sending(z, t, c) <==> Sending(s, t, c);
  }

  /**
   * For any number of threads and in every interleaving: the count is conserved, so one party at
   * most is inside; while a packet is being written its connection is neither closed nor replaced;
   * and on no connection do the bytes of two packets mix.
   */
  lemma {:induction false} RunSafe(ss: seq<State>, es: seq<Event>, k: nat, c: nat)
    requires Run(ss, es) && k < |ss|
    ensures Exclusive(ss[k]) && Steady(ss[k]) && Unmixed(ss[k], c)
  {
    if k == 0 {
      NoneHeld(ss[0].threads);
      assert forall t :: !Sending(ss[0], t, c);
    } else {
      hide Exclusive, Steady, Unmixed, Enabled, Next;
      RunSafe(ss, es, k - 1, c);
      assert ss[k] == Next(ss[k - 1], es[k - 1]);
      ExclusiveKept(ss[k - 1], es[k - 1]);
      SteadyKept(ss[k - 1], es[k - 1]);
      UnmixedKept(ss[k - 1], es[k - 1], c);
    }
  }

  /** The socket a packet is being written to stays as it is until its writer unlocks. */
  lemma SocketStays(s: State, e: Event, t: nat)
    requires Exclusive(s) && Steady(s) && Enabled(s, e)
    requires t < |s.threads| && s.threads[t].In? && s.threads[t].work.Packet? && e != Unlock(t)
    ensures var w := s.threads[t].work; SocketOf(Next(s, e), w.owner) == SocketOf(s, w.owner) == Some(w.conn)
  {
    hide Held;
  }

  /** The writer sends all of its packet before it unlocks. */
  predicate Finishes(s: State, e: Event)
    requires Enabled(s, e)
  {
    e.Unlock? && s.threads[e.t].work.Packet? ==> s.threads[e.t].work.done == |s.threads[e.t].work.bytes|
  }

  ghost predicate AllWhole(s: State, c: nat) {
    forall i :: 0 <= i < |Fragments(s, c)| ==> Fragments(s, c)[i].sent == |Fragments(s, c)[i].packet|
  }

  function Packets(fs: seq<Fragment>): seq<byte> {
    if fs == [] then [] else Packets(fs[..|fs| - 1]) + fs[|fs| - 1].packet
  }

  lemma {:induction false} WholeJoined(fs: seq<Fragment>)
    requires forall i :: 0 <= i < |fs| ==> fs[i].sent == |fs[i].packet|
    ensures Joined(fs) == Packets(fs)
  {
    if fs != [] {
      WholeJoined(fs[..|fs| - 1]);
    }
  }

  lemma WholeStep(s: State, e: Event, c: nat)
    requires Enabled(s, e) && Finishes(s, e) && AllWhole(s, c)
    ensures AllWhole(Next(s, e), c)
  {
    var z := Next(s, e);
    if e.Unlock? && s.threads[e.t].work.Packet? && s.threads[e.t].work.conn == c {
      var w := s.threads[e.t].work;
      assert Fragments(z, c) == Fragments(s, c) + [Fragment(w.bytes, w.done)];
    } else {
      assert Fragments(z, c) == Fragments(s, c);
    }
  }

  /** If no write fails part way, a connection carries whole packets whenever the lock is free. */
  lemma {:induction false} WholePackets(ss: seq<State>, es: seq<Event>, k: nat, c: nat)
    requires Run(ss, es) && k < |ss| && forall j :: 0 <= j < |es| ==> Finishes(ss[j], es[j])
    ensures AllWhole(ss[k], c)
    ensures ss[k].counter > 0 ==> Wire(ss[k], c) == Packets(Fragments(ss[k], c))
  {
    if k > 0 {
      WholePackets(ss, es, k - 1, c);
      var s, e := ss[k - 1], es[k - 1];
      assert ss[k] == Next(s, e) && Finishes(s, e);
      WholeStep(s, e, c);
    } else {
      assert Fragments(ss[0], c) == [];
    }
    hide Next, Enabled, Finishes, Initial;
    WholeJoined(Fragments(ss[k], c));
    RunSafe(ss, es, k, c);
    if ss[k].counter > 0 {
      NobodyInside(ss[k]);
    }
  }

  // What the descriptors are, and where packets go, told from the events.

  /** Thread `t` took the lock by event `i` and still has it before event `k`. */
  ghost predicate HoldsSince(es: seq<Event>, i: nat, k: nat, t: nat) {
    && i < k <= |es| && (es[i].LockToSend? || es[i].LockSocket?) && es[i].t == t
    && forall m :: i < m < k ==> es[m] != Unlock(t)
  }

  /** How much thread `t` sends by events `i` to `k`. */
  function SentBetween(es: seq<Event>, i: nat, k: nat, t: nat): nat
    requires i <= k <= |es|
  {
    if i == k then 0
    else SentBetween(es, i, k - 1, t) + if es[k - 1].Send? && es[k - 1].t == t then es[k - 1].n else 0
  }

  /** What a thread that took the lock by event `i` does with it. */
  ghost function Purpose(s: State, es: seq<Event>, i: nat, k: nat): Work
    requires i < k <= |es| && (es[i].LockToSend? || es[i].LockSocket?)
  {
    match es[i]
    case LockToSend(t, o, bytes) =>
      (match SocketOf(s, o)
       case None => Nothing
       case Some(c) => Packet(o, c, bytes, SentBetween(es, i + 1, k, t)))
    case LockSocket(_, o) => Socket(o)
    case _ => Nothing
  }

  /** A thread inside does what it took the lock for. */
  lemma {:induction false} InsideFor(ss: seq<State>, es: seq<Event>, i: nat, k: nat, t: nat)
    requires Run(ss, es) && HoldsSince(es, i, k, t)
    ensures t < |ss[k].threads| && ss[k].threads[t].In? && ss[k].threads[t].work == Purpose(ss[i], es, i, k)
    decreases k
  {
    assert Enabled(ss[k - 1], es[k - 1]) && ss[k] == Next(ss[k - 1], es[k - 1]);
    if i < k - 1 {
      InsideFor(ss, es, i, k - 1, t);
      assert es[k - 1] != Unlock(t);
    }
  }

  /** And it is inside only if it took the lock and has not given it back. */
  lemma {:induction false} InsideSince(ss: seq<State>, es: seq<Event>, k: nat, t: nat) returns (i: nat)
    requires Run(ss, es) && k < |ss| && t < |ss[k].threads| && ss[k].threads[t].In?
    ensures HoldsSince(es, i, k, t)
    decreases k
  {
    if k > 0 {
      var s, e := ss[k - 1], es[k - 1];
      assert Enabled(s, e) && ss[k] == Next(s, e);
      if (e.LockToSend? || e.LockSocket?) && e.t == t {
        i := k - 1;
      } else {
        i := InsideSince(ss, es, k - 1, t);
      }
    } else {
      assert false;
    }
  }

  /** The lock is free exactly when all threads are outside. */
  lemma FreeExactly(s: State)
    requires Exclusive(s)
    ensures s.counter > 0 <==> forall t :: 0 <= t < |s.threads| ==> s.threads[t].Out?
  {
    if s.counter > 0 {
      forall t | 0 <= t < |s.threads| ensures s.threads[t].Out? {
        if s.threads[t].In? {
          HeldAtLeast(s.threads, t);
        }
      }
    } else if forall t :: 0 <= t < |s.threads| ==> s.threads[t].Out? {
      NoneHeld(s.threads);
    }
  }

  /**
   * Event `i` makes `v` the descriptor of `o`: it is set by a thread that took the lock for that, or the
   * agent receives it.
   */
  ghost predicate SetsFor(es: seq<Event>, i: nat, o: Owner, v: Option<nat>) {
    && i < |es|
    && match es[i]
       case SetSocket(t, socket) => v == socket && exists j: nat :: HoldsSince(es, j, i, t) && es[j] == LockSocket(t, o)
       case AgentReceives(c) => o.Agent? && v == Some(c)
       case _ => false
  }

  /** The last of these before event `k`. */
  ghost predicate LastSet(es: seq<Event>, k: nat, o: Owner, i: nat, v: Option<nat>) {
    i < k && SetsFor(es, i, o, v) && forall m: nat, w :: i < m < k ==> !SetsFor(es, m, o, w)
  }

  ghost predicate NeverSet(es: seq<Event>, k: nat, o: Owner) {
    forall m: nat, w :: m < k ==> !SetsFor(es, m, o, w)
  }

  lemma SetStep(ss: seq<State>, es: seq<Event>, k: nat, o: Owner)
    requires Run(ss, es) && k < |es|
    ensures forall v :: SetsFor(es, k, o, v) ==> SocketOf(ss[k + 1], o) == v
    ensures (forall v :: !SetsFor(es, k, o, v)) ==> SocketOf(ss[k + 1], o) == SocketOf(ss[k], o)
  {
    var s, e := ss[k], es[k];
    assert Enabled(s, e) && ss[k + 1] == Next(s, e);
    match e {
      case SetSocket(t, socket) =>
        var i := InsideSince(ss, es, k, t);
        InsideFor(ss, es, i, k, t);
        assert s.threads[t].work.Socket? && es[i] == LockSocket(t, s.threads[t].work.owner);
        assert SetsFor(es, k, s.threads[t].work.owner, socket);
        forall v | SetsFor(es, k, o, v) ensures SocketOf(ss[k + 1], o) == v {
          var j: nat :| HoldsSince(es, j, k, t) && es[j] == LockSocket(t, o);
          InsideFor(ss, es, j, k, t);
        }
      case AgentReceives(c) =>
        if o.Agent? {
          assert SetsFor(es, k, o, Some(c));
        }
      case _ =>
    }
  }

  /** In every run an owner's descriptor is the one it was last given, and none if it never was given one. */
  lemma {:induction false} SocketExact(ss: seq<State>, es: seq<Event>, k: nat, o: Owner)
    requires Run(ss, es) && k < |ss|
    ensures forall i: nat, v :: LastSet(es, k, o, i, v) ==> SocketOf(ss[k], o) == v
    ensures NeverSet(es, k, o) ==> SocketOf(ss[k], o).None?
  {
    hide Enabled, Next, SetsFor, Initial;
    if k > 0 {
      var n := k - 1;
      SocketExact(ss, es, n, o);
      SetStep(ss, es, n, o);
      forall i: nat, v | LastSet(es, k, o, i, v) ensures SocketOf(ss[k], o) == v {
        if i < k - 1 {
          assert forall w :: !SetsFor(es, n, o, w);
          assert LastSet(es, n, o, i, v);
        }
      }
      if NeverSet(es, k, o) {
        assert forall w :: !SetsFor(es, n, o, w);
        assert NeverSet(es, n, o);
      }
    } else {
      NothingAtFirst(ss, es, o);
    }
  }

  lemma NothingAtFirst(ss: seq<State>, es: seq<Event>, o: Owner)
    requires Run(ss, es)
    ensures SocketOf(ss[0], o).None?
  {
  }

  /** While a thread is inside no other adds to what has been sent. */
  lemma {:induction false} FragmentsStay(ss: seq<State>, es: seq<Event>, i: nat, k: nat, t: nat, c: nat)
    requires Run(ss, es) && HoldsSince(es, i, k, t)
    ensures Fragments(ss[k], c) == Fragments(ss[i], c)
    decreases k
  {
    hide Exclusive, Steady, Unmixed;
    var s, e := ss[k - 1], es[k - 1];
    assert Enabled(s, e) && ss[k] == Next(s, e);
    if i < k - 1 {
      assert HoldsSince(es, i, k - 1, t);
      FragmentsStay(ss, es, i, k - 1, t, c);
      InsideFor(ss, es, i, k - 1, t);
      RunSafe(ss, es, k - 1, c);
      if e.Unlock? {
        OnlyOne(s, t, e.t);
      }
    }
  }

  lemma OnlyOne(s: State, t: nat, u: nat)
    requires Exclusive(s) && t < |s.threads| && u < |s.threads| && s.threads[t].In? && s.threads[u].In?
    ensures t == u
  {
  }

  /**
   * A packet goes to the connection its owner was last given: when the writer unlocks, what it has sent
   * stands on that connection behind all that was there before.
   */
  lemma Delivered(ss: seq<State>, es: seq<Event>, p: nat, c: nat, i: nat, k: nat)
    requires Run(ss, es) && i < k < |es| && es[i].LockToSend? && HoldsSince(es, i, k, es[i].t)
    requires es[k] == Unlock(es[i].t) && LastSet(es, i, es[i].owner, p, Some(c))
    ensures var n := SentBetween(es, i + 1, k, es[i].t);
            && n <= |es[i].bytes| && Wire(ss[k + 1], c) == Wire(ss[i], c) + es[i].bytes[..n]
            && Fragments(ss[k + 1], c) == Fragments(ss[i], c) + [Fragment(es[i].bytes, n)]
  {
    var t, n := es[i].t, SentBetween(es, i + 1, k, es[i].t);
    SocketExact(ss, es, i, es[i].owner);
    InsideFor(ss, es, i, k, t);
    FragmentsStay(ss, es, i, k, t, c);
    RunSafe(ss, es, i, c);
    RunSafe(ss, es, k, c);
    assert Enabled(ss[i], es[i]);
    NobodyInside(ss[i]);
    assert ss[k + 1] == Next(ss[k], es[k]) && Sending(ss[k], t, c);
    hide Exclusive, Steady, Run, LastSet, HoldsSince;
  }

  /** And if its owner has no connection, nothing is written anywhere. */
  lemma {:induction false} NothingDelivered(ss: seq<State>, es: seq<Event>, i: nat, k: nat, c: nat)
    requires Run(ss, es) && i < k < |ss| && es[i].LockToSend? && HoldsSince(es, i, k, es[i].t)
    requires NeverSet(es, i, es[i].owner) || exists p: nat :: LastSet(es, i, es[i].owner, p, None)
    ensures Wire(ss[k], c) == Wire(ss[i], c)
    decreases k
  {
    SocketExact(ss, es, i, es[i].owner);
    var s, e, t := ss[k - 1], es[k - 1], es[i].t;
    assert Enabled(s, e) && ss[k] == Next(s, e);
    if i < k - 1 {
      assert HoldsSince(es, i, k - 1, t);
      NothingDelivered(ss, es, i, k - 1, c);
      InsideFor(ss, es, i, k - 1, t);
      RunSafe(ss, es, k - 1, c);
      hide Steady, Unmixed;
      if e.Send? {
        OnlyOne(s, t, e.t);
      }
    }
  }
}
