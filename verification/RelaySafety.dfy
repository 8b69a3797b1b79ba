/** What holds in every reachable state of the relay: over every interleaving of the three goroutines
    and the two peers, and every point at which a read or a write may fail. */
module RelaySafety {
  import opened Relay

  // ---------- control ----------

  predicate InHandshake(m: MainPc) {
    m.HsReadTarget? || m.HsWriteClient? || m.HsReadClient? || m.HsWriteTarget? || m.Spawning?
  }

  predicate Returning(m: MainPc) {
    m.ClosingTarget? || m.ClosingClient? || m.Finished?
  }

  /** Errors on the channel are those reported and not yet received, in order. */
  ghost predicate ChannelHolds(errChan: seq<Error>, reports: seq<Report>, received: nat) {
    && |reports| == |errChan| + received
    && forall i | 0 <= i < |errChan| :: errChan[i] == reports[i + received].err
  }

  ghost predicate ForwarderSound(s: State, side: Side) {
    var pc := LinkOf(s, side).pc;
    && (pc.NotStarted? <==> !s.spawned)
    && (pc.Sending? ==> pc.err != Nil)
    && (pc.Stopped? ==> s.done || exists r | r in s.reports :: r.from == side)
  }

  function Decided(s: State): Result {
    if s.spawned && s.reports != [] then ResultOf(s.reports[0].err) else ReturnedError
  }

  /** The first error reported decides what the main goroutine returns; a failed handshake returns
      an error as well. */
  ghost predicate MainSound(s: State) {
    && (InHandshake(s.main) ==> !s.spawned)
    && (s.main.Waiting? || s.main.Received? ==> s.spawned)
    && (s.main.Received? ==> s.reports != [] && s.main.err == s.reports[0].err)
    && (Returning(s.main) ==> s.main.result == Decided(s))
    && (s.done <==> s.spawned && Returning(s.main))
    && (s.done ==> s.reports != [])
    && (s.targetClosed <==> s.main.ClosingClient? || s.main.Finished?)
    && (s.clientClosed <==> s.main.Finished?)
  }

  ghost predicate ReportsSound(s: State) {
    && (forall r | r in s.reports :: r.err != Nil && LinkOf(s, r.from).pc.Stopped?)
    && (forall i, j | 0 <= i < j < |s.reports| :: s.reports[i].from != s.reports[j].from)
    && (s.reports != [] ==> s.spawned)
    && ChannelHolds(s.errChan, s.reports, if s.spawned && !s.main.Waiting? then 1 else 0)
  }

  ghost predicate Control(s: State) {
    MainSound(s) && ReportsSound(s) && ForwarderSound(s, Client) && ForwarderSound(s, Target)
  }

  /** Everything but the links is the same. */
  ghost predicate SameControl(s: State, t: State) {
    && s.socketIO == t.socketIO && s.main == t.main && s.errChan == t.errChan && s.reports == t.reports
    && s.done == t.done && s.spawned == t.spawned
    && s.targetClosed == t.targetClosed && s.clientClosed == t.clientClosed
  }

  lemma WithLinkShape(s: State, side: Side, l: Link)
    ensures var t := WithLink(s, side, l);
            SameControl(s, t) && LinkOf(t, side) == l && LinkOf(t, OtherSide(side)) == LinkOf(s, OtherSide(side))
  {}

  lemma ControlPeer(s: State, e: Event)
    requires Control(s) && e.PeerSends?
    ensures Control(Do(s, e))
  {
    var l := LinkOf(s, e.side);
    WithLinkShape(s, e.side, l.(sent := l.sent + [e.msg]));
    var t := Do(s, e);
    assert forall side :: LinkOf(t, side).pc == LinkOf(s, side).pc;
  }

  lemma ControlHandshake(s: State, e: Event)
    requires Control(s) && Enabled(s, e) && (e.HsReads? || e.HsWrites?)
    ensures Control(Do(s, e))
  {}

  lemma ControlSpawn(s: State, e: Event)
    requires Control(s) && Enabled(s, e) && e.Spawn?
    ensures Control(Do(s, e))
  {}

  lemma ControlReceive(s: State, e: Event)
    requires Control(s) && Enabled(s, e) && e.Receive?
    ensures Control(Do(s, e))
  {}

  lemma ControlClose(s: State, e: Event)
    requires Control(s) && Enabled(s, e) && (e.CloseDone? || e.CloseTarget? || e.CloseClient?)
    ensures Control(Do(s, e))
  {}

  /** A forwarder that moves between its own steps changes nothing that `Control` says of others. */
  lemma ControlFrame(s: State, t: State, side: Side)
    requires Control(s) && SameControl(s, t)
    requires LinkOf(t, OtherSide(side)).pc == LinkOf(s, OtherSide(side)).pc
    requires !LinkOf(s, side).pc.Stopped? && s.spawned
    requires !LinkOf(t, side).pc.NotStarted?
    requires LinkOf(t, side).pc.Stopped? ==> t.done
    requires LinkOf(t, side).pc.Sending? ==> LinkOf(t, side).pc.err != Nil
    ensures Control(t)
  {
    assert forall r | r in s.reports :: r.from == OtherSide(side);
  }

  lemma ForwarderShape(s: State, e: Event)
    requires Enabled(s, e) && (e.Select? || e.Reads? || e.Writes?)
    ensures SameControl(s, Do(s, e))
    ensures LinkOf(Do(s, e), e.side) == Stepped(s, e)
    ensures LinkOf(Do(s, e), OtherSide(e.side)) == LinkOf(s, OtherSide(e.side))
  {
    WithLinkShape(s, e.side, Stepped(s, e));
  }

  lemma ControlForwarder(s: State, e: Event)
    requires Control(s) && Enabled(s, e) && (e.Select? || e.Reads? || e.Writes?)
    ensures Control(Do(s, e))
  {
    ForwarderShape(s, e);
    ControlFrame(s, Do(s, e), e.side);
  }

  lemma SendsShape(s: State, e: Event)
    requires Enabled(s, e) && e.Sends?
    ensures var s', pc := Do(s, e), LinkOf(s, e.side).pc;
            && pc.Sending? && LinkOf(s', e.side).pc == Stopped
            && s'.reports == s.reports + [Report(e.side, pc.err)] && s'.errChan == s.errChan + [pc.err]
            && SameControl(s, s'.(reports := s.reports, errChan := s.errChan))
            && LinkOf(s', OtherSide(e.side)) == LinkOf(s, OtherSide(e.side))
  {}

  /** A report is added at the end; it is the first one of its side. */
  lemma ReportAdded(s: State, t: State, side: Side, err: Error)
    requires Control(s) && SameControl(s, t.(reports := s.reports, errChan := s.errChan))
    requires t.reports == s.reports + [Report(side, err)] && t.errChan == s.errChan + [err] && err != Nil
    requires LinkOf(s, side).pc.Sending? && LinkOf(t, side).pc.Stopped?
    requires LinkOf(t, OtherSide(side)) == LinkOf(s, OtherSide(side))
    ensures ReportsSound(t)
  {
    assert forall r | r in s.reports :: r.from == OtherSide(side);
    assert forall r | r in t.reports :: r in s.reports || r == Report(side, err);
  }

  lemma ControlSends(s: State, e: Event)
    requires Control(s) && Enabled(s, e) && e.Sends?
    ensures Control(Do(s, e))
  {
    SendsShape(s, e);
    var s' := Do(s, e);
    ReportAdded(s, s', e.side, LinkOf(s, e.side).pc.err);
    assert forall r | r in s.reports :: r in s'.reports;
    assert s'.reports[|s.reports|].from == e.side;
  }

  lemma ControlStep(s: State, e: Event)
    requires Control(s)
    ensures Control(Next(s, e))
  {
    if Enabled(s, e) {
      match e
      case PeerSends(_, _) => ControlPeer(s, e);
      case HsReads(_) => ControlHandshake(s, e);
      case HsWrites(_) => ControlHandshake(s, e);
      case Spawn => ControlSpawn(s, e);
      case Receive => ControlReceive(s, e);
      case CloseDone => ControlClose(s, e);
      case CloseTarget => ControlClose(s, e);
      case CloseClient => ControlClose(s, e);
      case Sends(_) => ControlSends(s, e);
      case _ => ControlForwarder(s, e);
    }
  }

  // ---------- delivery ----------

  /** The message that the main goroutine has read from a side and not yet written or dropped. */
  function MainFlight(m: MainPc, side: Side): seq<Msg> {
    if side.Target? && m.HsWriteClient? then [m.msg]
    else if side.Client? && m.HsWriteTarget? then [m.msg]
    else []
  }

  function InFlight(s: State, side: Side): seq<Msg> {
    var pc := LinkOf(s, side).pc;
    if pc.Writing? then [pc.msg] else MainFlight(s.main, side)
  }

  ghost predicate OrderOf(l: Link, flight: seq<Msg>, ended: bool) {
    && l.read <= l.sent
    && l.read == l.written + flight + l.lost
    && |flight| + |l.lost| <= 1
    && (l.lost != [] ==> ended)
  }

  /** No more will be forwarded from this side. */
  predicate Ended(s: State, side: Side) {
    var pc := LinkOf(s, side).pc;
    pc.Sending? || pc.Stopped? || (Returning(s.main) && !s.spawned)
  }

  ghost predicate LinkOrder(s: State, side: Side) {
    OrderOf(LinkOf(s, side), InFlight(s, side), Ended(s, side))
  }

  ghost predicate Order(s: State) {
    LinkOrder(s, Client) && LinkOrder(s, Target)
  }

  lemma OrderPeer(s: State, e: Event)
    requires Order(s) && e.PeerSends?
    ensures Order(Do(s, e))
  {
    var l := LinkOf(s, e.side);
    WithLinkShape(s, e.side, l.(sent := l.sent + [e.msg]));
  }

  lemma TakeNextOrder(l: Link)
    requires OrderOf(l, [], false) && Available(l)
    ensures OrderOf(TakeNext(l), [l.sent[|l.read|]], false)
  {}

  lemma PutThroughOrder(l: Link, msg: Msg)
    requires OrderOf(l, [msg], false)
    ensures OrderOf(l.(written := l.written + [msg]), [], false)
    ensures OrderOf(l.(lost := l.lost + [msg]), [], true)
  {}

  lemma OrderHandshake(s: State, e: Event)
    requires Control(s) && Order(s) && Enabled(s, e) && (e.HsReads? || e.HsWrites?)
    ensures Order(Do(s, e))
  {
    assert LinkOrder(s, Client) && LinkOrder(s, Target);
    match s.main
    case HsReadTarget => if e.err == Nil { TakeNextOrder(s.down); }
    case HsWriteClient(msg) => PutThroughOrder(s.down, msg);
    case HsReadClient => if e.err == Nil { TakeNextOrder(s.up); }
    case HsWriteTarget(msg) => PutThroughOrder(s.up, msg);
    case _ =>
  }

  lemma OrderMain(s: State, e: Event)
    requires Control(s) && Order(s) && Enabled(s, e)
    requires e.Spawn? || e.Receive? || e.CloseDone? || e.CloseTarget? || e.CloseClient?
    ensures Order(Do(s, e))
  {}

  lemma SteppedOrder(s: State, e: Event)
    requires Enabled(s, e) && (e.Select? || e.Reads? || e.Writes?)
    requires var l := LinkOf(s, e.side); OrderOf(l, if l.pc.Writing? then [l.pc.msg] else [], false)
    ensures var l := Stepped(s, e);
            OrderOf(l, if l.pc.Writing? then [l.pc.msg] else [], l.pc.Sending? || l.pc.Stopped?)
  {}

  lemma OrderForwarder(s: State, e: Event)
    requires Control(s) && Order(s) && Enabled(s, e) && (e.Select? || e.Reads? || e.Writes?)
    ensures Order(Do(s, e))
  {
    ForwarderShape(s, e);
    assert LinkOrder(s, OtherSide(e.side)) && LinkOrder(s, e.side);
    SteppedOrder(s, e);
    assert LinkOrder(Do(s, e), e.side) && LinkOrder(Do(s, e), OtherSide(e.side));
  }

  lemma OrderSends(s: State, e: Event)
    requires Control(s) && Order(s) && Enabled(s, e) && e.Sends?
    ensures Order(Do(s, e))
  {
    SendsShape(s, e);
  }

  lemma OrderStep(s: State, e: Event)
    requires Control(s) && Order(s)
    ensures Order(Next(s, e))
  {
    if Enabled(s, e) {
      match e
      case PeerSends(_, _) => OrderPeer(s, e);
      case HsReads(_) => OrderHandshake(s, e);
      case HsWrites(_) => OrderHandshake(s, e);
      case Sends(_) => OrderSends(s, e);
      case Select(_) => OrderForwarder(s, e);
      case Reads(_, _) => OrderForwarder(s, e);
      case Writes(_, _) => OrderForwarder(s, e);
      case _ => OrderMain(s, e);
    }
  }

  // ---------- the Socket.IO handshake ----------

  /** Nothing is read from the client before the target's first message has reached it, and the
      forwarders start only after the client's first answer has reached the target. */
  ghost predicate Greeting(s: State) {
    s.socketIO ==>
      && (s.up.read != [] ==> s.down.written != [])
      && (s.main.HsReadClient? || s.main.HsWriteTarget? || s.main.Spawning? ==> s.down.written != [])
      && (s.main.Spawning? || s.spawned ==> s.up.written != [])
  }

  lemma GreetingForwarder(s: State, e: Event)
    requires Control(s) && Order(s) && Greeting(s) && Enabled(s, e) && (e.Select? || e.Reads? || e.Writes?)
    ensures Greeting(Do(s, e))
  {
    ForwarderShape(s, e);
    assert LinkOrder(s, Client) && s.spawned;
    assert |LinkOf(s, e.side).read| <= |Stepped(s, e).read| && |LinkOf(s, e.side).written| <= |Stepped(s, e).written|;
  }

  lemma GreetingStep(s: State, e: Event)
    requires Control(s) && Order(s) && Greeting(s)
    ensures Greeting(Next(s, e))
  {
    if Enabled(s, e) {
      if e.Select? || e.Reads? || e.Writes? {
        GreetingForwarder(s, e);
      } else if e.Sends? {
        SendsShape(s, e);
      } else if e.PeerSends? {
        WithLinkShape(s, e.side, LinkOf(s, e.side).(sent := LinkOf(s, e.side).sent + [e.msg]));
      }
    }
  }

  // ---------- every reachable state ----------

  ghost predicate Inv(s: State) {
    Control(s) && Order(s) && Greeting(s)
  }

  lemma StepKeepsInv(s: State, e: Event)
    requires Inv(s)
    ensures Inv(Next(s, e))
  {
    ControlStep(s, e);
    OrderStep(s, e);
    GreetingStep(s, e);
  }

  lemma {:induction false} RunKeepsInv(s: State, events: seq<Event>)
    requires Inv(s)
    ensures Inv(Run(s, events))
    decreases |events|
  {
    if events != [] {
      StepKeepsInv(s, events[0]);
      RunKeepsInv(Next(s, events[0]), events[1..]);
    }
  }

  lemma {:induction false} RunConcat(s: State, a: seq<Event>, b: seq<Event>)
    ensures Run(s, a + b) == Run(Run(s, a), b)
    decreases |a|
  {
    if a == [] {
      assert a + b == b;
    } else {
      assert (a + b)[1..] == a[1..] + b;
      RunConcat(Next(s, a[0]), a[1..], b);
    }
  }

  lemma RunLast(s: State, events: seq<Event>)
    requires events != []
    ensures var n := |events| - 1;
            Run(s, events) == Next(Run(s, events[..n]), events[n])
  {
    var n := |events| - 1;
    RunConcat(s, events[..n], [events[n]]);
    assert events[..n] + [events[n]] == events;
    assert Run(Run(s, events[..n]), [events[n]]) == Next(Run(s, events[..n]), events[n]);
  }

  lemma ReachableInv(socketIO: bool, events: seq<Event>)
    ensures Inv(Run(Start(socketIO), events))
  {
    RunKeepsInv(Start(socketIO), events);
  }
}
