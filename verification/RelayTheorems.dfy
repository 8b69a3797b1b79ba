/** The relay's promises, for every run from the start, with and without the Socket.IO handshake. */
module RelayTheorems {
  import opened Relay
  import opened RelaySafety

  /** What a peer sends in a run. */
  function SentBy(events: seq<Event>, side: Side): seq<Msg> {
    if events == [] then []
    else
      var e := events[|events| - 1];
      SentBy(events[..|events| - 1], side) + if e.PeerSends? && e.side == side then [e.msg] else []
  }

  lemma HandshakeShape(s: State, err: Error)
    requires Enabled(s, HsReads(err)) || Enabled(s, HsWrites(err))
    ensures var s' := Handshake(s, err);
            s'.socketIO == s.socketIO && s'.up.sent == s.up.sent && s'.down.sent == s.down.sent
  {
    if err == Nil {
      HandshakeSuccessShape(s);
    }
  }

  lemma HandshakeSuccessShape(s: State)
    requires Enabled(s, HsReads(Nil)) || Enabled(s, HsWrites(Nil))
    ensures var s' := Handshake(s, Nil);
            s'.socketIO == s.socketIO && s'.up.sent == s.up.sent && s'.down.sent == s.down.sent
  {
    match s.main
    case HsReadTarget =>
    case HsWriteClient(_) =>
    case HsReadClient =>
    case _ =>
  }

  lemma SentStep(s: State, e: Event, side: Side)
    ensures LinkOf(Next(s, e), side).sent
         == LinkOf(s, side).sent + if e.PeerSends? && e.side == side then [e.msg] else []
  {
    if Enabled(s, e) {
      match e
      case PeerSends(from, msg) => WithLinkShape(s, from, LinkOf(s, from).(sent := LinkOf(s, from).sent + [msg]));
      case Sends(_) => SendsShape(s, e);
      case Select(_) => ForwarderShape(s, e);
      case Reads(_, _) => ForwarderShape(s, e);
      case Writes(_, _) => ForwarderShape(s, e);
      case HsReads(err) => HandshakeShape(s, err);
      case HsWrites(err) => HandshakeShape(s, err);
      case _ =>
    }
  }

  lemma {:induction false} SentIsSent(socketIO: bool, events: seq<Event>, side: Side)
    ensures LinkOf(Run(Start(socketIO), events), side).sent == SentBy(events, side)
  {
    if events != [] {
      var n := |events| - 1;
      RunLast(Start(socketIO), events);
      SentIsSent(socketIO, events[..n], side);
      SentStep(Run(Start(socketIO), events[..n]), events[n], side);
    }
  }

  /** Each peer receives, unchanged and in order, a prefix of what was read from the other, which is
      a prefix of what the other sent, handshake messages included; at most one message of each
      direction is read and not delivered, either in flight or dropped by a failed write. */
  lemma DeliveredInOrder(socketIO: bool, events: seq<Event>, side: Side)
    ensures var s := Run(Start(socketIO), events);
            var l := LinkOf(s, side);
            && l.written <= l.read <= SentBy(events, side)
            && |l.read| <= |l.written| + 1
            && l.read == l.written + InFlight(s, side) + l.lost
            && (l.lost != [] ==> Ended(s, side))
  {
    ReachableInv(socketIO, events);
    SentIsSent(socketIO, events, side);
    assert LinkOrder(Run(Start(socketIO), events), side);
  }

  lemma AtMostTwoReports(reports: seq<Report>)
    requires forall i, j | 0 <= i < j < |reports| :: reports[i].from != reports[j].from
    ensures |reports| <= 2
  {
    var first := if |reports| > 0 then reports[0].from else Client;
    var second := if |reports| > 1 then reports[1].from else OtherSide(first);
    var third := if |reports| > 2 then reports[2].from else first;
    assert first == second || second == third || first == third;
  }

  lemma AtMostOneReport(reports: seq<Report>, side: Side)
    requires forall i, j | 0 <= i < j < |reports| :: reports[i].from != reports[j].from
    requires forall r | r in reports :: r.from == side
    ensures |reports| <= 1
  {
    var first := if |reports| > 0 then reports[0].from else side;
    var second := if |reports| > 1 then reports[1].from else side;
    assert first == side && second == side;
  }

  lemma NoNilOnChannel(s: State)
    requires Control(s)
    ensures Nil !in s.errChan
  {
    forall i | 0 <= i < |s.errChan| ensures s.errChan[i] != Nil {
      var k := if s.spawned && !s.main.Waiting? then i + 1 else i;
      assert s.reports[k] in s.reports;
    }
  }

  /** No forwarder ever blocks on the error channel, none sends a nil error, and none sends twice. */
  lemma SendsNeverBlock(socketIO: bool, events: seq<Event>, side: Side)
    ensures var s := Run(Start(socketIO), events);
            && (LinkOf(s, side).pc.Sending? ==> Enabled(s, Sends(side)) && LinkOf(s, side).pc.err != Nil)
            && |s.errChan| <= 2 && Nil !in s.errChan
            && (forall i, j | 0 <= i < j < |s.reports| :: s.reports[i].from != s.reports[j].from)
  {
    ReachableInv(socketIO, events);
    var s := Run(Start(socketIO), events);
    assert forall r | r in s.reports :: LinkOf(s, r.from).pc.Stopped?;
    NoNilOnChannel(s);
    AtMostTwoReports(s.reports);
    if LinkOf(s, side).pc.Sending? {
      assert forall r | r in s.reports :: r.from == OtherSide(side);
      AtMostOneReport(s.reports, OtherSide(side));
    }
  }

  // ---------- after done is closed ----------

  function ReadsLeft(pc: Pc): nat {
    if pc.Reading? then 1 else 0
  }

  function WritesLeft(pc: Pc): nat {
    if pc.Reading? || pc.Writing? then 1 else 0
  }

  /** A forwarder that finds `done` closed reads no further message. */
  lemma PassEndsStep(s: State, e: Event, side: Side)
    requires Control(s) && s.done
    ensures var s', l, l' := Next(s, e), LinkOf(s, side), LinkOf(Next(s, e), side);
            && s'.done
            && |l'.read| + ReadsLeft(l'.pc) <= |l.read| + ReadsLeft(l.pc)
            && |l'.written| + WritesLeft(l'.pc) <= |l.written| + WritesLeft(l.pc)
  {
    if Enabled(s, e) {
      match e
      case PeerSends(from, msg) => WithLinkShape(s, from, LinkOf(s, from).(sent := LinkOf(s, from).sent + [msg]));
      case Sends(_) => SendsShape(s, e);
      case Select(_) => ForwarderShape(s, e);
      case Reads(_, _) => ForwarderShape(s, e);
      case Writes(_, _) => ForwarderShape(s, e);
      case _ =>
    }
  }

  lemma {:induction false} PassEnds(s: State, events: seq<Event>, side: Side)
    requires Inv(s) && s.done
    ensures var t, l, l' := Run(s, events), LinkOf(s, side), LinkOf(Run(s, events), side);
            && t.done && Inv(t)
            && |l'.read| + ReadsLeft(l'.pc) <= |l.read| + ReadsLeft(l.pc)
            && |l'.written| + WritesLeft(l'.pc) <= |l.written| + WritesLeft(l.pc)
    decreases |events|
  {
    if events != [] {
      StepKeepsInv(s, events[0]);
      PassEndsStep(s, events[0], side);
      PassEnds(Next(s, events[0]), events[1..], side);
    }
  }

  /** What was read before has been written, if the forwarder is at its read. */
  lemma NothingPending(s: State, side: Side)
    requires Inv(s) && s.done && LinkOf(s, side).pc.Reading?
    ensures LinkOf(s, side).read == LinkOf(s, side).written
  {
    assert LinkOrder(s, side);
  }

  lemma WrittenIsRead(s: State, side: Side)
    requires Inv(s)
    ensures LinkOf(s, side).written <= LinkOf(s, side).read
  {
    assert LinkOrder(s, side);
  }

  /** After `done` is closed at most one more message is read and at most one more is written across
      both directions, and if both happen it is the same message. */
  lemma LateTraffic(socketIO: bool, before: seq<Event>, after: seq<Event>)
    requires Run(Start(socketIO), before).done
    ensures var s := Run(Start(socketIO), before);
            var t := Run(s, after);
            && |t.up.read| + |t.down.read| <= |s.up.read| + |s.down.read| + 1
            && |t.up.written| + |t.down.written| <= |s.up.written| + |s.down.written| + 1
            && forall a, b |
                 |LinkOf(t, a).read| > |LinkOf(s, a).read| && |LinkOf(t, b).written| > |LinkOf(s, b).written| ::
                 a == b && LinkOf(t, a).written == LinkOf(t, a).read
  {
    ReachableInv(socketIO, before);
    var s := Run(Start(socketIO), before);
    assert s.reports[0] in s.reports;
    var stopped := s.reports[0].from;
    assert LinkOf(s, stopped).pc.Stopped?;
    PassEnds(s, after, Client);
    PassEnds(s, after, Target);
    var t, live := Run(s, after), OtherSide(stopped);
    if |LinkOf(t, live).read| > |LinkOf(s, live).read| && |LinkOf(t, live).written| > |LinkOf(s, live).written| {
      LateMessage(s, after, live);
    }
  }

  lemma LateMessage(s: State, after: seq<Event>, side: Side)
    requires Inv(s) && s.done
    requires |LinkOf(Run(s, after), side).read| > |LinkOf(s, side).read|
    requires |LinkOf(Run(s, after), side).written| > |LinkOf(s, side).written|
    ensures LinkOf(Run(s, after), side).written == LinkOf(Run(s, after), side).read
  {
    PassEnds(s, after, side);
    NothingPending(s, side);
    WrittenIsRead(Run(s, after), side);
  }

  /** What ends the relay comes in order: an error is reported, `done` is closed, the target
      connection is closed, the client connection is closed. */
  lemma ClosingOrder(socketIO: bool, events: seq<Event>)
    ensures var s := Run(Start(socketIO), events);
            && (s.clientClosed ==> s.targetClosed)
            && (s.targetClosed ==> s.done || (s.up.pc.NotStarted? && s.down.pc.NotStarted?))
            && (s.done ==> s.reports != [])
  {
    ReachableInv(socketIO, events);
    var s := Run(Start(socketIO), events);
    assert ForwarderSound(s, Client) && ForwarderSound(s, Target);
  }

  predicate MainReads(m: MainPc, side: Side) {
    if side.Client? then m.HsReadClient? else m.HsReadTarget?
  }

  predicate MainWrites(m: MainPc, side: Side) {
    if side.Client? then m.HsWriteClient? else m.HsWriteTarget?
  }

  /** A connection never has two readers or two writers: while the main goroutine is in the handshake
      no forwarder runs. */
  lemma ConnectionsExclusive(socketIO: bool, events: seq<Event>, side: Side)
    ensures var s := Run(Start(socketIO), events);
            && !(MainReads(s.main, side) && LinkOf(s, side).pc.Reading?)
            && !(MainWrites(s.main, side) && LinkOf(s, OtherSide(side)).pc.Writing?)
  {
    ReachableInv(socketIO, events);
    var s := Run(Start(socketIO), events);
    assert ForwarderSound(s, Client) && ForwarderSound(s, Target);
  }

  /** With Socket.IO the client is not even read before the target's first message has been written
      to it, and relaying starts only when the first message of each side has reached the other. */
  lemma HandshakeFirst(events: seq<Event>)
    ensures var s := Run(Start(true), events);
            && (s.up.read != [] || s.up.written != [] ==> s.down.written != [])
            && (s.down.written != [] ==> s.down.sent != [] && s.down.written[0] == s.down.sent[0])
            && (s.spawned ==> s.down.written != [] && s.up.written != [])
            && (s.up.written != [] ==> s.up.sent != [] && s.up.written[0] == s.up.sent[0])
  {
    ReachableInv(true, events);
    var s := Run(Start(true), events);
    StartKeepsKind(Start(true), events);
    assert LinkOrder(s, Client) && LinkOrder(s, Target);
  }

  lemma NextKeepsKind(s: State, e: Event)
    ensures Next(s, e).socketIO == s.socketIO
  {
    if Enabled(s, e) {
      match e
      case PeerSends(side, msg) => WithLinkShape(s, side, LinkOf(s, side).(sent := LinkOf(s, side).sent + [msg]));
      case Sends(_) => SendsShape(s, e);
      case Select(_) => ForwarderShape(s, e);
      case Reads(_, _) => ForwarderShape(s, e);
      case Writes(_, _) => ForwarderShape(s, e);
      case HsReads(err) => HandshakeShape(s, err);
      case HsWrites(err) => HandshakeShape(s, err);
      case _ =>
    }
  }

  lemma {:induction false} StartKeepsKind(s: State, events: seq<Event>)
    ensures Run(s, events).socketIO == s.socketIO
    decreases |events|
  {
    if events != [] {
      NextKeepsKind(s, events[0]);
      StartKeepsKind(Next(s, events[0]), events[1..]);
    }
  }

  // ---------- rest ----------

  /** A step that must come, whatever the network does: all but reads and writes on connections
      still open, for a closed connection fails them. */
  predicate Forced(s: State, e: Event) {
    match e
    case PeerSends(_, _) => false
    case HsReads(_) => false
    case HsWrites(_) => false
    case Reads(side, err) => err != Nil && Closed(s, side)
    case Writes(side, err) => err != Nil && Closed(s, OtherSide(side))
    case _ => true
  }

  /** From the first error on, the proxy comes to rest only when all three goroutines have stopped
      and both connections are closed. */
  lemma RestMeansStopped(socketIO: bool, events: seq<Event>)
    requires var s := Run(Start(socketIO), events);
             s.reports != [] && forall e | Forced(s, e) :: !Enabled(s, e)
    ensures var s := Run(Start(socketIO), events);
            s.main.Finished? && s.up.pc.Stopped? && s.down.pc.Stopped? && s.clientClosed && s.targetClosed
  {
    ReachableInv(socketIO, events);
    var s := Run(Start(socketIO), events);
    assert Forced(s, Receive) && Forced(s, CloseDone) && Forced(s, CloseTarget) && Forced(s, CloseClient);
    assert s.main.Finished?;
    ForwarderAtRest(socketIO, events, Client);
    ForwarderAtRest(socketIO, events, Target);
  }

  lemma ForwarderAtRest(socketIO: bool, events: seq<Event>, side: Side)
    requires var s := Run(Start(socketIO), events);
             s.reports != [] && s.main.Finished? && forall e | Forced(s, e) :: !Enabled(s, e)
    ensures LinkOf(Run(Start(socketIO), events), side).pc.Stopped?
  {
    ReachableInv(socketIO, events);
    SendsNeverBlock(socketIO, events, side);
    var s, failure := Run(Start(socketIO), events), Other("closed");
    assert ForwarderSound(s, side);
    assert Forced(s, Select(side)) && Forced(s, Sends(side));
    assert Forced(s, Reads(side, failure)) && Forced(s, Writes(side, failure));
  }
}
