/** Errors of the relay against the events of a run: which reach the channel, and which one decides. */
module RelayErrors {
  import opened Relay
  import opened RelaySafety

  /** The event at `i` is possible where it stands in the run. */
  ghost predicate Happens(socketIO: bool, events: seq<Event>, i: int) {
    0 <= i < |events| && Enabled(Run(Start(socketIO), events[..i]), events[i])
  }

  /** A read or write of this direction's forwarder fails there, with this error. */
  ghost predicate FailsAt(socketIO: bool, events: seq<Event>, i: int, side: Side, err: Error) {
    Happens(socketIO, events, i) && err != Nil && (events[i] == Reads(side, err) || events[i] == Writes(side, err))
  }

  lemma HappensInPrefix(socketIO: bool, events: seq<Event>, n: nat, i: int)
    requires i < n <= |events|
    ensures Happens(socketIO, events[..n], i) <==> Happens(socketIO, events, i)
  {
    if 0 <= i { assert events[..n][..i] == events[..i]; }
  }

  // ---------- what is reported ----------

  /** The forwarder of this side is about to report this error, or has. */
  predicate Errored(s: State, side: Side, err: Error) {
    LinkOf(s, side).pc == Sending(err) || Report(side, err) in s.reports
  }

  lemma ErroredSends(s: State, e: Event, side: Side, err: Error)
    requires Control(s) && err != Nil && Enabled(s, e) && e.Sends?
    ensures Errored(Next(s, e), side, err) <==> Errored(s, side, err)
  {
    SendsShape(s, e);
    var s' := Next(s, e);
    var added := Report(e.side, LinkOf(s, e.side).pc.err);
    assert forall r :: r in s'.reports <==> r in s.reports || r == added;
  }

  lemma ErroredForwarder(s: State, e: Event, side: Side, err: Error)
    requires Control(s) && err != Nil && Enabled(s, e) && (e.Select? || e.Reads? || e.Writes?)
    ensures Errored(Next(s, e), side, err) <==> Errored(s, side, err) || e == Reads(side, err) || e == Writes(side, err)
  {
    ForwarderShape(s, e);
  }

  lemma ErroredStep(s: State, e: Event, side: Side, err: Error)
    requires Control(s) && err != Nil
    ensures Errored(Next(s, e), side, err)
       <==> Errored(s, side, err) || (Enabled(s, e) && (e == Reads(side, err) || e == Writes(side, err)))
  {
    if Enabled(s, e) {
      match e
      case PeerSends(from, msg) => WithLinkShape(s, from, LinkOf(s, from).(sent := LinkOf(s, from).sent + [msg]));
      case Sends(_) => ErroredSends(s, e, side, err);
      case Select(_) => ErroredForwarder(s, e, side, err);
      case Reads(_, _) => ErroredForwarder(s, e, side, err);
      case Writes(_, _) => ErroredForwarder(s, e, side, err);
      case _ =>
    }
  }

  /** In every run a forwarder is about to report an error, or has reported it, exactly if a read or
      write of its own failed with that error before. */
  lemma {:induction false} ErrorsAreReported(socketIO: bool, events: seq<Event>, side: Side, err: Error)
    requires err != Nil
    ensures Errored(Run(Start(socketIO), events), side, err) <==> exists i :: FailsAt(socketIO, events, i, side, err)
  {
    if events != [] {
      var n := |events| - 1;
      RunLast(Start(socketIO), events);
      ReachableInv(socketIO, events[..n]);
      ErrorsAreReported(socketIO, events[..n], side, err);
      ErroredStep(Run(Start(socketIO), events[..n]), events[n], side, err);
      forall i | i < n
        ensures FailsAt(socketIO, events[..n], i, side, err) <==> FailsAt(socketIO, events, i, side, err)
      {
        HappensInPrefix(socketIO, events, n, i);
      }
      assert FailsAt(socketIO, events, n, side, err)
        <==> Enabled(Run(Start(socketIO), events[..n]), events[n])
             && (events[n] == Reads(side, err) || events[n] == Writes(side, err));
    }
  }

  /** A forwarder fails at most once, so it has one error to report. */
  lemma FailsOnce(socketIO: bool, events: seq<Event>, i: int, j: int, side: Side, err: Error, err': Error)
    requires FailsAt(socketIO, events, i, side, err) && FailsAt(socketIO, events, j, side, err')
    ensures i == j && err == err'
  {
    if i < j {
      NotAfterFailure(socketIO, events, i, j, side, err, err');
    } else if j < i {
      NotAfterFailure(socketIO, events, j, i, side, err', err);
    }
  }

  lemma NotAfterFailure(socketIO: bool, events: seq<Event>, i: int, j: int, side: Side, err: Error, err': Error)
    requires FailsAt(socketIO, events, i, side, err) && i < j < |events|
    ensures !FailsAt(socketIO, events, j, side, err')
  {
    HappensInPrefix(socketIO, events, j, i);
    assert FailsAt(socketIO, events[..j], i, side, err);
    ErrorsAreReported(socketIO, events[..j], side, err);
    ReachableInv(socketIO, events[..j]);
  }

  // ---------- which error decides ----------

  /** The first send on the error channel. */
  ghost predicate FirstSend(socketIO: bool, events: seq<Event>, k: int) {
    && Happens(socketIO, events, k) && events[k].Sends?
    && forall j | 0 <= j < k && Happens(socketIO, events, j) :: !events[j].Sends?
  }

  lemma ReportsStep(s: State, e: Event)
    ensures s.reports <= Next(s, e).reports
    ensures |Next(s, e).reports| == |s.reports| + if Enabled(s, e) && e.Sends? then 1 else 0
    ensures Enabled(s, e) && e.Sends? ==> Next(s, e).reports[|s.reports|].from == e.side
  {
    if Enabled(s, e) {
      match e
      case PeerSends(from, msg) => WithLinkShape(s, from, LinkOf(s, from).(sent := LinkOf(s, from).sent + [msg]));
      case Sends(_) => SendsShape(s, e);
      case Select(_) => ForwarderShape(s, e);
      case Reads(_, _) => ForwarderShape(s, e);
      case Writes(_, _) => ForwarderShape(s, e);
      case _ =>
    }
  }

  /** The first report is that of the first send. */
  lemma {:induction false} FirstReport(socketIO: bool, events: seq<Event>) returns (k: int)
    ensures var reports := Run(Start(socketIO), events).reports;
            if reports == [] then forall j | Happens(socketIO, events, j) :: !events[j].Sends?
            else FirstSend(socketIO, events, k) && events[k].side == reports[0].from
  {
    k := -1;
    if events != [] {
      var n := |events| - 1;
      RunLast(Start(socketIO), events);
      k := FirstReport(socketIO, events[..n]);
      ReportsStep(Run(Start(socketIO), events[..n]), events[n]);
      forall j | j < n ensures Happens(socketIO, events[..n], j) <==> Happens(socketIO, events, j) {
        HappensInPrefix(socketIO, events, n, j);
      }
      if Run(Start(socketIO), events[..n]).reports == [] && Happens(socketIO, events, n) && events[n].Sends? {
        k := n;
      }
    }
  }

  /** The read or write at `i` failed, its error was the first one sent on the channel, at `k`, and
      the result is nil exactly if that error is one of the four close codes. */
  ghost predicate DecidedBy(socketIO: bool, events: seq<Event>, i: int, k: int, result: Result) {
    && FirstSend(socketIO, events, k) && i < k
    && Happens(socketIO, events, i) && (events[i].Reads? || events[i].Writes?)
    && FailsAt(socketIO, events, i, events[k].side, events[i].err)
    && var err := events[i].err;
       result == ReturnedNil <==> err.Close? && err.code in {1000, 1001, 1005, 1006}
  }

  /** What is sent is the error of an earlier failure. */
  lemma FailureBefore(socketIO: bool, events: seq<Event>, k: int, side: Side) returns (i: int, err: Error)
    requires Happens(socketIO, events, k) && events[k] == Sends(side)
    ensures FailsAt(socketIO, events, i, side, err) && i < k
  {
    ReachableInv(socketIO, events[..k]);
    var s := Run(Start(socketIO), events[..k]);
    assert ForwarderSound(s, side);
    err := LinkOf(s, side).pc.err;
    ErrorsAreReported(socketIO, events[..k], side, err);
    i :| FailsAt(socketIO, events[..k], i, side, err);
    HappensInPrefix(socketIO, events, k, i);
  }

  /** A read or write of the handshake fails there. */
  ghost predicate HandshakeFailsAt(socketIO: bool, events: seq<Event>, i: int) {
    Happens(socketIO, events, i) && (events[i].HsReads? || events[i].HsWrites?) && events[i].err != Nil
  }

  ghost predicate HandshakeFailed(socketIO: bool, events: seq<Event>) {
    exists i :: HandshakeFailsAt(socketIO, events, i)
  }

  /** The main goroutine returns, and no forwarder was started. */
  predicate GaveUp(s: State) {
    Returning(s.main) && !s.spawned
  }

  lemma GaveUpStep(s: State, e: Event)
    requires Control(s)
    ensures GaveUp(Next(s, e)) <==> GaveUp(s) || (Enabled(s, e) && (e.HsReads? || e.HsWrites?) && e.err != Nil)
  {
    if Enabled(s, e) {
      match e
      case PeerSends(from, msg) => WithLinkShape(s, from, LinkOf(s, from).(sent := LinkOf(s, from).sent + [msg]));
      case Sends(_) => SendsShape(s, e);
      case Select(_) => ForwarderShape(s, e);
      case Reads(_, _) => ForwarderShape(s, e);
      case Writes(_, _) => ForwarderShape(s, e);
      case HsReads(err) => GaveUpHandshake(s, err);
      case HsWrites(err) => GaveUpHandshake(s, err);
      case _ =>
    }
  }

  lemma GaveUpHandshake(s: State, err: Error)
    requires Control(s) && (Enabled(s, HsReads(err)) || Enabled(s, HsWrites(err)))
    ensures GaveUp(Handshake(s, err)) <==> err != Nil
  {
    match s.main
    case HsReadTarget =>
    case HsWriteClient(_) =>
    case HsReadClient =>
    case _ =>
  }

  /** A failed read or write of the handshake ends the proxy with an error, before any forwarder is
      started, and nothing else does. */
  lemma {:induction false} HandshakeFailureEnds(socketIO: bool, events: seq<Event>)
    ensures var s := Run(Start(socketIO), events);
            && (HandshakeFailed(socketIO, events)
                <==> Returning(s.main) && s.up.pc.NotStarted? && s.down.pc.NotStarted?)
            && (HandshakeFailed(socketIO, events) ==> s.main.result == ReturnedError)
  {
    ReachableInv(socketIO, events);
    var s := Run(Start(socketIO), events);
    assert ForwarderSound(s, Client) && ForwarderSound(s, Target);
    GaveUpMeans(socketIO, events);
  }

  lemma {:induction false} GaveUpMeans(socketIO: bool, events: seq<Event>)
    ensures GaveUp(Run(Start(socketIO), events)) <==> HandshakeFailed(socketIO, events)
  {
    if events != [] {
      var n := |events| - 1;
      RunLast(Start(socketIO), events);
      ReachableInv(socketIO, events[..n]);
      GaveUpMeans(socketIO, events[..n]);
      GaveUpStep(Run(Start(socketIO), events[..n]), events[n]);
      forall i | i < n ensures HandshakeFailsAt(socketIO, events[..n], i) <==> HandshakeFailsAt(socketIO, events, i) {
        HappensInPrefix(socketIO, events, n, i);
      }
      assert HandshakeFailsAt(socketIO, events, n)
        <==> Enabled(Run(Start(socketIO), events[..n]), events[n])
             && (events[n].HsReads? || events[n].HsWrites?) && events[n].err != Nil;
    }
  }

  /** The main goroutine returns only after a failed handshake, and then with an error, or after a
      forwarder's read or write failed; the failure that is reported first decides. */
  lemma FirstErrorDecides(socketIO: bool, events: seq<Event>)
    ensures var s := Run(Start(socketIO), events);
            Returning(s.main) ==>
              if HandshakeFailed(socketIO, events) then s.main.result == ReturnedError
              else exists i, k :: DecidedBy(socketIO, events, i, k, s.main.result)
  {
    ReachableInv(socketIO, events);
    GaveUpMeans(socketIO, events);
    var s := Run(Start(socketIO), events);
    if Returning(s.main) && s.spawned {
      var first := s.reports[0];
      assert first in s.reports;
      var k := FirstReport(socketIO, events);
      var i, err := FailureBefore(socketIO, events, k, first.from);
      ErrorsAreReported(socketIO, events, first.from, first.err);
      var j :| FailsAt(socketIO, events, j, first.from, first.err);
      FailsOnce(socketIO, events, i, j, first.from, err, first.err);
      assert DecidedBy(socketIO, events, i, k, s.main.result);
    }
  }
}
