/** How many more steps the relay can take: exactly which states have a bound, and which bound. */
module RelayBounds {
  import opened Relay
  import opened RelaySafety

  /** How many steps of the proxy a run takes: events that happen, other than peers sending. */
  function Steps(s: State, events: seq<Event>): nat
    decreases |events|
  {
    if events == [] then 0
    else Steps(Next(s, events[0]), events[1..]) + if Enabled(s, events[0]) && !events[0].PeerSends? then 1 else 0
  }

  /** No continuation takes more than `n` steps. */
  ghost predicate BoundedBy(s: State, n: nat) {
    forall events :: Steps(s, events) <= n
  }

  /** Either `done` is closed or neither direction will forward another message. */
  predicate Stopping(s: State) {
    s.done || (Ended(s, Client) && Ended(s, Target))
  }

  // ---------- states with a bound ----------

  function PcRank(pc: Pc): nat {
    match pc
    case Reading => 3
    case Writing(_) => 2
    case AtSelect => 1
    case Sending(_) => 1
    case _ => 0
  }

  function MainRank(m: MainPc): nat {
    match m
    case Waiting => 4
    case Received(_) => 3
    case ClosingTarget(_) => 2
    case ClosingClient(_) => 1
    case _ => 0
  }

  /** Steps that the three goroutines can still take in a stopping state. */
  function Rank(s: State): nat {
    MainRank(s.main) + PcRank(s.up.pc) + PcRank(s.down.pc)
  }

  /** A forwarder that is not about to report runs in a stopping state only if `done` is closed. */
  lemma RankDropsForwarder(s: State, e: Event)
    requires Control(s) && Stopping(s) && Enabled(s, e) && (e.Select? || e.Reads? || e.Writes?)
    ensures Stopping(Next(s, e)) && Rank(Next(s, e)) < Rank(s)
  {
    ForwarderShape(s, e);
    assert ForwarderSound(s, e.side);
    assert PcRank(Stepped(s, e).pc) < PcRank(LinkOf(s, e.side).pc);
  }

  lemma RankDropsSends(s: State, e: Event)
    requires Control(s) && Stopping(s) && Enabled(s, e) && e.Sends?
    ensures Stopping(Next(s, e)) && Rank(Next(s, e)) < Rank(s)
  {
    SendsShape(s, e);
  }

  lemma RankDropsMain(s: State, e: Event)
    requires Control(s) && Stopping(s) && Enabled(s, e)
    requires e.HsReads? || e.HsWrites? || e.Spawn? || e.Receive? || e.CloseDone? || e.CloseTarget? || e.CloseClient?
    ensures Stopping(Next(s, e)) && Rank(Next(s, e)) < Rank(s)
  {
    assert ForwarderSound(s, Client);
    assert !InHandshake(s.main);
  }

  lemma RankDrops(s: State, e: Event)
    requires Inv(s) && Stopping(s) && Enabled(s, e)
    ensures Stopping(Next(s, e))
    ensures if e.PeerSends? then Rank(Next(s, e)) == Rank(s) else Rank(Next(s, e)) < Rank(s)
  {
    match e
    case PeerSends(side, msg) => WithLinkShape(s, side, LinkOf(s, side).(sent := LinkOf(s, side).sent + [msg]));
    case Select(_) => RankDropsForwarder(s, e);
    case Reads(_, _) => RankDropsForwarder(s, e);
    case Writes(_, _) => RankDropsForwarder(s, e);
    case Sends(_) => RankDropsSends(s, e);
    case _ => RankDropsMain(s, e);
  }

  lemma {:induction false} StepsWithinRank(s: State, events: seq<Event>)
    requires Inv(s) && Stopping(s)
    ensures Steps(s, events) + Rank(Run(s, events)) <= Rank(s)
    decreases |events|
  {
    if events != [] {
      StepKeepsInv(s, events[0]);
      if Enabled(s, events[0]) { RankDrops(s, events[0]); }
      StepsWithinRank(Next(s, events[0]), events[1..]);
    }
  }

  /** Whatever happens after `done` is closed, the proxy takes at most five more steps. */
  lemma BoundedAfterDone(socketIO: bool, before: seq<Event>, after: seq<Event>)
    requires Run(Start(socketIO), before).done
    ensures Steps(Run(Start(socketIO), before), after) <= 5
  {
    ReachableInv(socketIO, before);
    var s := Run(Start(socketIO), before);
    StepsWithinRank(s, after);
    assert s.reports[0] in s.reports;
    assert LinkOf(s, s.reports[0].from).pc.Stopped?;
  }

  // ---------- states without a bound ----------

  lemma {:induction false} StepsConcat(s: State, a: seq<Event>, b: seq<Event>)
    ensures Steps(s, a + b) == Steps(s, a) + Steps(Run(s, a), b)
    decreases |a|
  {
    if a == [] {
      assert a + b == b;
    } else {
      assert (a + b)[1..] == a[1..] + b;
      StepsConcat(Next(s, a[0]), a[1..], b);
    }
  }

  /** This direction may still forward a message. */
  predicate Live(s: State, side: Side) {
    !s.done && !Ended(s, side)
  }

  /** The side whose message the next step needs, if it needs one. */
  function Awaited(s: State, side: Side): Side {
    if s.main.HsReadTarget? then Target else if s.main.HsReadClient? then Client else side
  }

  /** Before the forwarders run, the handshake can go on. */
  lemma HandshakeGoesOn(s: State, side: Side) returns (e: Event)
    requires Control(s) && Live(s, side) && !s.spawned && Available(LinkOf(s, Awaited(s, side)))
    ensures Enabled(s, e) && !e.PeerSends? && Live(Next(s, e), side)
  {
    assert ForwarderSound(s, side);
    e := if s.main.Spawning? then Spawn
         else if s.main.HsReadTarget? || s.main.HsReadClient? then HsReads(Nil)
         else HsWrites(Nil);
  }

  /** A live forwarder can make its next step. */
  lemma ForwarderGoesOn(s: State, side: Side) returns (e: Event)
    requires Control(s) && Live(s, side) && s.spawned && Available(LinkOf(s, side))
    ensures Enabled(s, e) && !e.PeerSends? && Live(Next(s, e), side)
  {
    assert ForwarderSound(s, side);
    assert !Returning(s.main);
    var pc := LinkOf(s, side).pc;
    e := if pc.AtSelect? then Select(side) else if pc.Reading? then Reads(side, Nil) else Writes(side, Nil);
    ForwarderShape(s, e);
  }

  /** A peer that sends one more message makes room for at least one more step. */
  lemma OneMoreStep(s: State, side: Side) returns (events: seq<Event>)
    requires Inv(s) && Live(s, side)
    ensures Live(Run(s, events), side) && Steps(s, events) >= 1
  {
    var p, msg := Awaited(s, side), Msg(1, "");
    var l := LinkOf(s, p);
    WithLinkShape(s, p, l.(sent := l.sent + [msg]));
    var s1 := Next(s, PeerSends(p, msg));
    assert LinkOrder(s, p);
    StepKeepsInv(s, PeerSends(p, msg));
    var e := Spawn;
    if s.spawned {
      e := ForwarderGoesOn(s1, side);
    } else {
      e := HandshakeGoesOn(s1, side);
    }
    events := [PeerSends(p, msg), e];
    assert events[1..] == [e] && [e][1..] == [];
    assert Run(s1, [e]) == Next(s1, e);
    assert Steps(s1, [e]) == 1;
  }

  lemma {:induction false} ManyMoreSteps(s: State, side: Side, n: nat) returns (events: seq<Event>)
    requires Inv(s) && Live(s, side)
    ensures Steps(s, events) >= n
    decreases n
  {
    if n == 0 {
      events := [];
    } else {
      var first := OneMoreStep(s, side);
      RunKeepsInv(s, first);
      var rest := ManyMoreSteps(Run(s, first), side, n - 1);
      StepsConcat(s, first, rest);
      events := first + rest;
    }
  }

  /** In every reachable state: the steps still to come are bounded if and only if `done` is closed
      or both directions have ended, by a failed read or write or a failed handshake. The bound is
      then six. */
  lemma BoundedExactly(socketIO: bool, events: seq<Event>)
    ensures var s := Run(Start(socketIO), events);
            && ((exists n: nat :: BoundedBy(s, n)) <==> s.done || (Ended(s, Client) && Ended(s, Target)))
            && ((exists n: nat :: BoundedBy(s, n)) <==> BoundedBy(s, 6))
  {
    ReachableInv(socketIO, events);
    var s := Run(Start(socketIO), events);
    if Stopping(s) {
      AtMostSix(s);
    } else {
      var side := if Ended(s, Client) then Target else Client;
      forall n: nat ensures !BoundedBy(s, n) {
        var more := ManyMoreSteps(s, side, n + 1);
      }
    }
  }

  lemma AtMostSix(s: State)
    requires Inv(s) && Stopping(s)
    ensures BoundedBy(s, 6)
  {
    if s.done {
      assert s.reports[0] in s.reports;
      assert LinkOf(s, s.reports[0].from).pc.Stopped?;
    }
    assert Rank(s) <= 6;
    forall events ensures Steps(s, events) <= 6 {
      StepsWithinRank(s, events);
    }
  }

  // ---------- a run without a bound ----------

  /** The main goroutine has an error to receive and has not run yet; the other direction is idle. */
  predicate ErrorPending(s: State) {
    && s.main.Waiting? && s.errChan != [] && s.reports != []
    && !s.done && !s.clientClosed && !s.targetClosed
    && s.down.pc.AtSelect? && s.down.read == s.down.sent
  }

  lemma OneMoreMessage(s: State, msg: Msg) returns (events: seq<Event>)
    requires ErrorPending(s)
    ensures ErrorPending(Run(s, events))
    ensures Run(s, events).down.written == s.down.written + [msg]
  {
    var e0, e1, e2, e3 := PeerSends(Target, msg), Select(Target), Reads(Target, Nil), Writes(Target, Nil);
    var s1 := Next(s, e0);
    var s2 := Next(s1, e1);
    var s3 := Next(s2, e2);
    var s4 := Next(s3, e3);
    assert s3.down.pc == Writing(msg) && s3.down.read == s3.down.sent;
    events := [e0, e1, e2, e3];
    assert events[1..] == [e1, e2, e3] && events[1..][1..] == [e2, e3] && [e2, e3][1..] == [e3] && [e3][1..] == [];
    assert Run(s3, [e3]) == s4;
    assert Run(s2, [e2, e3]) == s4;
  }

  lemma {:induction false} ManyMoreMessages(s: State, msgs: seq<Msg>) returns (events: seq<Event>)
    requires ErrorPending(s)
    ensures ErrorPending(Run(s, events))
    ensures Run(s, events).down.written == s.down.written + msgs
    decreases |msgs|
  {
    if msgs == [] {
      events := [];
    } else {
      var first := OneMoreMessage(s, msgs[0]);
      var rest := ManyMoreMessages(Run(s, first), msgs[1..]);
      RunConcat(s, first, rest);
      events := first + rest;
    }
  }

  /** The bound really needs `done` closed: between the first error and the main goroutine's next
      step the other direction can relay any list of messages. */
  lemma UnboundedBeforeDone(msgs: seq<Msg>) returns (before: seq<Event>, after: seq<Event>)
    ensures Run(Start(false), before).reports != [] && Run(Start(false), before).down.written == []
    ensures var s := Run(Run(Start(false), before), after);
            s.main.Waiting? && s.down.written == msgs
  {
    var err := Close(1006);
    before := [Spawn, Select(Client), Reads(Client, err), Sends(Client)];
    var s0 := Start(false);
    var s1 := Next(s0, Spawn);
    var s2 := Next(s1, Select(Client));
    var s3 := Next(s2, Reads(Client, err));
    var s4 := Next(s3, Sends(Client));
    assert before[1..] == [Select(Client), Reads(Client, err), Sends(Client)];
    assert before[1..][1..] == [Reads(Client, err), Sends(Client)];
    assert [Reads(Client, err), Sends(Client)][1..] == [Sends(Client)] && [Sends(Client)][1..] == [];
    assert Run(s3, [Sends(Client)]) == s4;
    assert Run(s2, [Reads(Client, err), Sends(Client)]) == s4;
    assert ErrorPending(s4);
    after := ManyMoreMessages(s4, msgs);
  }
}
