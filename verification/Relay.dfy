/** The WebSocket relay as a labelled transition system: the main goroutine with its optional
    Socket.IO handshake, one forwarder per direction, the error channel and the done channel. */
module Relay {

  datatype Msg = Msg(kind: int, payload: string)

  /** A Go error value; `Nil` is the absence of one. */
  datatype Error = Nil | Close(code: int) | Other(text: string)

  datatype Side = Client | Target

  /** Where a forwarder stands. `Writing` holds the message it has read, `Sending` the error it is
      about to put on the channel. */
  datatype Pc = NotStarted | AtSelect | Reading | Writing(msg: Msg) | Sending(err: Error) | Stopped

  datatype Result = ReturnedNil | ReturnedError

  /** Where the main goroutine stands. After it has decided its result, the deferred calls close
      `done`, then the target connection, and the server closes the client connection last. */
  datatype MainPc =
    | HsReadTarget | HsWriteClient(msg: Msg) | HsReadClient | HsWriteTarget(msg: Msg)
    | Spawning | Waiting | Received(err: Error)
    | ClosingTarget(result: Result) | ClosingClient(result: Result) | Finished(result: Result)

  /** One direction, named after the side it reads from: where its forwarder stands, what that peer
      sent, what the proxy read of it, what it wrote to the other side, and what it read but failed
      to write. */
  datatype Link = Link(pc: Pc, sent: seq<Msg>, read: seq<Msg>, written: seq<Msg>, lost: seq<Msg>)

  datatype Report = Report(from: Side, err: Error)

  datatype State = State(
    socketIO: bool, main: MainPc, up: Link, down: Link,
    errChan: seq<Error>, done: bool, targetClosed: bool, clientClosed: bool,
    // history: whether the forwarders were started, and what was sent on the channel and by whom
    spawned: bool, reports: seq<Report>)

  const CAPACITY := 2

  function Start(socketIO: bool): State {
    var idle := Link(NotStarted, [], [], [], []);
    State(socketIO, if socketIO then HsReadTarget else Spawning, idle, idle, [], false, false, false, false, [])
  }

  function OtherSide(side: Side): Side {
    if side.Client? then Target else Client
  }

  function LinkOf(s: State, side: Side): Link {
    if side.Client? then s.up else s.down
  }

  function WithLink(s: State, side: Side, l: Link): State {
    if side.Client? then s.(up := l) else s.(down := l)
  }

  predicate Closed(s: State, side: Side) {
    if side.Client? then s.clientClosed else s.targetClosed
  }

  predicate Available(l: Link) {
    |l.read| < |l.sent|
  }

  /** The close codes after which the proxy returns no error. */
  function ResultOf(err: Error): Result {
    if err == Nil || (err.Close? && err.code in {1001, 1000, 1005, 1006}) then ReturnedNil else ReturnedError
  }

  /** Every step is labelled with what the environment contributes: the message a peer sends, or
      the error with which a read or write ends, `Nil` for success. */
  datatype Event =
    | PeerSends(side: Side, msg: Msg)
    | HsReads(err: Error) | HsWrites(err: Error)
    | Spawn | Receive | CloseDone | CloseTarget | CloseClient
    | Select(side: Side) | Reads(side: Side, err: Error) | Writes(side: Side, err: Error) | Sends(side: Side)

  /** A read can fail at any time and succeeds only on an open connection with a message to read;
      a write can fail at any time and succeeds only on an open connection; a channel send needs a
      free slot and a receive a filled one. */
  predicate Enabled(s: State, e: Event) {
    match e
    case PeerSends(_, _) => true
    case HsReads(err) =>
      || (s.main.HsReadTarget? && (err == Nil ==> Available(s.down)))
      || (s.main.HsReadClient? && (err == Nil ==> Available(s.up)))
    case HsWrites(_) => s.main.HsWriteClient? || s.main.HsWriteTarget?
    case Spawn => s.main.Spawning?
    case Receive => s.main.Waiting? && s.errChan != []
    case CloseDone => s.main.Received?
    case CloseTarget => s.main.ClosingTarget?
    case CloseClient => s.main.ClosingClient?
    case Select(side) => LinkOf(s, side).pc.AtSelect?
    case Reads(side, err) =>
      LinkOf(s, side).pc.Reading? && (err == Nil ==> !Closed(s, side) && Available(LinkOf(s, side)))
    case Writes(side, err) => LinkOf(s, side).pc.Writing? && (err == Nil ==> !Closed(s, OtherSide(side)))
    case Sends(side) => LinkOf(s, side).pc.Sending? && |s.errChan| < CAPACITY
  }

  function TakeNext(l: Link): Link
    requires Available(l)
  {
    l.(read := l.read + [l.sent[|l.read|]])
  }

  /** The main goroutine's part of the handshake: forward the target's first message, then the
      client's first answer. */
  function Handshake(s: State, err: Error): State
    requires Enabled(s, HsReads(err)) || Enabled(s, HsWrites(err))
  {
    var s' := if err == Nil then s else s.(main := ClosingTarget(ReturnedError));
    match s.main
    case HsReadTarget =>
      if err != Nil then s' else s.(main := HsWriteClient(s.down.sent[|s.down.read|]), down := TakeNext(s.down))
    case HsWriteClient(msg) =>
      if err != Nil then s'.(down := s.down.(lost := s.down.lost + [msg]))
      else s.(main := HsReadClient, down := s.down.(written := s.down.written + [msg]))
    case HsReadClient =>
      if err != Nil then s' else s.(main := HsWriteTarget(s.up.sent[|s.up.read|]), up := TakeNext(s.up))
    case HsWriteTarget(msg) =>
      if err != Nil then s'.(up := s.up.(lost := s.up.lost + [msg]))
      else s.(main := Spawning, up := s.up.(written := s.up.written + [msg]))
    case _ => s
  }

  /** One pass of a forwarder's loop is a select, a read and a write. */
  function AfterSelect(l: Link, done: bool): Link {
    l.(pc := if done then Stopped else Reading)
  }

  function AfterRead(l: Link, err: Error): Link
    requires err == Nil ==> Available(l)
  {
    if err != Nil then l.(pc := Sending(err)) else TakeNext(l).(pc := Writing(l.sent[|l.read|]))
  }

  function AfterWrite(l: Link, err: Error): Link
    requires l.pc.Writing?
  {
    var msg := l.pc.msg;
    if err != Nil then l.(pc := Sending(err), lost := l.lost + [msg])
    else l.(pc := AtSelect, written := l.written + [msg])
  }

  /** The link after one step of its forwarder. */
  function Stepped(s: State, e: Event): Link
    requires Enabled(s, e) && (e.Select? || e.Reads? || e.Writes?)
  {
    var l := LinkOf(s, e.side);
    if e.Select? then AfterSelect(l, s.done)
    else if e.Reads? then AfterRead(l, e.err)
    else AfterWrite(l, e.err)
  }

  function Do(s: State, e: Event): State
    requires Enabled(s, e)
  {
    match e
    case PeerSends(side, msg) => WithLink(s, side, LinkOf(s, side).(sent := LinkOf(s, side).sent + [msg]))
    case HsReads(err) => Handshake(s, err)
    case HsWrites(err) => Handshake(s, err)
    case Spawn => s.(main := Waiting, up := s.up.(pc := AtSelect), down := s.down.(pc := AtSelect), spawned := true)
    case Receive => s.(main := Received(s.errChan[0]), errChan := s.errChan[1..])
    case CloseDone => s.(main := ClosingTarget(ResultOf(s.main.err)), done := true)
    case CloseTarget => s.(main := ClosingClient(s.main.result), targetClosed := true)
    case CloseClient => s.(main := Finished(s.main.result), clientClosed := true)
    case Select(side) => WithLink(s, side, Stepped(s, e))
    case Reads(side, _) => WithLink(s, side, Stepped(s, e))
    case Writes(side, _) => WithLink(s, side, Stepped(s, e))
    case Sends(side) =>
      var err := LinkOf(s, side).pc.err;
      WithLink(s, side, LinkOf(s, side).(pc := Stopped))
        .(errChan := s.errChan + [err], reports := s.reports + [Report(side, err)])
  }

  /** An event that cannot happen changes nothing, so every event sequence is a run. */
  function Next(s: State, e: Event): State {
    if Enabled(s, e) then Do(s, e) else s
  }

  function Run(s: State, events: seq<Event>): State
    decreases |events|
  {
    if events == [] then s else Run(Next(s, events[0]), events[1..])
  }
}
