/**
 The sidecar's side of a command: for every ExecStart request one handler, up to two
 stream goroutines and one waiter write to a connection that keeps the order of writes.
 Every statement at which another goroutine may run is a step of its own, so a run is
 any interleaving of them, of any number of sessions, and of unrelated messages.
 */
module ExecProducer {
  import opened Wrappers
  import opened Codec
  import opened Integers

  const CHUNK := 4096

  /** The library's encoding of the small payloads; the sidecar writes them, clients read them. */
  datatype Msgpack = Msgpack(marshalAck: (uint32, uint32) -> seq<uint8>,
                             marshalExit: int -> seq<uint8>,
                             unmarshalExit: seq<uint8> -> Option<int>,
                             unmarshalError: seq<uint8> -> Option<(string, string)>)

  datatype Which = Stdout | Stderr

  datatype ReaderPc =
    | Absent
    | NotSpawned
    | Reading
    | Sending(data: seq<uint8>, last: bool)
    | Returning
    | Finished

  /** `total` is what the reader hands over before it reports an error; `pos` of it has been read. */
  datatype Stream = Stream(total: seq<uint8>, pos: nat, pc: ReaderPc)

  datatype HandlerPc =
    | Rejecting(error: seq<uint8>)
    | Rejected(error: seq<uint8>)
    | Acking
    | SpawnStdout
    | SpawnStderr
    | SpawnWaiter
    | Returned

  datatype WaiterPc = NotStarted | AwaitExit | AwaitStreams | SendExit | Closing | Done

  datatype Session = Session(
    channel: uint32, id: uint32, process: uint32,
    stdout: Stream, stderr: Stream,
    exitCode: int, exited: bool, closed: bool,
    wg: int, handler: HandlerPc, waiter: WaiterPc)
  {
    function Get(w: Which): Stream {
      if w == Stdout then stdout else stderr
    }

    function Put(w: Which, st: Stream): Session {
      if w == Stdout then this.(stdout := st) else this.(stderr := st)
    }
  }

  datatype StartOutcome =
    | InvalidPayload(error: seq<uint8>)
    | StartFailed(error: seq<uint8>)
    | Started(process: uint32, tty: bool, stdout: seq<uint8>, stderr: seq<uint8>, exitCode: int)

  datatype LocalAction =
    | Handle
    | Read(which: Which, n: nat, eof: bool)
    | Send(which: Which)
    | Leave(which: Which)
    | ProcessExits
    | Wait

  datatype Action =
    | Request(channel: uint32, id: uint32, outcome: StartOutcome)
    | Local(session: nat, act: LocalAction)
    | Other(env: Envelope)
    | ChannelTakenElsewhere

  /** A message with the session that wrote it, or -1 for the connection's other traffic. */
  datatype Sent = Sent(writer: int, env: Envelope)

  datatype Conn = Conn(sessions: seq<Session>, wire: seq<Sent>, chanID: uint32)

  const INITIAL := Conn([], [], 100)

  // ---------- One session ----------

  function StreamType(w: Which): uint8 {
    if w == Stdout then MSG_EXEC_STDOUT else MSG_EXEC_STDERR
  }

  function AckOf(m: Msgpack, se: Session): Envelope {
    Envelope(MSG_ACK, se.channel, se.id, m.marshalAck(se.process, se.channel))
  }

  function ErrorOf(se: Session, error: seq<uint8>): Envelope {
    Envelope(MSG_ERROR, se.channel, se.id, error)
  }

  function ChunkOf(se: Session, w: Which, data: seq<uint8>): Envelope {
    Envelope(StreamType(w), se.channel, 0, data)
  }

  function ExitOf(m: Msgpack, se: Session): Envelope {
    Envelope(MSG_EXEC_EXIT, se.channel, 0, m.marshalExit(se.exitCode))
  }

  function NewSession(channel: uint32, id: uint32, o: StartOutcome): Session {
    match o
    case InvalidPayload(error) => RejectedSession(channel, id, error)
    case StartFailed(error) => RejectedSession(channel, id, error)
    case Started(process, tty, stdout, stderr, exitCode) =>
      Session(channel, id, process, Stream(stdout, 0, NotSpawned),
              if tty then Stream([], 0, Absent) else Stream(stderr, 0, NotSpawned),
              exitCode, false, false, 0, Acking, NotStarted)
  }

  function RejectedSession(channel: uint32, id: uint32, error: seq<uint8>): Session {
    Session(channel, id, 0, Stream([], 0, Absent), Stream([], 0, Absent), 0, false, false, 0, Rejecting(error), NotStarted)
  }

  /** wg.Add(1) and the go statement, for a stream that exists. */
  function Spawn(se: Session, w: Which): Session {
    if se.Get(w).pc == NotSpawned then se.Put(w, se.Get(w).(pc := Reading)).(wg := se.wg + 1) else se
  }

  function HandlerStep(m: Msgpack, se: Session): Option<(Session, Option<Envelope>)> {
    match se.handler
    case Rejecting(error) => Some((se.(handler := Rejected(error)), Some(ErrorOf(se, error))))
    case Acking => Some((se.(handler := SpawnStdout), Some(AckOf(m, se))))
    case SpawnStdout => Some((Spawn(se, Stdout).(handler := SpawnStderr), None))
    case SpawnStderr => Some((Spawn(se, Stderr).(handler := SpawnWaiter), None))
    case SpawnWaiter => Some((se.(handler := Returned, waiter := AwaitExit), None))
    case _ => None
  }

  /** The reader has put the next n bytes into the buffer, perhaps together with its final error. */
  function AfterRead(st: Stream, n: nat, eof: bool): Stream
    requires st.pos + n <= |st.total|
  {
    var data := st.total[st.pos..st.pos + n];
    Stream(st.total, st.pos + n, if n > 0 then Sending(data, eof) else if eof then Returning else Reading)
  }

  function ReadStep(se: Session, w: Which, n: nat, eof: bool): Option<(Session, Option<Envelope>)> {
    var st := se.Get(w);
    if st.pc != Reading || n > CHUNK || st.pos + n > |st.total| || (eof && st.pos + n < |st.total|) then None
    else Some((se.Put(w, AfterRead(st, n, eof)), None))
  }

  function SendStep(se: Session, w: Which): Option<(Session, Option<Envelope>)> {
    var st := se.Get(w);
    if !st.pc.Sending? then None
    else Some((se.Put(w, st.(pc := if st.pc.last then Returning else Reading)), Some(ChunkOf(se, w, st.pc.data))))
  }

  /** The deferred wg.Done of a stream goroutine. */
  function LeaveStep(se: Session, w: Which): Option<(Session, Option<Envelope>)> {
    var st := se.Get(w);
    if st.pc != Returning then None
    else Some((se.Put(w, st.(pc := Finished)).(wg := se.wg - 1), None))
  }

  function WaitStep(m: Msgpack, se: Session): Option<(Session, Option<Envelope>)> {
    match se.waiter
    case AwaitExit => if se.exited then Some((se.(waiter := AwaitStreams), None)) else None
    case AwaitStreams => if se.wg == 0 then Some((se.(waiter := SendExit), None)) else None
    case SendExit => Some((se.(waiter := Closing), Some(ExitOf(m, se))))
    case Closing => Some((se.(waiter := Done, closed := true), None))
    case _ => None
  }

  function SessionStep(m: Msgpack, se: Session, a: LocalAction): Option<(Session, Option<Envelope>)> {
    match a
    case Handle => HandlerStep(m, se)
    case Read(w, n, eof) => ReadStep(se, w, n, eof)
    case Send(w) => SendStep(se, w)
    case Leave(w) => LeaveStep(se, w)
    case ProcessExits =>
      if se.exited || se.handler.Rejecting? || se.handler.Rejected? then None else Some((se.(exited := true), None))
    case Wait => WaitStep(m, se)
  }

  // ---------- The connection ----------

  /** Events and pongs travel on channel 0; replies to file requests and errors on the request's own channel. */
  predicate IsOther(e: Envelope) {
    e.msgType in {MSG_ACK, MSG_ERROR, MSG_FS_READ, MSG_FS_LIST} ||
    (e.channel == 0 && e.msgType in {MSG_PONG, MSG_FS_EVENT, MSG_PORT_OPEN, MSG_PORT_CLOSE, MSG_SANDBOX_READY})
  }

  function NextChannel(chanID: uint32): uint32 {
    (chanID + 1) % 0x1_0000_0000
  }

  /** Session i has moved on to `se` and has written `out`, if anything. */
  function After(s: Conn, i: nat, se: Session, out: Option<Envelope>): Conn
    requires i < |s.sessions|
  {
    s.(sessions := s.sessions[i := se],
       wire := if out.Some? then s.wire + [Sent(i, out.value)] else s.wire)
  }

  function Step(m: Msgpack, s: Conn, a: Action): Option<Conn> {
    match a
    case Request(channel, id, outcome) =>
      if outcome.Started? && channel == 0 then
        var chanID := NextChannel(s.chanID);
        Some(s.(sessions := s.sessions + [NewSession(chanID, id, outcome)], chanID := chanID))
      else
        Some(s.(sessions := s.sessions + [NewSession(channel, id, outcome)]))
    case Local(i, act) =>
      if i >= |s.sessions| then None
      else
        (match SessionStep(m, s.sessions[i], act)
         case None => None
         case Some((se, out)) => Some(After(s, i, se, out)))
    case Other(env) => if IsOther(env) then Some(s.(wire := s.wire + [Sent(-1, env)])) else None
    case ChannelTakenElsewhere => Some(s.(chanID := NextChannel(s.chanID)))
  }

  /** The state to which a schedule leads from s, or None when one of its steps cannot be taken. */
  function Run(m: Msgpack, s: Conn, schedule: seq<Action>): Option<Conn>
    decreases |schedule|
  {
    if schedule == [] then Some(s)
    else
      var next := Step(m, s, schedule[0]);
      if next.None? then None else Run(m, next.value, schedule[1..])
  }

  function Execute(m: Msgpack, schedule: seq<Action>): Option<Conn> {
    Run(m, INITIAL, schedule)
  }

  // ---------- What is on the wire ----------

  /** What session `writer` wrote, in order. */
  function Trace(wire: seq<Sent>, writer: int): seq<Envelope> {
    if wire == [] then []
    else
      var last, rest := wire[|wire| - 1], Trace(wire[..|wire| - 1], writer);
      if last.writer == writer then rest + [last.env] else rest
  }

  /** What a client that filters by channel sees. */
  function ByChannel(wire: seq<Sent>, channel: uint32): seq<Envelope> {
    if wire == [] then []
    else
      var last, rest := wire[|wire| - 1], ByChannel(wire[..|wire| - 1], channel);
      if last.env.channel == channel then rest + [last.env] else rest
  }

  function Envelopes(wire: seq<Sent>): (es: seq<Envelope>)
    ensures |es| == |wire|
  {
    if wire == [] then [] else Envelopes(wire[..|wire| - 1]) + [wire[|wire| - 1].env]
  }

  /** The payloads of one message type, concatenated. */
  function Payloads(t: seq<Envelope>, msgType: uint8): seq<uint8> {
    if t == [] then []
    else
      var last, rest := t[|t| - 1], Payloads(t[..|t| - 1], msgType);
      if last.msgType == msgType then rest + last.payload else rest
  }

  predicate IsChunk(e: Envelope) {
    (e.msgType == MSG_EXEC_STDOUT || e.msgType == MSG_EXEC_STDERR) && e.id == 0 && 1 <= |e.payload| <= 4096
  }

  /** A prefix of Ack (Stdout|Stderr)* Exit, or the single Error of a refused start. */
  ghost predicate ExecGrammar(t: seq<Envelope>) {
    t == [] ||
    (|t| == 1 && t[0].msgType == MSG_ERROR) ||
    (t[0].msgType == MSG_ACK &&
     forall k :: 1 <= k < |t| ==> IsChunk(t[k]) || (k == |t| - 1 && t[k].msgType == MSG_EXEC_EXIT))
  }

  predicate EndsWithExit(t: seq<Envelope>) {
    t != [] && t[|t| - 1].msgType == MSG_EXEC_EXIT
  }

  predicate StartRefused(se: Session) {
    se.handler.Rejecting? || se.handler.Rejected?
  }

  /** Everything a client can rely on about the messages of one session. */
  ghost predicate FaithfulTrace(m: Msgpack, se: Session, t: seq<Envelope>) {
    && ExecGrammar(t)
    && Payloads(t, MSG_EXEC_STDOUT) <= se.stdout.total
    && Payloads(t, MSG_EXEC_STDERR) <= se.stderr.total
    && (t != [] && !StartRefused(se) ==> t[0] == AckOf(m, se))
    && (EndsWithExit(t) ==>
          && t[|t| - 1] == ExitOf(m, se)
          && Payloads(t, MSG_EXEC_STDOUT) == se.stdout.total
          && Payloads(t, MSG_EXEC_STDERR) == se.stderr.total)
  }

  // ---------- Invariant of one session ----------

  predicate Live(st: Stream) {
    st.pc.Reading? || st.pc.Sending? || st.pc.Returning?
  }

  predicate Drained(st: Stream) {
    st.pc.Absent? || st.pc.Finished?
  }

  predicate NotYetSpawned(st: Stream) {
    st.pc.Absent? || st.pc.NotSpawned?
  }

  function Pending(st: Stream): seq<uint8> {
    if st.pc.Sending? then st.pc.data else []
  }

  ghost predicate StreamInv(st: Stream, sent: seq<uint8>) {
    && st.pos <= |st.total|
    && sent + Pending(st) == st.total[..st.pos]
    && (st.pc.Sending? ==> 1 <= |st.pc.data| <= CHUNK && (st.pc.last ==> st.pos == |st.total|))
    && (st.pc.Returning? || st.pc.Finished? ==> st.pos == |st.total|)
    && (st.pc.Absent? ==> st.total == [])
    && (NotYetSpawned(st) ==> st.pos == 0)
  }

  predicate ExitSent(se: Session) {
    se.waiter.Closing? || se.waiter.Done?
  }

  predicate Acked(se: Session) {
    !se.handler.Rejecting? && !se.handler.Rejected? && !se.handler.Acking?
  }

  ghost predicate ControlInv(se: Session) {
    && se.wg == (if Live(se.stdout) then 1 else 0) + (if Live(se.stderr) then 1 else 0)
    && (!Acked(se) || se.handler.SpawnStdout? ==> NotYetSpawned(se.stdout) && NotYetSpawned(se.stderr))
    && (se.handler.SpawnStderr? ==> !se.stdout.pc.NotSpawned? && NotYetSpawned(se.stderr))
    && (se.handler.SpawnWaiter? || se.handler.Returned? ==> !se.stdout.pc.NotSpawned? && !se.stderr.pc.NotSpawned?)
    && (se.handler.Returned? <==> !se.waiter.NotStarted?)
    && (!se.waiter.NotStarted? && !se.waiter.AwaitExit? ==> se.exited)
    && (se.waiter.SendExit? || ExitSent(se) ==> Drained(se.stdout) && Drained(se.stderr))
    && (se.closed <==> se.waiter.Done?)
  }

  ghost predicate TraceInv(m: Msgpack, se: Session, t: seq<Envelope>) {
    match se.handler
    case Rejecting(_) => t == []
    case Rejected(error) => t == [ErrorOf(se, error)]
    case Acking => t == []
    case _ =>
      && |t| >= (if ExitSent(se) then 2 else 1)
      && t[0] == AckOf(m, se)
      && (forall k :: 1 <= k < |t| ==> IsChunk(t[k]) || (k == |t| - 1 && ExitSent(se)))
      && (ExitSent(se) ==> t[|t| - 1] == ExitOf(m, se))
  }

  /** The invariant, with the bytes sent so far on each stream given apart from the trace. */
  ghost predicate GoroutineInv(m: Msgpack, se: Session, t: seq<Envelope>, outSent: seq<uint8>, errSent: seq<uint8>) {
    && ControlInv(se)
    && TraceInv(m, se, t)
    && StreamInv(se.stdout, outSent)
    && StreamInv(se.stderr, errSent)
  }

  ghost predicate SessionInv(m: Msgpack, se: Session, t: seq<Envelope>) {
    GoroutineInv(m, se, t, Payloads(t, MSG_EXEC_STDOUT), Payloads(t, MSG_EXEC_STDERR))
  }

  function Appended(t: seq<Envelope>, out: Option<Envelope>): seq<Envelope> {
    if out.Some? then t + [out.value] else t
  }

  function SentAfter(sent: seq<uint8>, out: Option<Envelope>, msgType: uint8): seq<uint8> {
    if out.Some? && out.value.msgType == msgType then sent + out.value.payload else sent
  }

  lemma PayloadsAppended(t: seq<Envelope>, out: Option<Envelope>, msgType: uint8)
    ensures Payloads(Appended(t, out), msgType) == SentAfter(Payloads(t, msgType), out, msgType)
  {
    if out.Some? {
      assert (t + [out.value])[..|t|] == t;
    }
  }

  /** `se'` and `out` are what one step of a session with these histories leads to. */
  ghost predicate KeepsInv(m: Msgpack, se': Session, out: Option<Envelope>, t: seq<Envelope>, outSent: seq<uint8>,
                           errSent: seq<uint8>) {
    GoroutineInv(m, se', Appended(t, out), SentAfter(outSent, out, MSG_EXEC_STDOUT), SentAfter(errSent, out, MSG_EXEC_STDERR))
  }

  lemma SpawnKeepsInv(m: Msgpack, se: Session, w: Which, next: HandlerPc, t: seq<Envelope>,
                      outSent: seq<uint8>, errSent: seq<uint8>)
    requires GoroutineInv(m, se, t, outSent, errSent)
    requires (w == Stdout && se.handler == SpawnStdout && next == SpawnStderr) ||
             (w == Stderr && se.handler == SpawnStderr && next == SpawnWaiter)
    ensures GoroutineInv(m, Spawn(se, w).(handler := next), t, outSent, errSent)
  {
    hide IsChunk;
  }

  lemma HandlerKeepsInv(m: Msgpack, se: Session, t: seq<Envelope>, outSent: seq<uint8>, errSent: seq<uint8>)
    requires GoroutineInv(m, se, t, outSent, errSent) && HandlerStep(m, se).Some?
    ensures var (se', out) := HandlerStep(m, se).value; KeepsInv(m, se', out, t, outSent, errSent)
  {
    hide StreamInv, IsChunk, Spawn;
    match se.handler
    case Rejecting(error) =>
      assert t + [ErrorOf(se, error)] == [ErrorOf(se, error)];
    case Acking =>
    case SpawnStdout =>
      SpawnKeepsInv(m, se, Stdout, SpawnStderr, t, outSent, errSent);
    case SpawnStderr =>
      SpawnKeepsInv(m, se, Stderr, SpawnWaiter, t, outSent, errSent);
    case _ =>
  }

  lemma ReadKeepsStream(st: Stream, n: nat, eof: bool, sent: seq<uint8>)
    requires StreamInv(st, sent) && st.pc == Reading && n <= CHUNK && st.pos + n <= |st.total|
    requires eof ==> st.pos + n == |st.total|
    ensures StreamInv(AfterRead(st, n, eof), sent)
  {
    assert st.total[..st.pos + n] == st.total[..st.pos] + st.total[st.pos..st.pos + n];
  }

  /** A stream goroutine that goes on running changes nothing but its own stream. */
  lemma LiveStreamKeepsInv(m: Msgpack, se: Session, w: Which, st: Stream, t: seq<Envelope>,
                           outSent: seq<uint8>, errSent: seq<uint8>)
    requires GoroutineInv(m, se, t, outSent, errSent) && Live(se.Get(w)) && Live(st)
    requires StreamInv(st, if w == Stdout then outSent else errSent)
    ensures GoroutineInv(m, se.Put(w, st), t, outSent, errSent)
  {
    assert TraceInv(m, se.Put(w, st), t);
    if w == Stdout {
      assert ControlInv(se.(stdout := st));
    } else {
      assert ControlInv(se.(stderr := st));
    }
  }

  lemma ReadKeepsInv(m: Msgpack, se: Session, w: Which, n: nat, eof: bool, t: seq<Envelope>,
                     outSent: seq<uint8>, errSent: seq<uint8>)
    requires GoroutineInv(m, se, t, outSent, errSent) && ReadStep(se, w, n, eof).Some?
    ensures var (se', out) := ReadStep(se, w, n, eof).value; KeepsInv(m, se', out, t, outSent, errSent)
  {
    var st := se.Get(w);
    var st' := AfterRead(st, n, eof);
    ReadKeepsStream(st, n, eof, if w == Stdout then outSent else errSent);
    LiveStreamKeepsInv(m, se, w, st', t, outSent, errSent);
  }

  lemma SendKeepsInv(m: Msgpack, se: Session, w: Which, t: seq<Envelope>, outSent: seq<uint8>, errSent: seq<uint8>)
    requires GoroutineInv(m, se, t, outSent, errSent) && SendStep(se, w).Some?
    ensures var (se', out) := SendStep(se, w).value; KeepsInv(m, se', out, t, outSent, errSent)
  {
    hide IsChunk, StreamInv, TraceInv, ControlInv;
    var st := se.Get(w);
    var st' := st.(pc := if st.pc.last then Returning else Reading);
    var sent := if w == Stdout then outSent else errSent;
    SendKeepsStream(st, sent);
    SendKeepsControl(se, w, st');
    SendKeepsTrace(m, se, w, st', t, sent);
  }

  lemma SendKeepsStream(st: Stream, sent: seq<uint8>)
    requires StreamInv(st, sent) && st.pc.Sending?
    ensures StreamInv(st.(pc := if st.pc.last then Returning else Reading), sent + st.pc.data)
  {
    assert sent + st.pc.data + [] == sent + st.pc.data;
  }

  lemma SendKeepsControl(se: Session, w: Which, st: Stream)
    requires ControlInv(se) && Live(se.Get(w)) && Live(st)
    ensures ControlInv(se.Put(w, st))
  {}

  lemma SendKeepsTrace(m: Msgpack, se: Session, w: Which, st: Stream, t: seq<Envelope>, sent: seq<uint8>)
    requires TraceInv(m, se, t) && ControlInv(se) && se.Get(w).pc.Sending? && StreamInv(se.Get(w), sent)
    ensures TraceInv(m, se.Put(w, st), t + [ChunkOf(se, w, se.Get(w).pc.data)])
  {
    var e := ChunkOf(se, w, se.Get(w).pc.data);
    assert IsChunk(e);
    hide IsChunk, StreamInv;
    assert forall k :: 0 <= k < |t| ==> (t + [e])[k] == t[k];
  }

  lemma LeaveKeepsInv(m: Msgpack, se: Session, w: Which, t: seq<Envelope>, outSent: seq<uint8>, errSent: seq<uint8>)
    requires GoroutineInv(m, se, t, outSent, errSent) && LeaveStep(se, w).Some?
    ensures var (se', out) := LeaveStep(se, w).value; KeepsInv(m, se', out, t, outSent, errSent)
  {
    hide IsChunk;
  }

  lemma WaitKeepsInv(m: Msgpack, se: Session, t: seq<Envelope>, outSent: seq<uint8>, errSent: seq<uint8>)
    requires GoroutineInv(m, se, t, outSent, errSent) && WaitStep(m, se).Some?
    ensures var (se', out) := WaitStep(m, se).value; KeepsInv(m, se', out, t, outSent, errSent)
  {
    hide StreamInv, IsChunk;
    assert se.handler.Returned?;
    match se.waiter
    case AwaitExit =>
    case AwaitStreams =>
    case SendExit =>
      ExitKeepsTrace(m, se, t);
    case _ =>
  }

  lemma ExitsKeepsInv(m: Msgpack, se: Session, t: seq<Envelope>, outSent: seq<uint8>, errSent: seq<uint8>)
    requires GoroutineInv(m, se, t, outSent, errSent) && !StartRefused(se)
    ensures KeepsInv(m, se.(exited := true), None, t, outSent, errSent)
  {
    hide StreamInv, IsChunk;
  }

  lemma ExitKeepsTrace(m: Msgpack, se: Session, t: seq<Envelope>)
    requires TraceInv(m, se, t) && se.handler.Returned? && se.waiter == SendExit
    ensures TraceInv(m, se.(waiter := Closing), t + [ExitOf(m, se)])
  {
    var t' := t + [ExitOf(m, se)];
    assert forall k :: 1 <= k < |t| ==> t'[k] == t[k];
  }

  /** Every step of every goroutine keeps the session's invariant. */
  lemma SessionStepKeepsInv(m: Msgpack, se: Session, a: LocalAction, t: seq<Envelope>)
    requires SessionInv(m, se, t) && SessionStep(m, se, a).Some?
    ensures var (se', out) := SessionStep(m, se, a).value; SessionInv(m, se', Appended(t, out))
  {
    hide ControlInv, TraceInv, StreamInv, HandlerStep, ReadStep, SendStep, LeaveStep, WaitStep, SentAfter, Appended;
    var outSent, errSent := Payloads(t, MSG_EXEC_STDOUT), Payloads(t, MSG_EXEC_STDERR);
    match a {
      case Handle => HandlerKeepsInv(m, se, t, outSent, errSent);
      case Read(w, n, eof) => ReadKeepsInv(m, se, w, n, eof, t, outSent, errSent);
      case Send(w) => SendKeepsInv(m, se, w, t, outSent, errSent);
      case Leave(w) => LeaveKeepsInv(m, se, w, t, outSent, errSent);
      case ProcessExits => ExitsKeepsInv(m, se, t, outSent, errSent);
      case Wait => WaitKeepsInv(m, se, t, outSent, errSent);
    }
    var (_, out) := SessionStep(m, se, a).value;
    PayloadsAppended(t, out, MSG_EXEC_STDOUT);
    PayloadsAppended(t, out, MSG_EXEC_STDERR);
  }

  /** Two moments of the same session: its command's output and exit code do not change. */
  predicate SameCommand(se: Session, se': Session) {
    && se'.channel == se.channel && se'.id == se.id && se'.process == se.process && se'.exitCode == se.exitCode
    && se'.stdout.total == se.stdout.total && se'.stderr.total == se.stderr.total
    && StartRefused(se') == StartRefused(se)
  }

  lemma SessionStepKeepsCommand(m: Msgpack, se: Session, a: LocalAction)
    requires SessionStep(m, se, a).Some?
    ensures var (se', out) := SessionStep(m, se, a).value;
            SameCommand(se, se') && (out.Some? ==> out.value.channel == se.channel)
  {
    match a {
      case Handle => HandlerKeepsCommand(m, se);
      case Wait =>
      case Read(_, _, _) =>
      case Send(_) =>
      case Leave(_) =>
      case ProcessExits =>
    }
  }

  lemma HandlerKeepsCommand(m: Msgpack, se: Session)
    requires HandlerStep(m, se).Some?
    ensures var (se', out) := HandlerStep(m, se).value;
            SameCommand(se, se') && (out.Some? ==> out.value.channel == se.channel)
  {}

  // ---------- Invariant of the connection ----------

  ghost predicate Attributed(s: Conn) {
    forall k :: 0 <= k < |s.wire| ==>
      var x := s.wire[k];
      (x.writer == -1 && IsOther(x.env)) || (0 <= x.writer < |s.sessions| && x.env.channel == s.sessions[x.writer].channel)
  }

  ghost predicate Inv(m: Msgpack, s: Conn) {
    && Attributed(s)
    && forall i :: 0 <= i < |s.sessions| ==> SessionInv(m, s.sessions[i], Trace(s.wire, i))
  }

  lemma TraceAppend(wire: seq<Sent>, x: Sent, writer: int)
    ensures Trace(wire + [x], writer) == if x.writer == writer then Trace(wire, writer) + [x.env] else Trace(wire, writer)
  {
    assert (wire + [x])[..|wire|] == wire;
  }

  lemma TraceOfNobody(wire: seq<Sent>, writer: int)
    requires forall k :: 0 <= k < |wire| ==> wire[k].writer != writer
    ensures Trace(wire, writer) == []
  {}

  lemma NewSessionInv(m: Msgpack, channel: uint32, id: uint32, o: StartOutcome)
    ensures SessionInv(m, NewSession(channel, id, o), []) && NewSession(channel, id, o).channel == channel
  {}

  lemma RequestKeepsInv(m: Msgpack, s: Conn, se: Session, chanID: uint32)
    requires Inv(m, s) && SessionInv(m, se, [])
    ensures Inv(m, s.(sessions := s.sessions + [se], chanID := chanID))
  {
    hide SessionInv, Trace, IsOther;
    TraceOfNobody(s.wire, |s.sessions|);
  }

  lemma LocalKeepsAttributed(s: Conn, i: nat, se: Session, out: Option<Envelope>)
    requires Attributed(s) && i < |s.sessions| && se.channel == s.sessions[i].channel
    requires out.Some? ==> out.value.channel == se.channel
    ensures Attributed(After(s, i, se, out))
  {
    hide IsOther;
  }

  /** Replacing session i by its successor leaves the other sessions and their traces alone. */
  lemma LocalKeepsInv(m: Msgpack, s: Conn, i: nat, se: Session, out: Option<Envelope>)
    requires Inv(m, s) && i < |s.sessions| && se.channel == s.sessions[i].channel
    requires out.Some? ==> out.value.channel == se.channel
    requires SessionInv(m, se, Appended(Trace(s.wire, i), out))
    ensures Inv(m, After(s, i, se, out))
  {
    hide Attributed, SessionInv, Trace, Appended;
    LocalKeepsAttributed(s, i, se, out);
    var s' := After(s, i, se, out);
    forall j | 0 <= j < |s.sessions| ensures SessionInv(m, s'.sessions[j], Trace(s'.wire, j)) {
      TraceAfter(s, i, se, out, j);
    }
  }

  lemma TraceAfter(s: Conn, i: nat, se: Session, out: Option<Envelope>, j: nat)
    requires i < |s.sessions|
    ensures Trace(After(s, i, se, out).wire, j) == if j == i then Appended(Trace(s.wire, i), out) else Trace(s.wire, j)
  {
    if out.Some? {
      TraceAppend(s.wire, Sent(i, out.value), j);
    }
  }

  lemma OtherKeepsInv(m: Msgpack, s: Conn, env: Envelope)
    requires Inv(m, s) && IsOther(env)
    ensures Inv(m, s.(wire := s.wire + [Sent(-1, env)]))
  {
    hide SessionInv, Trace, IsOther;
    var s' := s.(wire := s.wire + [Sent(-1, env)]);
    forall j | 0 <= j < |s.sessions| ensures SessionInv(m, s'.sessions[j], Trace(s'.wire, j)) {
      TraceAppend(s.wire, Sent(-1, env), j);
    }
  }

  lemma StepKeepsInv(m: Msgpack, s: Conn, a: Action)
    requires Inv(m, s) && Step(m, s, a).Some?
    ensures Inv(m, Step(m, s, a).value)
  {
    hide Attributed, SessionInv, SessionStep, Trace, IsOther, NewSession, After, Appended, SameCommand;
    match a
    case Request(channel, id, outcome) =>
      var c := if outcome.Started? && channel == 0 then NextChannel(s.chanID) else channel;
      NewSessionInv(m, c, id, outcome);
      RequestKeepsInv(m, s, NewSession(c, id, outcome), if c == channel then s.chanID else c);
      RequestKeepsInv(m, s, NewSession(c, id, outcome), Step(m, s, a).value.chanID);
    case Local(i, act) =>
      var (se, out) := SessionStep(m, s.sessions[i], act).value;
      SessionStepKeepsInv(m, s.sessions[i], act, Trace(s.wire, i));
      SessionStepKeepsChannel(m, s.sessions[i], act);
      LocalKeepsInv(m, s, i, se, out);
    case Other(env) => OtherKeepsInv(m, s, env);
    case ChannelTakenElsewhere => ChannelTakenKeepsInv(m, s);
  }

  lemma ChannelTakenKeepsInv(m: Msgpack, s: Conn)
    requires Inv(m, s)
    ensures Inv(m, s.(chanID := NextChannel(s.chanID)))
  {
    hide SessionInv, Trace, IsOther;
  }

  lemma SessionStepKeepsChannel(m: Msgpack, se: Session, a: LocalAction)
    requires SessionStep(m, se, a).Some?
    ensures var (se', out) := SessionStep(m, se, a).value;
            se'.channel == se.channel && (out.Some? ==> out.value.channel == se.channel)
  {
    hide SessionStep;
    SessionStepKeepsCommand(m, se, a);
  }

  lemma {:induction false} RunKeepsInv(m: Msgpack, s: Conn, schedule: seq<Action>)
    requires Inv(m, s) && Run(m, s, schedule).Some?
    ensures Inv(m, Run(m, s, schedule).value)
    decreases |schedule|
  {
    hide Inv, Step;
    if schedule != [] {
      StepKeepsInv(m, s, schedule[0]);
      RunKeepsInv(m, Step(m, s, schedule[0]).value, schedule[1..]);
    }
  }

  lemma ReachableInv(m: Msgpack, schedule: seq<Action>)
    requires Execute(m, schedule).Some?
    ensures Inv(m, Execute(m, schedule).value)
  {
    RunKeepsInv(m, INITIAL, schedule);
  }

  // ---------- Every schedule, every channel ----------

  /** No other session has the channel of session i, and nothing else was written on it. */
  ghost predicate Alone(s: Conn, i: nat)
    requires i < |s.sessions|
  {
    && (forall j :: 0 <= j < |s.sessions| && j != i ==> s.sessions[j].channel != s.sessions[i].channel)
    && (forall k :: 0 <= k < |s.wire| && s.wire[k].writer == -1 ==> s.wire[k].env.channel != s.sessions[i].channel)
  }

  lemma {:induction false} ChannelIsSession(wire: seq<Sent>, s: Conn, i: nat)
    requires i < |s.sessions| && Alone(s.(wire := wire), i) && Attributed(s.(wire := wire))
    ensures ByChannel(wire, s.sessions[i].channel) == Trace(wire, i)
  {
    hide IsOther;
    if wire != [] {
      var before := wire[..|wire| - 1];
      assert Attributed(s.(wire := before)) && Alone(s.(wire := before), i);
      ChannelIsSession(before, s, i);
    }
  }

  lemma SessionTraceIsFaithful(m: Msgpack, se: Session, t: seq<Envelope>)
    requires SessionInv(m, se, t)
    ensures FaithfulTrace(m, se, t)
    ensures EndsWithExit(t) <==> ExitSent(se)
  {}

  /** A session alone on its channel fills it with its own messages. */
  lemma AloneTraceIsFaithful(m: Msgpack, schedule: seq<Action>, i: nat)
    requires Execute(m, schedule).Some?
    requires var s := Execute(m, schedule).value; i < |s.sessions| && Alone(s, i)
    ensures var s := Execute(m, schedule).value;
            FaithfulTrace(m, s.sessions[i], ByChannel(s.wire, s.sessions[i].channel))
  {
    hide Execute, SessionInv, FaithfulTrace, Attributed, Alone;
    var s := Execute(m, schedule).value;
    ReachableInv(m, schedule);
    assert s == s.(wire := s.wire);
    ChannelIsSession(s.wire, s, i);
    SessionTraceIsFaithful(m, s.sessions[i], Trace(s.wire, i));
  }

  /** The process handles are released only after both readers have finished. */
  lemma ClosedAfterStreams(m: Msgpack, schedule: seq<Action>, i: nat)
    requires Execute(m, schedule).Some? && i < |Execute(m, schedule).value.sessions|
    ensures var se := Execute(m, schedule).value.sessions[i];
            se.closed ==> Drained(se.stdout) && Drained(se.stderr) && se.exited
  {
    hide Execute, Attributed, TraceInv, StreamInv, Trace;
    ReachableInv(m, schedule);
  }

  // ---------- No session gets stuck ----------

  function StreamWork(st: Stream): int {
    match st.pc
    case Absent => 0
    case NotSpawned => 3 * (|st.total| - st.pos) + 4
    case Reading => 3 * (|st.total| - st.pos) + 3
    case Sending(_, last) => 3 * (|st.total| - st.pos) + (if last then 2 else 4)
    case Returning => 1
    case Finished => 0
  }

  function ControlWork(se: Session): int {
    (match se.handler
     case Rejecting(_) => 1
     case Rejected(_) => 0
     case Acking => 4
     case SpawnStdout => 3
     case SpawnStderr => 2
     case SpawnWaiter => 1
     case Returned => 0) +
    (match se.waiter
     case NotStarted => 5
     case AwaitExit => 4
     case AwaitStreams => 3
     case SendExit => 2
     case Closing => 1
     case Done => 0) +
    (if se.exited then 0 else 1)
  }

  function Work(se: Session): int {
    ControlWork(se) + StreamWork(se.stdout) + StreamWork(se.stderr)
  }

  predicate Complete(se: Session) {
    se.handler.Rejected? || se.waiter.Done?
  }

  /** What a stream goroutine does next, when its reader fills the buffer and reports the end at once. */
  function NextOfStream(st: Stream, w: Which): LocalAction
    requires Live(st)
  {
    if st.pc.Sending? then Send(w)
    else if st.pc.Returning? then Leave(w)
    else
      var left := if st.pos <= |st.total| then |st.total| - st.pos else 0;
      if left <= CHUNK then Read(w, left, true) else Read(w, CHUNK, false)
  }

  function NextAction(se: Session): LocalAction {
    if !se.handler.Returned? then Handle
    else if Live(se.stdout) then NextOfStream(se.stdout, Stdout)
    else if Live(se.stderr) then NextOfStream(se.stderr, Stderr)
    else if !se.exited then ProcessExits
    else Wait
  }

  lemma StreamNeverStuck(se: Session, w: Which, m: Msgpack, sent: seq<uint8>)
    requires Live(se.Get(w)) && StreamInv(se.Get(w), sent)
    ensures SessionStep(m, se, NextOfStream(se.Get(w), w)).Some?
    ensures var (se', _) := SessionStep(m, se, NextOfStream(se.Get(w), w)).value;
            && se' == se.Put(w, se'.Get(w)).(wg := se'.wg)
            && 0 <= StreamWork(se'.Get(w)) < StreamWork(se.Get(w))
  {}

  lemma HandlerNeverStuck(m: Msgpack, se: Session)
    requires ControlInv(se) && !se.handler.Returned? && !se.handler.Rejected?
    requires se.stdout.pos <= |se.stdout.total| && se.stderr.pos <= |se.stderr.total|
    ensures HandlerStep(m, se).Some?
    ensures var (se', _) := HandlerStep(m, se).value; 0 <= Work(se') < Work(se)
  {
    match se.handler
    case SpawnStdout =>
    case SpawnStderr =>
    case _ =>
  }

  /** An unfinished session always has a step to take, and that step brings it nearer to its end. */
  lemma NeverStuck(m: Msgpack, se: Session, t: seq<Envelope>)
    requires SessionInv(m, se, t) && !Complete(se)
    ensures SessionStep(m, se, NextAction(se)).Some?
    ensures var (se', _) := SessionStep(m, se, NextAction(se)).value; 0 <= Work(se') < Work(se)
  {
    if !se.handler.Returned? {
      HandlerNeverStuck(m, se);
    } else if Live(se.stdout) {
      StreamNeverStuck(se, Stdout, m, Payloads(t, MSG_EXEC_STDOUT));
    } else if Live(se.stderr) {
      StreamNeverStuck(se, Stderr, m, Payloads(t, MSG_EXEC_STDERR));
    } else if se.exited {
      assert !se.waiter.NotStarted? && se.wg == 0;
    }
  }

  /** Between two states only session i has moved: it wrote the new messages, for the same command. */
  ghost predicate OnlyMoved(s: Conn, s': Conn, i: nat) {
    && i < |s.sessions| == |s'.sessions| && SameCommand(s.sessions[i], s'.sessions[i])
    && (forall j :: 0 <= j < |s.sessions| && j != i ==> s'.sessions[j] == s.sessions[j])
    && s.wire <= s'.wire && forall k :: |s.wire| <= k < |s'.wire| ==> s'.wire[k].writer == i
  }

  lemma MovesOn(m: Msgpack, s: Conn, i: nat) returns (a: LocalAction, next: Conn)
    requires Inv(m, s) && i < |s.sessions| && !Complete(s.sessions[i])
    ensures Step(m, s, Local(i, a)) == Some(next)
    ensures OnlyMoved(s, next, i) && 0 <= Work(next.sessions[i]) < Work(s.sessions[i])
  {
    hide Attributed, SessionInv, SessionStep, NextAction, Work, Complete, Trace, SameCommand;
    NeverStuck(m, s.sessions[i], Trace(s.wire, i));
    a := NextAction(s.sessions[i]);
    next := Step(m, s, Local(i, a)).value;
    SessionStepKeepsCommand(m, s.sessions[i], a);
  }

  /** The steps of one session as a schedule of the connection. */
  function Of(i: nat, own: seq<LocalAction>): seq<Action> {
    seq(|own|, k requires 0 <= k < |own| => Local(i, own[k]))
  }

  lemma OfFirst(i: nat, a: LocalAction, own: seq<LocalAction>)
    ensures Of(i, [a] + own) == [Local(i, a)] + Of(i, own)
  {}

  lemma RunFirst(m: Msgpack, s: Conn, a: Action, rest: seq<Action>)
    requires Step(m, s, a).Some?
    ensures Run(m, s, [a] + rest) == Run(m, Step(m, s, a).value, rest)
  {
    hide Step;
    assert ([a] + rest)[1..] == rest;
  }

  lemma OnlyMovedHere(s: Conn, i: nat)
    requires i < |s.sessions|
    ensures OnlyMoved(s, s, i)
  {}

  lemma OnlyMovedTwice(s: Conn, next: Conn, s': Conn, i: nat)
    requires OnlyMoved(s, next, i) && OnlyMoved(next, s', i)
    ensures OnlyMoved(s, s', i)
  {
    assert forall k :: 0 <= k < |next.wire| ==> s'.wire[k] == next.wire[k];
  }

  lemma OnlyMovedIndex(s: Conn, s': Conn, i: nat)
    requires OnlyMoved(s, s', i)
    ensures i < |s.sessions| == |s'.sessions|
  {}

  /** From every state that meets the invariant a session can be run to its end by its own steps. */
  lemma {:induction false} RunsAlone(m: Msgpack, s: Conn, i: nat) returns (own: seq<LocalAction>, s': Conn)
    requires Inv(m, s) && i < |s.sessions|
    ensures Run(m, s, Of(i, own)) == Some(s') && OnlyMoved(s, s', i) && i < |s'.sessions| && Complete(s'.sessions[i])
    decreases Work(s.sessions[i])
  {
    hide *;
    if Complete(s.sessions[i]) {
      own, s' := [], s;
      RunNothing(m, s, i);
      OnlyMovedHere(s, i);
    } else {
      var a, next := MovesOn(m, s, i);
      OnlyMovedIndex(s, next, i);
      StepKeepsInv(m, s, Local(i, a));
      own, s' := RunsAlone(m, next, i);
      OnlyMovedTwice(s, next, s', i);
      OfFirst(i, a, own);
      RunFirst(m, s, Local(i, a), Of(i, own));
      own := [a] + own;
    }
  }

  lemma RunNothing(m: Msgpack, s: Conn, i: nat)
    ensures Run(m, s, Of(i, [])) == Some(s)
  {}

  lemma {:induction false} RunAppend(m: Msgpack, s: Conn, first: seq<Action>, second: seq<Action>)
    requires Run(m, s, first).Some?
    ensures Run(m, s, first + second) == Run(m, Run(m, s, first).value, second)
    decreases |first|
  {
    hide Step;
    if first == [] {
      assert first + second == second;
    } else {
      assert (first + second)[1..] == first[1..] + second;
      RunAppend(m, Step(m, s, first[0]).value, first[1..], second);
    }
  }

  /** From every reachable state every session can be run to its end by its own goroutines alone. */
  lemma RunsToCompletion(m: Msgpack, schedule: seq<Action>, s: Conn, i: nat) returns (own: seq<LocalAction>)
    requires Execute(m, schedule) == Some(s) && i < |s.sessions|
    ensures Execute(m, schedule + Of(i, own)).Some?
    ensures var s' := Execute(m, schedule + Of(i, own)).value;
            OnlyMoved(s, s', i) && i < |s'.sessions| && Complete(s'.sessions[i])
  {
    ReachableInv(m, schedule);
    hide Inv, Run, Of, OnlyMoved, Complete;
    var s';
    own, s' := RunsAlone(m, s, i);
    RunAppend(m, INITIAL, schedule, Of(i, own));
  }

  // ---------- When a channel follows the grammar ----------

  /** Neither a chunk nor an exit: what may stand only at the start of a channel. */
  predicate IsOpener(e: Envelope) {
    e.msgType !in {MSG_EXEC_STDOUT, MSG_EXEC_STDERR, MSG_EXEC_EXIT}
  }

  function Openers(t: seq<Envelope>): nat {
    if t == [] then 0 else Openers(t[..|t| - 1]) + (if IsOpener(t[|t| - 1]) then 1 else 0)
  }

  lemma GrammarPrefix(t: seq<Envelope>)
    requires t != [] && ExecGrammar(t)
    ensures ExecGrammar(t[..|t| - 1]) && !EndsWithExit(t[..|t| - 1])
  {}

  lemma {:induction false} GrammarHasOneOpener(t: seq<Envelope>)
    requires ExecGrammar(t)
    ensures Openers(t) <= 1
  {
    if |t| > 1 {
      GrammarPrefix(t);
      GrammarHasOneOpener(t[..|t| - 1]);
    } else if |t| == 1 {
      assert t[..0] == [];
    }
  }

  lemma {:induction false} FirstIsCounted(t: seq<Envelope>)
    requires t != [] && IsOpener(t[0])
    ensures Openers(t) >= 1
  {
    if |t| > 1 {
      FirstIsCounted(t[..|t| - 1]);
    }
  }

  lemma CompleteHasOpener(m: Msgpack, se: Session, t: seq<Envelope>)
    requires SessionInv(m, se, t) && Complete(se)
    ensures t != [] && IsOpener(t[0])
  {
    hide StreamInv, Payloads, IsChunk;
  }

  lemma {:induction false} TraceComesFrom(wire: seq<Sent>, writer: int) returns (k: nat)
    requires Trace(wire, writer) != []
    ensures k < |wire| && wire[k] == Sent(writer, Trace(wire, writer)[0])
  {
    var before, last := wire[..|wire| - 1], wire[|wire| - 1];
    if Trace(before, writer) != [] {
      k := TraceComesFrom(before, writer);
    } else {
      k := |wire| - 1;
    }
  }

  lemma OneMoreOnWire(wire: seq<Sent>, x: Sent, i: int, channel: uint32)
    requires x.writer == i ==> x.env.channel == channel
    ensures var all, own := Openers(ByChannel(wire, channel)), Openers(Trace(wire, i));
            var n := if IsOpener(x.env) then 1 else 0;
            && Openers(ByChannel(wire + [x], channel)) == all + (if x.env.channel == channel then n else 0)
            && Openers(Trace(wire + [x], i)) == own + (if x.writer == i then n else 0)
  {
    hide IsOpener, Openers;
    assert (wire + [x])[..|wire|] == wire;
    OpenersMore(ByChannel(wire, channel), x.env);
    OpenersMore(Trace(wire, i), x.env);
  }

  /** On the channel of a writer, a message of somebody else comes on top of the writer's own. */
  lemma {:induction false} ForeignOpenerCounts(wire: seq<Sent>, i: int, channel: uint32, k: nat)
    requires forall n :: 0 <= n < |wire| && wire[n].writer == i ==> wire[n].env.channel == channel
    requires k < |wire| && wire[k].writer != i && wire[k].env.channel == channel && IsOpener(wire[k].env)
    ensures Openers(ByChannel(wire, channel)) >= Openers(Trace(wire, i)) + 1
  {
    hide IsOpener, Openers, ByChannel, Trace;
    var before, last := wire[..|wire| - 1], wire[|wire| - 1];
    assert wire == before + [last];
    OneMoreOnWire(before, last, i, channel);
    if k < |wire| - 1 {
      ForeignOpenerCounts(before, i, channel, k);
    } else {
      OwnOpenersCount(before, i, channel);
    }
  }

  lemma {:induction false} OwnOpenersCount(wire: seq<Sent>, i: int, channel: uint32)
    requires forall n :: 0 <= n < |wire| && wire[n].writer == i ==> wire[n].env.channel == channel
    ensures Openers(ByChannel(wire, channel)) >= Openers(Trace(wire, i))
  {
    if wire != [] {
      hide IsOpener, Openers, ByChannel, Trace;
      var before, last := wire[..|wire| - 1], wire[|wire| - 1];
      assert wire == before + [last];
      OneMoreOnWire(before, last, i, channel);
      OwnOpenersCount(before, i, channel);
    }
  }

  lemma OpenersMore(t: seq<Envelope>, e: Envelope)
    ensures Openers(t + [e]) == Openers(t) + (if IsOpener(e) then 1 else 0)
  {
    assert (t + [e])[..|t|] == t;
  }

  lemma ForeignOpenerBreaks(m: Msgpack, s: Conn, i: nat, k: nat)
    requires Inv(m, s) && i < |s.sessions| && Complete(s.sessions[i])
    requires k < |s.wire| && s.wire[k].writer != i && s.wire[k].env.channel == s.sessions[i].channel && IsOpener(s.wire[k].env)
    ensures !ExecGrammar(ByChannel(s.wire, s.sessions[i].channel))
  {
    hide SessionInv, Complete, ExecGrammar, IsOpener, IsOther, Trace, ByChannel, Openers;
    var t := Trace(s.wire, i);
    CompleteHasOpener(m, s.sessions[i], t);
    FirstIsCounted(t);
    ForeignOpenerCounts(s.wire, i, s.sessions[i].channel, k);
    if ExecGrammar(ByChannel(s.wire, s.sessions[i].channel)) {
      GrammarHasOneOpener(ByChannel(s.wire, s.sessions[i].channel));
    }
  }

  predicate OnlyLocal(more: seq<Action>) {
    forall k :: 0 <= k < |more| ==> more[k].Local?
  }

  /** Two sessions on one channel: their goroutines alone can bring the channel out of its grammar. */
  lemma SharedChannelBreaks(m: Msgpack, schedule: seq<Action>, s: Conn, i: nat, j: nat) returns (more: seq<Action>)
    requires Execute(m, schedule) == Some(s) && i < |s.sessions| && j < |s.sessions| && i != j
    requires s.sessions[i].channel == s.sessions[j].channel
    ensures OnlyLocal(more) && Execute(m, schedule + more).Some?
    ensures !ExecGrammar(ByChannel(Execute(m, schedule + more).value.wire, s.sessions[i].channel))
  {
    hide Execute, SessionInv, Complete, ExecGrammar, Trace, ByChannel, IsOther, StartRefused, IsOpener;
    var first := RunsToCompletion(m, schedule, s, j);
    var s1 := Execute(m, schedule + Of(j, first)).value;
    ReachableInv(m, schedule + Of(j, first));
    CompleteHasOpener(m, s1.sessions[j], Trace(s1.wire, j));
    var k := TraceComesFrom(s1.wire, j);
    var second := RunsToCompletion(m, schedule + Of(j, first), s1, i);
    more := Of(j, first) + Of(i, second);
    assert schedule + more == schedule + Of(j, first) + Of(i, second);
    var s2 := Execute(m, schedule + more).value;
    ReachableInv(m, schedule + more);
    MovedApart(s, s1, s2, i, j);
    assert s2.wire[k] == s1.wire[k];
    ForeignOpenerBreaks(m, s2, i, k);
  }

  lemma MovedApart(s: Conn, s1: Conn, s2: Conn, i: nat, j: nat)
    requires OnlyMoved(s, s1, j) && OnlyMoved(s1, s2, i) && i != j && s.sessions[i].channel == s.sessions[j].channel
    ensures j < |s1.sessions| && i < |s2.sessions| && s1.wire <= s2.wire
    ensures s1.sessions[j].channel == s.sessions[j].channel
    ensures s2.sessions[i].channel == s1.sessions[i].channel == s.sessions[i].channel
  {}

  /** Other traffic on a session's channel does the same. */
  lemma ForeignMessageBreaks(m: Msgpack, schedule: seq<Action>, s: Conn, i: nat, k: nat) returns (more: seq<Action>)
    requires Execute(m, schedule) == Some(s) && i < |s.sessions|
    requires k < |s.wire| && s.wire[k].writer == -1 && s.wire[k].env.channel == s.sessions[i].channel
    ensures OnlyLocal(more) && Execute(m, schedule + more).Some?
    ensures !ExecGrammar(ByChannel(Execute(m, schedule + more).value.wire, s.sessions[i].channel))
  {
    hide Execute, SessionInv, Complete, ExecGrammar, Trace, ByChannel, StartRefused, IsOpener;
    var own := RunsToCompletion(m, schedule, s, i);
    more := Of(i, own);
    var s' := Execute(m, schedule + more).value;
    ReachableInv(m, schedule);
    OtherIsOpener(s.wire[k].env);
    ReachableInv(m, schedule + more);
    assert s'.wire[k] == s.wire[k];
    ForeignOpenerBreaks(m, s', i, k);
  }

  lemma OtherIsOpener(e: Envelope)
    requires IsOther(e)
    ensures IsOpener(e)
  {}

  lemma {:induction false} AloneStays(m: Msgpack, s: Conn, i: nat, more: seq<Action>)
    requires i < |s.sessions| && Alone(s, i) && OnlyLocal(more) && Run(m, s, more).Some?
    ensures var s' := Run(m, s, more).value;
            |s'.sessions| == |s.sessions| && Alone(s', i) && s'.sessions[i].channel == s.sessions[i].channel
    decreases |more|
  {
    hide Step;
    if more != [] {
      AloneStep(m, s, i, more[0]);
      AloneStays(m, Step(m, s, more[0]).value, i, more[1..]);
    }
  }

  lemma AloneStep(m: Msgpack, s: Conn, i: nat, a: Action)
    requires i < |s.sessions| && Alone(s, i) && a.Local? && Step(m, s, a).Some?
    ensures var s' := Step(m, s, a).value;
            |s'.sessions| == |s.sessions| && Alone(s', i) && s'.sessions[i].channel == s.sessions[i].channel
  {
    hide SessionStep;
    SessionStepKeepsChannel(m, s.sessions[a.session], a.act);
  }

  /**
   A channel keeps to the grammar, however its goroutines go on, exactly when its session is alone on it: no other
   session has it, and no reply of another kind was written on it.
   */
  lemma GrammarExactlyWhenAlone(m: Msgpack, schedule: seq<Action>, s: Conn, i: nat)
    requires Execute(m, schedule) == Some(s) && i < |s.sessions|
    ensures KeepsGrammar(m, schedule, s.sessions[i].channel) <==> Alone(s, i)
  {
    var channel := s.sessions[i].channel;
    if Alone(s, i) {
      forall more | OnlyLocal(more) && Execute(m, schedule + more).Some?
        ensures ExecGrammar(ByChannel(Execute(m, schedule + more).value.wire, channel))
      {
        hide Run, Alone, ExecGrammar, ByChannel;
        RunAppend(m, INITIAL, schedule, more);
        AloneStays(m, s, i, more);
        AloneTraceIsFaithful(m, schedule + more, i);
      }
    } else {
      hide Execute, ExecGrammar, ByChannel;
      var more;
      if j :| 0 <= j < |s.sessions| && j != i && s.sessions[j].channel == channel {
        more := SharedChannelBreaks(m, schedule, s, i, j);
      } else {
        var k: nat :| k < |s.wire| && s.wire[k].writer == -1 && s.wire[k].env.channel == channel;
        more := ForeignMessageBreaks(m, schedule, s, i, k);
      }
      assert OnlyLocal(more) && Execute(m, schedule + more).Some?;
    }
  }

  ghost predicate KeepsGrammar(m: Msgpack, schedule: seq<Action>, channel: uint32) {
    forall more :: OnlyLocal(more) && Execute(m, schedule + more).Some? ==>
      ExecGrammar(ByChannel(Execute(m, schedule + more).value.wire, channel))
  }

  // ---------- Which channels a schedule hands out ----------

  predicate PicksChannel(a: Action) {
    (a.Request? && a.outcome.Started? && a.channel == 0) || a.ChannelTakenElsewhere?
  }

  /** How often the counter was advanced, for this connection or another. */
  function Picks(schedule: seq<Action>): nat {
    if schedule == [] then 0
    else Picks(schedule[..|schedule| - 1]) + (if PicksChannel(schedule[|schedule| - 1]) then 1 else 0)
  }

  /** The channel of the k-th action, a request: the client's own, or 100 plus the number of the pick. */
  function ChannelAt(schedule: seq<Action>, k: nat): uint32
    requires k < |schedule| && schedule[k].Request?
  {
    if PicksChannel(schedule[k]) then (100 + Picks(schedule[..k + 1])) % 0x1_0000_0000 else schedule[k].channel
  }

  function Channels(s: Conn): seq<uint32> {
    seq(|s.sessions|, i requires 0 <= i < |s.sessions| => s.sessions[i].channel)
  }

  function Requested(schedule: seq<Action>): seq<uint32> {
    if schedule == [] then []
    else
      var n := |schedule| - 1;
      var before := Requested(schedule[..n]);
      if schedule[n].Request? then before + [ChannelAt(schedule, n)] else before
  }

  lemma LocalHandsOutNothing(m: Msgpack, s: Conn, i: nat, act: LocalAction)
    requires Step(m, s, Local(i, act)).Some?
    ensures var s' := Step(m, s, Local(i, act)).value; s'.chanID == s.chanID && Channels(s') == Channels(s)
  {
    hide SessionStep;
    SessionStepKeepsChannel(m, s.sessions[i], act);
  }

  lemma ChannelsMore(s: Conn, se: Session, chanID: uint32)
    ensures Channels(s.(sessions := s.sessions + [se], chanID := chanID)) == Channels(s) + [se.channel]
    ensures Channels(s.(sessions := s.sessions + [se])) == Channels(s) + [se.channel]
  {}

  lemma RequestHandsOut(m: Msgpack, s: Conn, a: Action)
    requires a.Request?
    ensures var s' := Step(m, s, a).value; var c := if PicksChannel(a) then NextChannel(s.chanID) else a.channel;
            Step(m, s, a).Some? && s'.chanID == (if PicksChannel(a) then c else s.chanID) && Channels(s') == Channels(s) + [c]
  {
    hide NewSession, Channels;
    var c := if PicksChannel(a) then NextChannel(s.chanID) else a.channel;
    NewSessionHasChannel(c, a.id, a.outcome);
    ChannelsMore(s, NewSession(c, a.id, a.outcome), c);
  }

  lemma SameSessions(s: Conn, s': Conn)
    requires s'.sessions == s.sessions
    ensures Channels(s') == Channels(s)
  {}

  lemma StepHandsOut(m: Msgpack, s: Conn, a: Action, picks: nat)
    requires Step(m, s, a).Some? && s.chanID == (100 + picks) % 0x1_0000_0000
    ensures var s' := Step(m, s, a).value; var picks' := picks + (if PicksChannel(a) then 1 else 0);
            && s'.chanID == (100 + picks') % 0x1_0000_0000
            && Channels(s') ==
               if a.Request? then Channels(s) + [if PicksChannel(a) then (100 + picks') % 0x1_0000_0000 else a.channel]
               else Channels(s)
  {
    hide SessionStep, Channels, NewSession, IsOther;
    var s' := Step(m, s, a).value;
    match a
    case Request(_, _, _) => RequestHandsOut(m, s, a);
    case Local(i, act) => LocalHandsOutNothing(m, s, i, act);
    case Other(_) => SameSessions(s, s');
    case ChannelTakenElsewhere => SameSessions(s, s');
  }

  lemma NewSessionHasChannel(channel: uint32, id: uint32, o: StartOutcome)
    ensures NewSession(channel, id, o).channel == channel
  {}

  /** Every session has the channel its request got: this can be read off the schedule alone. */
  lemma {:induction false} ChannelsFollowRequests(m: Msgpack, schedule: seq<Action>)
    requires Execute(m, schedule).Some?
    ensures Channels(Execute(m, schedule).value) == Requested(schedule)
    ensures Execute(m, schedule).value.chanID == (100 + Picks(schedule)) % 0x1_0000_0000
  {
    hide Step, Channels;
    if schedule == [] {
      assert Channels(INITIAL) == [] by { NoChannels(); }
    } else {
      var before, last := schedule[..|schedule| - 1], schedule[|schedule| - 1];
      assert schedule == before + [last];
      RunsBefore(m, before, last);
      ChannelsFollowRequests(m, before);
      StepHandsOut(m, Execute(m, before).value, last, Picks(before));
      assert schedule[..|schedule|] == schedule;
    }
  }

  lemma NoChannels()
    ensures Channels(INITIAL) == []
  {}

  lemma RunsBefore(m: Msgpack, before: seq<Action>, last: Action)
    requires Execute(m, before + [last]).Some?
    ensures Execute(m, before).Some? && Execute(m, before + [last]) == Step(m, Execute(m, before).value, last)
  {
    hide Step;
    RunIsPrefixClosed(m, INITIAL, before, [last]);
    RunAppend(m, INITIAL, before, [last]);
    assert [last][1..] == [];
  }

  lemma {:induction false} RunIsPrefixClosed(m: Msgpack, s: Conn, first: seq<Action>, second: seq<Action>)
    requires Run(m, s, first + second).Some?
    ensures Run(m, s, first).Some?
    decreases |first|
  {
    hide Step;
    if first != [] {
      assert (first + second)[1..] == first[1..] + second;
      RunIsPrefixClosed(m, Step(m, s, first[0]).value, first[1..], second);
    }
  }

  lemma {:induction false} RequestedAt(schedule: seq<Action>, c: uint32)
    ensures c in Requested(schedule) <==> exists k :: 0 <= k < |schedule| && schedule[k].Request? && ChannelAt(schedule, k) == c
  {
    hide Picks, PicksChannel;
    if schedule != [] {
      var n := |schedule| - 1;
      var before := schedule[..n];
      RequestedAt(before, c);
      forall k | 0 <= k < n && schedule[k].Request? ensures ChannelAt(before, k) == ChannelAt(schedule, k) {
        assert before[..k + 1] == schedule[..k + 1];
      }
      if c in Requested(before) {
        var k :| 0 <= k < n && before[k].Request? && ChannelAt(before, k) == c;
        assert schedule[k].Request? && ChannelAt(schedule, k) == c;
      }
      if k :| 0 <= k < |schedule| && schedule[k].Request? && ChannelAt(schedule, k) == c {
        if k < n {
          assert before[k].Request? && ChannelAt(before, k) == c;
        }
      }
    }
  }

  predicate NoneTwice(cs: seq<uint32>) {
    forall i, j :: 0 <= i < j < |cs| ==> cs[i] != cs[j]
  }

  /** Requests that get different channels, told by the schedule. */
  ghost predicate RequestsDiffer(schedule: seq<Action>) {
    forall k, l :: 0 <= k < l < |schedule| && schedule[k].Request? && schedule[l].Request? ==>
      ChannelAt(schedule, k) != ChannelAt(schedule, l)
  }

  lemma {:induction false} DifferentExactly(schedule: seq<Action>)
    ensures NoneTwice(Requested(schedule)) <==> RequestsDiffer(schedule)
  {
    hide ChannelAt;
    if schedule != [] {
      var n := |schedule| - 1;
      var before := schedule[..n];
      DifferentExactly(before);
      forall k | 0 <= k < n && schedule[k].Request? ensures ChannelAt(before, k) == ChannelAt(schedule, k) {
        ChannelAtPrefix(schedule, n, k);
      }
      assert forall k :: 0 <= k < n ==> before[k] == schedule[k];
      if schedule[n].Request? {
        var c := ChannelAt(schedule, n);
        RequestedAt(before, c);
        NoneTwiceMore(Requested(before), c);
        assert RequestsDiffer(schedule) ==> RequestsDiffer(before);
        if RequestsDiffer(before) && c !in Requested(before) {
          forall k | 0 <= k < n && schedule[k].Request? ensures ChannelAt(schedule, k) != c {
            assert before[k].Request? && ChannelAt(before, k) == ChannelAt(schedule, k);
          }
        }
      }
    }
  }

  lemma ChannelAtPrefix(schedule: seq<Action>, n: nat, k: nat)
    requires k < n <= |schedule| && schedule[k].Request?
    ensures ChannelAt(schedule[..n], k) == ChannelAt(schedule, k)
  {
    assert schedule[..n][..k + 1] == schedule[..k + 1];
  }

  lemma NoneTwiceMore(cs: seq<uint32>, c: uint32)
    ensures NoneTwice(cs + [c]) <==> NoneTwice(cs) && c !in cs
  {
    var more := cs + [c];
    assert forall i :: 0 <= i < |cs| ==> cs[i] == more[i];
    assert more[|cs|] == c;
  }

  lemma {:induction false} PicksGrow(schedule: seq<Action>, k: nat, l: nat)
    requires k <= l <= |schedule|
    ensures Picks(schedule[..k]) <= Picks(schedule[..l])
    ensures k < l && PicksChannel(schedule[l - 1]) ==> Picks(schedule[..k]) < Picks(schedule[..l])
    decreases l
  {
    if k < l {
      assert schedule[..l][..l - 1] == schedule[..l - 1];
      PicksGrow(schedule, k, l - 1);
    }
  }

  /** What the clients have to see to: their channels differ, and none is 100 plus the number of a pick. */
  ghost predicate ClientsAvoidPicks(schedule: seq<Action>) {
    && (forall k, l :: 0 <= k < l < |schedule| && ClientChose(schedule[k]) && ClientChose(schedule[l]) ==>
          schedule[k].channel != schedule[l].channel)
    && (forall k, l :: 0 <= k < |schedule| && 0 <= l < |schedule| && ClientChose(schedule[k]) && SidecarChose(schedule[l]) ==>
          schedule[k].channel != 100 + Picks(schedule[..l + 1]))
  }

  predicate ClientChose(a: Action) {
    a.Request? && !PicksChannel(a)
  }

  predicate SidecarChose(a: Action) {
    a.Request? && PicksChannel(a)
  }

  lemma ChannelsBeforeWrap(schedule: seq<Action>)
    requires 100 + Picks(schedule) < 0x1_0000_0000
    ensures forall k :: 0 <= k < |schedule| && schedule[k].Request? ==>
              ChannelAt(schedule, k) == if PicksChannel(schedule[k]) then 100 + Picks(schedule[..k + 1]) else schedule[k].channel
    ensures forall k, l :: 0 <= k < l < |schedule| && SidecarChose(schedule[k]) && SidecarChose(schedule[l]) ==>
              Picks(schedule[..k + 1]) != Picks(schedule[..l + 1])
  {
    hide Picks, PicksChannel;
    assert schedule[..|schedule|] == schedule;
    forall k | 0 <= k < |schedule| && schedule[k].Request?
      ensures ChannelAt(schedule, k) == if PicksChannel(schedule[k]) then 100 + Picks(schedule[..k + 1]) else schedule[k].channel
    {
      PicksGrow(schedule, k + 1, |schedule|);
    }
    forall k, l | 0 <= k < l < |schedule| && SidecarChose(schedule[k]) && SidecarChose(schedule[l])
      ensures Picks(schedule[..k + 1]) != Picks(schedule[..l + 1])
    {
      PicksGrow(schedule, k + 1, l + 1);
    }
  }

  /**
   Before the counter wraps around, no two sessions share a channel exactly when the clients' own channels differ from
   each other and from 100 plus each pick's number. Whether they do can be told from the requests.
   */
  lemma ChannelsDifferExactly(m: Msgpack, schedule: seq<Action>)
    requires Execute(m, schedule).Some? && 100 + Picks(schedule) < 0x1_0000_0000
    ensures NoneTwice(Channels(Execute(m, schedule).value)) <==> ClientsAvoidPicks(schedule)
  {
    hide Execute, Picks, PicksChannel, Requested, Channels, NoneTwice;
    ChannelsFollowRequests(m, schedule);
    DifferentExactly(schedule);
    ChannelsBeforeWrap(schedule);
    hide ChannelAt;
    if ClientsAvoidPicks(schedule) {
      forall k, l | 0 <= k < l < |schedule| && schedule[k].Request? && schedule[l].Request?
        ensures ChannelAt(schedule, k) != ChannelAt(schedule, l)
      {
        assert ClientChose(schedule[k]) || SidecarChose(schedule[k]);
        assert ClientChose(schedule[l]) || SidecarChose(schedule[l]);
      }
    }
    if RequestsDiffer(schedule) {
      forall k, l | 0 <= k < |schedule| && 0 <= l < |schedule| && ClientChose(schedule[k]) && SidecarChose(schedule[l])
        ensures schedule[k].channel != 100 + Picks(schedule[..l + 1])
      {
        assert k != l;
        assert ChannelAt(schedule, if k < l then k else l) != ChannelAt(schedule, if k < l then l else k);
      }
    }
  }

  /** So a client on channel 101 and the first request on channel 0 share a channel, and it can leave the grammar. */
  lemma PickedChannelCanCollide(m: Msgpack, o: StartOutcome) returns (more: seq<Action>)
    requires o.Started?
    ensures Execute(m, [Request(101, 1, o), Request(0, 2, o)] + more).Some?
    ensures !ExecGrammar(ByChannel(Execute(m, [Request(101, 1, o), Request(0, 2, o)] + more).value.wire, 101))
  {
    var first, second := Request(101, 1, o), Request(0, 2, o);
    var a, b := NewSession(101, 1, o), NewSession(101, 2, o);
    hide NewSession, ExecGrammar, ByChannel;
    NewSessionHasChannel(101, 1, o);
    NewSessionHasChannel(101, 2, o);
    var s1, s2 := Conn([a], [], 100), Conn([a, b], [], 101);
    assert Step(m, INITIAL, first) == Some(s1) by { assert [] + [a] == [a]; }
    assert Step(m, s1, second) == Some(s2) by { assert [a] + [b] == [a, b]; }
    RunFirst(m, INITIAL, first, [second]);
    RunFirst(m, s1, second, []);
    assert [first] + [second] == [first, second] && [second] + [] == [second];
    more := SharedChannelBreaks(m, [first, second], s2, 0, 1);
  }

  // ---------- What a request's client finds on its channel ----------

  /** The requests of a schedule, in order. */
  function Requests(schedule: seq<Action>): (rs: seq<Action>)
    ensures forall i :: 0 <= i < |rs| ==> rs[i].Request?
  {
    if schedule == [] then []
    else
      var before, last := Requests(schedule[..|schedule| - 1]), schedule[|schedule| - 1];
      if last.Request? then before + [last] else before
  }

  /** The payload with which a start was refused. */
  function Refusal(o: StartOutcome): seq<uint8>
    requires !o.Started?
  {
    match o
    case InvalidPayload(error) => error
    case StartFailed(error) => error
  }

  /** The session runs the process its request started, or refuses the start with the request's error. */
  ghost predicate Serves(se: Session, r: Action)
    requires r.Request?
  {
    && se.id == r.id && (StartRefused(se) <==> !r.outcome.Started?)
    && match r.outcome
       case Started(process, tty, stdout, stderr, exitCode) =>
         && se.process == process && se.exitCode == exitCode
         && se.stdout.total == stdout && se.stderr.total == if tty then [] else stderr
       case _ => se.handler == Rejecting(Refusal(r.outcome)) || se.handler == Rejected(Refusal(r.outcome))
  }

  lemma NewSessionServes(channel: uint32, r: Action)
    requires r.Request?
    ensures Serves(NewSession(channel, r.id, r.outcome), r)
  {}

  lemma SessionStepServes(m: Msgpack, se: Session, a: LocalAction, r: Action)
    requires r.Request? && Serves(se, r) && SessionStep(m, se, a).Some?
    ensures Serves(SessionStep(m, se, a).value.0, r)
  {
    SessionStepKeepsCommand(m, se, a);
    if StartRefused(se) {
      hide SameCommand;
    } else {
      hide SessionStep;
    }
  }

  /** Session by session, the requests that were made. */
  ghost predicate AllServe(sessions: seq<Session>, rs: seq<Action>) {
    |sessions| == |rs| && forall i :: 0 <= i < |rs| ==> rs[i].Request? && Serves(sessions[i], rs[i])
  }

  lemma StepServes(m: Msgpack, s: Conn, a: Action, rs: seq<Action>)
    requires AllServe(s.sessions, rs) && Step(m, s, a).Some?
    ensures AllServe(Step(m, s, a).value.sessions, if a.Request? then rs + [a] else rs)
  {
    hide Serves, SessionStep, NewSession, IsOther;
    match a
    case Request(channel, id, outcome) =>
      NewSessionServes(if outcome.Started? && channel == 0 then NextChannel(s.chanID) else channel, a);
    case Local(i, act) => SessionStepServes(m, s.sessions[i], act, rs[i]);
    case _ =>
  }

  /** After every schedule the i-th session is the i-th request's. */
  lemma {:induction false} SessionsServeRequests(m: Msgpack, schedule: seq<Action>)
    requires Execute(m, schedule).Some?
    ensures AllServe(Execute(m, schedule).value.sessions, Requests(schedule))
  {
    hide Step, Serves;
    if schedule != [] {
      var before, last := schedule[..|schedule| - 1], schedule[|schedule| - 1];
      assert schedule == before + [last];
      RunsBefore(m, before, last);
      SessionsServeRequests(m, before);
      StepServes(m, Execute(m, before).value, last, Requests(before));
    }
  }

  /** A part of what a started command's client is sent, told by the process alone; with an exit, all of it. */
  ghost predicate CommandTraffic(m: Msgpack, r: Action, channel: uint32, t: seq<Envelope>)
    requires r.Request? && r.outcome.Started?
  {
    var o := r.outcome;
    var stderr := if o.tty then [] else o.stderr;
    && ExecGrammar(t)
    && (t != [] ==> t[0] == Envelope(MSG_ACK, channel, r.id, m.marshalAck(o.process, channel)))
    && Payloads(t, MSG_EXEC_STDOUT) <= o.stdout && Payloads(t, MSG_EXEC_STDERR) <= stderr
    && (EndsWithExit(t) ==>
          && t[|t| - 1] == Envelope(MSG_EXEC_EXIT, channel, 0, m.marshalExit(o.exitCode))
          && Payloads(t, MSG_EXEC_STDOUT) == o.stdout && Payloads(t, MSG_EXEC_STDERR) == stderr)
  }

  lemma TrafficOfSession(m: Msgpack, se: Session, r: Action, t: seq<Envelope>)
    requires r.Request? && Serves(se, r) && SessionInv(m, se, t)
    ensures r.outcome.Started? ==> CommandTraffic(m, r, se.channel, t) && (Complete(se) ==> EndsWithExit(t))
    ensures !r.outcome.Started? ==>
              var error := Envelope(MSG_ERROR, se.channel, r.id, Refusal(r.outcome));
              (t == [] || t == [error]) && (Complete(se) ==> t == [error])
  {
    SessionTraceIsFaithful(m, se, t);
    if r.outcome.Started? {
      hide ExecGrammar, StreamInv, IsChunk;
    }
  }

  /**
   Whatever the schedule, the i-th request's client finds on its channel, if nobody else writes there: the
   acknowledgement, the process's output in chunks, stream by stream in order and without loss, and its exit code, as
   far as that has come; or the one error that says why the start was refused.
   */
  lemma ChannelTraceIsFaithful(m: Msgpack, schedule: seq<Action>, i: nat)
    requires Execute(m, schedule).Some?
    requires var s := Execute(m, schedule).value; i < |s.sessions| && Alone(s, i)
    ensures i < |Requests(schedule)| == |Requested(schedule)|
    ensures var s, r, channel := Execute(m, schedule).value, Requests(schedule)[i], Requested(schedule)[i];
            var t := ByChannel(s.wire, channel);
            && s.sessions[i].channel == channel
            && FaithfulTrace(m, s.sessions[i], t)
            && (r.outcome.Started? ==> CommandTraffic(m, r, channel, t) && (Complete(s.sessions[i]) ==> EndsWithExit(t)))
            && (!r.outcome.Started? ==>
                  var error := Envelope(MSG_ERROR, channel, r.id, Refusal(r.outcome));
                  (t == [] || t == [error]) && (Complete(s.sessions[i]) ==> t == [error]))
  {
    hide Execute, SessionInv, FaithfulTrace, Attributed, Alone, CommandTraffic, Trace, ByChannel, Requested, Requests, Serves;
    var s := Execute(m, schedule).value;
    SessionsServeRequests(m, schedule);
    ChannelsFollowRequests(m, schedule);
    assert s.sessions[i].channel == Channels(s)[i];
    ReachableInv(m, schedule);
    assert s == s.(wire := s.wire);
    ChannelIsSession(s.wire, s, i);
    AloneTraceIsFaithful(m, schedule, i);
    TrafficOfSession(m, s.sessions[i], Requests(schedule)[i], Trace(s.wire, i));
  }
}
