/**
 The agent's synchronous exec: it reads frames until the exit arrives and puts the output
 together again. The last lemmas join it with every schedule of the sidecar.
 */
module ExecConsumer {
  import opened Wrappers
  import opened Codec
  import opened Integers
  import opened ExecProducer

  datatype ExecResult = ExecResult(exitCode: int, stdout: seq<uint8>, stderr: seq<uint8>)

  datatype ExecError =
    | NoReadyMessage
    | ConnectionLost
    | ExecFailed(code: string, message: string)
    | ExecFailedUnreadable

  datatype Progress =
    | Collecting(stdout: seq<uint8>, stderr: seq<uint8>)
    | Exited(result: ExecResult)
    | Refused(error: ExecError)

  function OnEnvelope(m: Msgpack, stdout: seq<uint8>, stderr: seq<uint8>, e: Envelope): Progress {
    if e.msgType == MSG_EXEC_STDOUT then Collecting(stdout + e.payload, stderr)
    else if e.msgType == MSG_EXEC_STDERR then Collecting(stdout, stderr + e.payload)
    else if e.msgType == MSG_EXEC_EXIT then
      var code := m.unmarshalExit(e.payload);
      Exited(ExecResult(if code.Some? then code.value else 0, stdout, stderr))
    else if e.msgType == MSG_ERROR then
      var error := m.unmarshalError(e.payload);
      Refused(if error.Some? then ExecFailed(error.value.0, error.value.1) else ExecFailedUnreadable)
    else Collecting(stdout, stderr)
  }

  /** What the frames received so far amount to. */
  function Consume(m: Msgpack, frames: seq<seq<uint8>>): Progress {
    if frames == [] then Collecting([], [])
    else
      var before, msg := Consume(m, frames[..|frames| - 1]), Decode(frames[|frames| - 1]);
      if msg.Ok? then Then(m, before, msg.value) else before
  }

  /** Once the call is decided, later messages no longer matter. */
  function Then(m: Msgpack, p: Progress, e: Envelope): Progress {
    if p.Collecting? then OnEnvelope(m, p.stdout, p.stderr, e) else p
  }

  /** The answer of a call to which the connection delivers these frames before it fails. */
  function Outcome(m: Msgpack, frames: seq<seq<uint8>>): Result<ExecResult, ExecError> {
    if frames == [] then Err(NoReadyMessage)
    else
      match Consume(m, frames[1..])
      case Collecting(_, _) => Err(ConnectionLost)
      case Exited(result) => Ok(result)
      case Refused(error) => Err(error)
  }

  lemma {:induction false} ConsumeIsStable(m: Msgpack, frames: seq<seq<uint8>>, n: nat)
    requires n <= |frames| && !Consume(m, frames[..n]).Collecting?
    ensures Consume(m, frames) == Consume(m, frames[..n])
  {
    if n < |frames| {
      var shorter := frames[..|frames| - 1];
      assert shorter[..n] == frames[..n];
      ConsumeIsStable(m, shorter, n);
    } else {
      assert frames[..n] == frames;
    }
  }

  method ExecSync(m: Msgpack, frames: seq<seq<uint8>>) returns (r: Result<ExecResult, ExecError>)
    ensures r == Outcome(m, frames)
  {
    if |frames| == 0 {
      return Err(NoReadyMessage);
    }
    ghost var rest := frames[1..];
    var stdout, stderr := [], [];
    var i := 1;
    while i < |frames|
      invariant 1 <= i <= |frames|
      invariant Consume(m, rest[..i - 1]) == Collecting(stdout, stderr)
    {
      assert rest[..i][..i - 1] == rest[..i - 1];
      var msg := Decode(frames[i]);
      if msg.Ok? {
        var e := msg.value;
        if e.msgType == MSG_EXEC_STDOUT {
          stdout := stdout + e.payload;
        } else if e.msgType == MSG_EXEC_STDERR {
          stderr := stderr + e.payload;
        } else if e.msgType == MSG_EXEC_EXIT {
          ConsumeIsStable(m, rest, i);
          var code := m.unmarshalExit(e.payload);
          return Ok(ExecResult(if code.Some? then code.value else 0, stdout, stderr));
        } else if e.msgType == MSG_ERROR {
          ConsumeIsStable(m, rest, i);
          var error := m.unmarshalError(e.payload);
          return Err(if error.Some? then ExecFailed(error.value.0, error.value.1) else ExecFailedUnreadable);
        }
      }
      i := i + 1;
    }
    assert rest[..|rest|] == rest;
    return Err(ConnectionLost);
  }

  // ---------- When a call is refused ----------

  predicate CarriesType(frame: seq<uint8>, msgType: uint8) {
    Decode(frame).Ok? && Decode(frame).value.msgType == msgType
  }

  predicate Ends(frame: seq<uint8>) {
    CarriesType(frame, MSG_EXEC_EXIT) || CarriesType(frame, MSG_ERROR)
  }

  /** The call is decided by the first Exit or Error frame, whatever channel it carries. */
  lemma {:induction false} DecidedByFirstEnd(m: Msgpack, frames: seq<seq<uint8>>)
    ensures Consume(m, frames).Collecting? <==> forall k :: 0 <= k < |frames| ==> !Ends(frames[k])
    ensures Consume(m, frames).Refused? <==>
            exists k :: 0 <= k < |frames| && CarriesType(frames[k], MSG_ERROR) && forall j :: 0 <= j < k ==> !Ends(frames[j])
  {
    if frames != [] {
      var shorter, last := frames[..|frames| - 1], |frames| - 1;
      DecidedByFirstEnd(m, shorter);
      assert forall k :: 0 <= k < last ==> shorter[k] == frames[k];
      if Consume(m, shorter).Collecting? && CarriesType(frames[last], MSG_ERROR) {
        assert forall j :: 0 <= j < last ==> !Ends(frames[j]);
      }
    }
  }

  // ---------- Joined with the sidecar ----------

  ghost predicate OnlyCommandTraffic(wire: seq<Sent>) {
    forall k :: 0 <= k < |wire| ==>
      wire[k].writer == 0 || (IsOther(wire[k].env) && wire[k].env.msgType != MSG_ERROR)
  }

  predicate ExitDecodes(m: Msgpack, t: seq<Envelope>, code: int) {
    EndsWithExit(t) ==> m.unmarshalExit(t[|t| - 1].payload) == Some(code)
  }

  function ProgressOf(t: seq<Envelope>, code: int): Progress {
    var stdout, stderr := Payloads(t, MSG_EXEC_STDOUT), Payloads(t, MSG_EXEC_STDERR);
    if EndsWithExit(t) then Exited(ExecResult(code, stdout, stderr)) else Collecting(stdout, stderr)
  }

  lemma OnNextMessage(m: Msgpack, wire: seq<Sent>, x: Sent)
    ensures Consume(m, Frames(Envelopes(wire + [x]))) == Then(m, Consume(m, Frames(Envelopes(wire))), x.env)
  {
    assert (wire + [x])[..|wire|] == wire;
    assert Frames(Envelopes(wire + [x]))[..|wire|] == Frames(Envelopes(wire));
    DecodeFrame(x.env);
  }

  /** A trace of a command that was started, as far as it has come. */
  ghost predicate CommandTrace(m: Msgpack, t: seq<Envelope>, code: int) {
    ExecGrammar(t) && (t != [] ==> t[0].msgType == MSG_ACK) && ExitDecodes(m, t, code)
  }

  lemma NextOwnMessage(m: Msgpack, t: seq<Envelope>, e: Envelope, code: int)
    requires CommandTrace(m, t + [e], code)
    ensures CommandTrace(m, t, code) && Then(m, ProgressOf(t, code), e) == ProgressOf(t + [e], code)
  {
    var longer := t + [e];
    assert longer[..|t|] == t && longer[|t|] == e;
    GrammarPrefix(longer);
    PayloadsAppended(t, Some(e), MSG_EXEC_STDOUT);
    PayloadsAppended(t, Some(e), MSG_EXEC_STDERR);
    hide Payloads;
    if t == [] {
      assert longer[0] == e;
    } else {
      assert longer[0] == t[0];
      assert IsChunk(longer[|t|]) || e.msgType == MSG_EXEC_EXIT;
    }
  }

  lemma OtherIsIgnored(m: Msgpack, p: Progress, e: Envelope)
    requires IsOther(e) && e.msgType != MSG_ERROR
    ensures Then(m, p, e) == p
  {}

  /** Interleaved with any other traffic, a command's messages add up to its own output. */
  lemma {:induction false} ConsumeFollowsTrace(m: Msgpack, wire: seq<Sent>, code: int)
    requires OnlyCommandTraffic(wire) && CommandTrace(m, Trace(wire, 0), code)
    ensures Consume(m, Frames(Envelopes(wire))) == ProgressOf(Trace(wire, 0), code)
  {
    if wire == [] {
      assert Trace(wire, 0) == [];
    } else {
      hide Consume, Then, Frames, Envelopes, CommandTrace, ProgressOf, IsOther;
      var before, last := wire[..|wire| - 1], wire[|wire| - 1];
      assert wire == before + [last];
      OnNextMessage(m, before, last);
      if last.writer == 0 {
        NextOwnMessage(m, Trace(before, 0), last.env, code);
        ConsumeFollowsTrace(m, before, code);
      } else {
        ConsumeFollowsTrace(m, before, code);
        OtherIsIgnored(m, ProgressOf(Trace(before, 0), code), last.env);
      }
    }
  }

  lemma {:induction false} TraceOfPrefix(wire: seq<Sent>, n: nat, writer: int)
    requires n <= |wire|
    ensures Trace(wire[..n], writer) <= Trace(wire, writer)
  {
    if n < |wire| {
      assert wire[..|wire| - 1][..n] == wire[..n];
      TraceOfPrefix(wire[..|wire| - 1], n, writer);
    } else {
      assert wire[..n] == wire;
    }
  }

  lemma {:induction false} TraceWithoutFirst(wire: seq<Sent>, writer: int)
    requires wire != [] && wire[0].writer != writer
    ensures Trace(wire[1..], writer) == Trace(wire, writer)
  {
    if |wire| > 1 {
      var before := wire[..|wire| - 1];
      assert wire[1..][..|wire| - 2] == before[1..];
      TraceWithoutFirst(before, writer);
    }
  }

  lemma {:induction false} EnvelopesWithoutFirst(wire: seq<Sent>)
    requires wire != []
    ensures Envelopes(wire)[1..] == Envelopes(wire[1..])
  {
    if |wire| > 1 {
      EnvelopesWithoutFirst(wire[..|wire| - 1]);
      assert wire[1..][..|wire| - 2] == wire[..|wire| - 1][1..];
    }
  }

  /** The connection of one call: its first message precedes the command, and nothing else sends an Error after it. */
  ghost predicate OneCall(s: Conn) {
    && |s.sessions| == 1
    && s.wire != [] && s.wire[0].writer == -1
    && forall k :: 1 <= k < |s.wire| && s.wire[k].writer == -1 ==> s.wire[k].env.msgType != MSG_ERROR
  }

  /** The exit code comes back from its encoding. */
  predicate ReadsCode(m: Msgpack, code: int) {
    m.unmarshalExit(m.marshalExit(code)) == Some(code)
  }

  lemma AfterTheFirst(m: Msgpack, s: Conn, delivered: nat)
    requires Inv(m, s) && OneCall(s) && 1 <= delivered <= |s.wire|
    ensures OnlyCommandTraffic(s.wire[1..delivered])
  {
    hide SessionInv, IsOther;
    var wire := s.wire[1..delivered];
    assert forall k :: 0 <= k < |wire| ==> wire[k] == s.wire[k + 1];
  }

  lemma IsCommandTrace(m: Msgpack, se: Session, t: seq<Envelope>)
    requires FaithfulTrace(m, se, t) && !StartRefused(se)
    requires ReadsCode(m, se.exitCode)
    ensures CommandTrace(m, t, se.exitCode)
  {
    hide ExecGrammar, Payloads;
  }

  lemma TrafficOfOneCall(m: Msgpack, s: Conn, delivered: nat)
    requires Inv(m, s) && OneCall(s) && !StartRefused(s.sessions[0]) && 1 <= delivered <= |s.wire|
    requires ReadsCode(m, s.sessions[0].exitCode)
    ensures var t := Trace(s.wire[1..delivered], 0);
            t <= Trace(s.wire, 0) && FaithfulTrace(m, s.sessions[0], t)
              && Consume(m, Frames(Envelopes(s.wire[..delivered]))[1..]) == ProgressOf(t, s.sessions[0].exitCode)
              && (delivered == |s.wire| ==> t == Trace(s.wire, 0))
  {
    hide SessionInv, Attributed, ExecGrammar, Envelopes, Frames, Consume, ProgressOf, StartRefused, IsOther, Payloads, Trace,
      CommandTrace, OnlyCommandTraffic, FaithfulTrace;
    var se, whole := s.sessions[0], Trace(s.wire, 0);
    SessionTraceIsFaithful(m, se, whole);
    var received := s.wire[..delivered];
    assert received[1..] == s.wire[1..delivered];
    TraceWithoutFirst(received, 0);
    TraceOfPrefix(s.wire, delivered, 0);
    var t := Trace(received, 0);
    FaithfulPrefix(m, se, whole, t);
    EnvelopesWithoutFirst(received);
    FramesWithoutFirst(Envelopes(received));
    AfterTheFirst(m, s, delivered);
    IsCommandTrace(m, se, t);
    ConsumeFollowsTrace(m, received[1..], se.exitCode);
    if delivered == |s.wire| {
      assert received == s.wire;
    }
  }

  lemma {:induction false} FaithfulPrefix(m: Msgpack, se: Session, whole: seq<Envelope>, t: seq<Envelope>)
    requires FaithfulTrace(m, se, whole) && t <= whole
    ensures FaithfulTrace(m, se, t)
  {
    if |t| < |whole| {
      var shorter := whole[..|whole| - 1];
      GrammarPrefix(whole);
      FaithfulPrefix(m, se, shorter, t);
    } else {
      assert t == whole;
    }
  }

  /**
   For every schedule with one request, and however much of the connection the agent has received: the call has either
   collected a prefix of each output of the process, or it has finished with exactly that output and exit code. Once the
   exit is sent and everything has arrived, it has finished.
   */
  lemma ExecSyncIsExact(m: Msgpack, schedule: seq<Action>, s: Conn, delivered: nat, process: uint32, tty: bool,
                        stdout: seq<uint8>, stderr: seq<uint8>, code: int)
    requires Execute(m, schedule) == Some(s) && OneCall(s) && 1 <= delivered <= |s.wire|
    requires |Requests(schedule)| == 1 && Requests(schedule)[0].outcome == Started(process, tty, stdout, stderr, code)
    requires ReadsCode(m, code)
    ensures var errors := if tty then [] else stderr;
            var r := Outcome(m, Frames(Envelopes(s.wire[..delivered])));
            var p := Consume(m, Frames(Envelopes(s.wire[..delivered]))[1..]);
            && (r == Ok(ExecResult(code, stdout, errors)) ||
                (r == Err(ConnectionLost) && !(delivered == |s.wire| && ExitSent(s.sessions[0]))))
            && (p.Collecting? ==> p.stdout <= stdout && p.stderr <= errors)
  {
    ReachableInv(m, schedule);
    SessionsServeRequests(m, schedule);
    assert Serves(s.sessions[0], Requests(schedule)[0]);
    TrafficOfOneCall(m, s, delivered);
    SessionTraceIsFaithful(m, s.sessions[0], Trace(s.wire, 0));
  }

  /** No call is ever beyond help: the sidecar's goroutines alone can bring it to the exact result. */
  lemma ExecSyncCanFinish(m: Msgpack, schedule: seq<Action>, s: Conn, process: uint32, tty: bool,
                          stdout: seq<uint8>, stderr: seq<uint8>, code: int) returns (own: seq<LocalAction>)
    requires Execute(m, schedule) == Some(s) && OneCall(s)
    requires |Requests(schedule)| == 1 && Requests(schedule)[0].outcome == Started(process, tty, stdout, stderr, code)
    requires ReadsCode(m, code)
    ensures Execute(m, schedule + Of(0, own)).Some?
    ensures Outcome(m, Frames(Envelopes(Execute(m, schedule + Of(0, own)).value.wire))) ==
            Ok(ExecResult(code, stdout, if tty then [] else stderr))
  {
    hide Execute, SessionInv, Complete, Frames, Envelopes, Outcome, Serves;
    own := RunsToCompletion(m, schedule, s, 0);
    var s' := Execute(m, schedule + Of(0, own)).value;
    OwnStepsRequestNothing(schedule, 0, own);
    CallGoesOn(s, s');
    assert s'.wire[..|s'.wire|] == s'.wire;
    ExecSyncIsExact(m, schedule + Of(0, own), s', |s'.wire|, process, tty, stdout, stderr, code);
    ReachableInv(m, schedule + Of(0, own));
    SessionsServeRequests(m, schedule + Of(0, own));
    StartedCompletes(s'.sessions[0], Requests(schedule)[0]);
  }

  lemma StartedCompletes(se: Session, r: Action)
    requires r.Request? && r.outcome.Started? && Serves(se, r) && Complete(se)
    ensures ExitSent(se)
  {}

  lemma CallGoesOn(s: Conn, s': Conn)
    requires OneCall(s) && OnlyMoved(s, s', 0)
    ensures OneCall(s')
  {
    assert forall k :: 0 <= k < |s.wire| ==> s'.wire[k] == s.wire[k];
  }

  lemma {:induction false} OwnStepsRequestNothing(schedule: seq<Action>, i: nat, own: seq<LocalAction>)
    ensures Requests(schedule + Of(i, own)) == Requests(schedule)
  {
    if own == [] {
      assert schedule + Of(i, own) == schedule;
    } else {
      var before := own[..|own| - 1];
      OwnStepsRequestNothing(schedule, i, before);
      assert (schedule + Of(i, own))[..|schedule| + |before|] == schedule + Of(i, before);
    }
  }

  // ---------- A refused start ----------

  function RefusedBy(m: Msgpack, payload: seq<uint8>): ExecError {
    var error := m.unmarshalError(payload);
    if error.Some? then ExecFailed(error.value.0, error.value.1) else ExecFailedUnreadable
  }

  lemma {:induction false} ConsumeRefused(m: Msgpack, wire: seq<Sent>, error: Envelope)
    requires OnlyCommandTraffic(wire) && error.msgType == MSG_ERROR && Trace(wire, 0) <= [error]
    ensures Consume(m, Frames(Envelopes(wire))) ==
            if Trace(wire, 0) == [] then Collecting([], []) else Refused(RefusedBy(m, error.payload))
  {
    if wire != [] {
      hide Consume, Then, Frames, Envelopes, IsOther;
      var before, last := wire[..|wire| - 1], wire[|wire| - 1];
      assert wire == before + [last];
      OnNextMessage(m, before, last);
      ConsumeRefused(m, before, error);
      if last.writer == 0 {
        assert Trace(wire, 0)[|Trace(before, 0)|] == last.env;
        OnError(m, error);
      } else {
        OtherIsIgnored(m, Consume(m, Frames(Envelopes(before))), last.env);
      }
    }
  }

  lemma OnError(m: Msgpack, error: Envelope)
    requires error.msgType == MSG_ERROR
    ensures Then(m, Collecting([], []), error) == Refused(RefusedBy(m, error.payload))
  {}

  /** A call whose start is refused answers with the refusal's own code and message once that has arrived, and with no output. */
  lemma ExecSyncRefused(m: Msgpack, schedule: seq<Action>, s: Conn, delivered: nat)
    requires Execute(m, schedule) == Some(s) && OneCall(s) && 1 <= delivered <= |s.wire|
    requires |Requests(schedule)| == 1 && !Requests(schedule)[0].outcome.Started?
    ensures var r := Outcome(m, Frames(Envelopes(s.wire[..delivered])));
            r == Err(RefusedBy(m, Refusal(Requests(schedule)[0].outcome))) ||
            (r == Err(ConnectionLost) && !(delivered == |s.wire| && Complete(s.sessions[0])))
  {
    hide Execute, SessionInv, Frames, Envelopes, Consume, IsOther, Complete, Serves, Trace, OnlyCommandTraffic;
    ReachableInv(m, schedule);
    SessionsServeRequests(m, schedule);
    var se, r, received := s.sessions[0], Requests(schedule)[0], s.wire[..delivered];
    var error := Envelope(MSG_ERROR, se.channel, r.id, Refusal(r.outcome));
    TrafficOfSession(m, se, r, Trace(s.wire, 0));
    assert received[1..] == s.wire[1..delivered];
    TraceWithoutFirst(received, 0);
    TraceOfPrefix(s.wire, delivered, 0);
    EnvelopesWithoutFirst(received);
    FramesWithoutFirst(Envelopes(received));
    AfterTheFirst(m, s, delivered);
    ConsumeRefused(m, received[1..], error);
    if delivered == |s.wire| {
      assert received == s.wire;
    }
  }
}
