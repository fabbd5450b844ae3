/**
 The TypeScript SDK's execStream: message handlers push events into a queue while an async
 generator drains it, sleeping on a promise when the queue is empty. Between two suspension
 points JavaScript runs one of them alone, so a run is any order of deliveries and resumptions.
 */
module ExecStream {
  import opened Wrappers
  import opened Codec
  import opened Integers
  import P = ExecProducer

  datatype ExecEvent = Out(data: string) | ErrorOut(data: string) | Exit(code: int)

  /** The text decoder and the library's payload decoder; a payload that does not decode throws. */
  datatype Decoders = Decoders(text: seq<uint8> -> string,
                               exitCode: seq<uint8> -> Option<int>,
                               error: seq<uint8> -> Option<(string, string)>)

  /** Where the generator is suspended. `Woken` has a resolved promise and runs at the next microtask. */
  datatype ConsumerPc = Asleep | Woken | AtYield | Returned(early: bool)

  datatype State = State(events: seq<ExecEvent>, done: bool, pc: ConsumerPc, yielded: seq<ExecEvent>)

  const INITIAL := State([], false, Asleep, [])

  /** The events a message of this channel gives rise to. */
  function EventsOf(d: Decoders, channel: uint32, e: Envelope): seq<ExecEvent> {
    if e.msgType == MSG_EXEC_STDOUT && e.channel == channel then [Out(d.text(e.payload))]
    else if e.msgType == MSG_EXEC_STDERR && e.channel == channel then [ErrorOut(d.text(e.payload))]
    else if e.msgType == MSG_EXEC_EXIT && e.channel == channel then
      var code := d.exitCode(e.payload);
      if code.Some? then [Exit(code.value)] else []
    else if e.msgType == MSG_ERROR && (e.channel == channel || e.channel == 0) then
      var error := d.error(e.payload);
      if error.Some? then [ErrorOut("Error: " + error.value.0 + ": " + error.value.1), Exit(1)] else []
    else []
  }

  predicate Ends(events: seq<ExecEvent>) {
    events != [] && events[|events| - 1].Exit?
  }

  function AllEvents(d: Decoders, channel: uint32, received: seq<Envelope>): seq<ExecEvent> {
    if received == [] then []
    else AllEvents(d, channel, received[..|received| - 1]) + EventsOf(d, channel, received[|received| - 1])
  }

  // ---------- One step ----------

  function Push(st: State, e: ExecEvent): State {
    st.(events := st.events + [e], pc := if st.pc == Asleep then Woken else st.pc)
  }

  /** A message is delivered; once the generator has returned, its handlers are gone. */
  function Deliver(d: Decoders, channel: uint32, st: State, e: Envelope): State {
    if st.pc.Returned? then st
    else
      var events := EventsOf(d, channel, e);
      if |events| == 0 then st
      else if |events| == 1 then Push(st, events[0]).(done := st.done || events[0].Exit?)
      else Push(Push(st, events[0]), events[1]).(done := true)
  }

  /** The generator runs from the inner loop's test to its next suspension point. */
  function Advance(st: State): State {
    if st.events != [] then st.(events := st.events[1..], yielded := st.yielded + [st.events[0]], pc := AtYield)
    else if st.done then st.(pc := Returned(false))
    else st.(pc := Asleep)
  }

  class Stream {
    const d: Decoders
    const channel: uint32
    var events: seq<ExecEvent>
    var done: bool
    var pc: ConsumerPc
    ghost var yielded: seq<ExecEvent>

    ghost function Model(): State
      reads this
    {
      State(events, done, pc, yielded)
    }

    constructor (d: Decoders, channel: uint32)
      ensures Model() == INITIAL && this.d == d && this.channel == channel
    {
      this.d, this.channel := d, channel;
      events, done, pc, yielded := [], false, Asleep, [];
    }

    method PushEvent(e: ExecEvent)
      modifies this
      ensures Model() == Push(old(Model()), e)
    {
      events := events + [e];
      if pc == Asleep {
        pc := Woken;
      }
    }

    /** The four handlers, each of which sees the messages of its own type. */
    method OnMessage(e: Envelope)
      modifies this
      ensures Model() == Deliver(d, channel, old(Model()), e)
    {
      if pc.Returned? {
        return;
      }
      if e.msgType == MSG_EXEC_STDOUT {
        if e.channel == channel {
          PushEvent(Out(d.text(e.payload)));
        }
      } else if e.msgType == MSG_EXEC_STDERR {
        if e.channel == channel {
          PushEvent(ErrorOut(d.text(e.payload)));
        }
      } else if e.msgType == MSG_EXEC_EXIT {
        if e.channel == channel {
          var code := d.exitCode(e.payload);
          if code.Some? {
            PushEvent(Exit(code.value));
            done := true;
          }
        }
      } else if e.msgType == MSG_ERROR {
        if e.channel == channel || e.channel == 0 {
          var error := d.error(e.payload);
          if error.Some? {
            PushEvent(ErrorOut("Error: " + error.value.0 + ": " + error.value.1));
            PushEvent(Exit(1));
            done := true;
          }
        }
      }
    }

    /** Resumes the generator after its promise was resolved or after the caller asked for the next event. */
    method Resume() returns (event: Option<ExecEvent>)
      requires pc == Woken || pc == AtYield
      modifies this
      ensures Model() == Advance(old(Model()))
      ensures event == if old(events) == [] then None else Some(old(events)[0])
    {
      if |events| > 0 {
        event := Some(events[0]);
        yielded := yielded + [events[0]];
        events := events[1..];
        pc := AtYield;
      } else {
        event := None;
        pc := if done then Returned(false) else Asleep;
      }
    }
  }

  // ---------- Runs ----------

  datatype Step = Receive(env: Envelope) | RunConsumer | ReturnEarly

  /** One step of a run, or None when it cannot be taken: a sleeping generator waits for a push. */
  function Take(d: Decoders, channel: uint32, st: State, a: Step): Option<State> {
    match a
    case Receive(env) => Some(Deliver(d, channel, st, env))
    case RunConsumer => if st.pc == Woken || st.pc == AtYield then Some(Advance(st)) else None
    case ReturnEarly => if st.pc == AtYield then Some(st.(pc := Returned(true))) else None
  }

  function Run(d: Decoders, channel: uint32, schedule: seq<Step>): Option<State> {
    if schedule == [] then Some(INITIAL)
    else
      var before := Run(d, channel, schedule[..|schedule| - 1]);
      if before.None? then None else Take(d, channel, before.value, schedule[|schedule| - 1])
  }

  /** Everything that arrived on the connection during a run. */
  function Received(schedule: seq<Step>): seq<Envelope> {
    if schedule == [] then []
    else
      var before, last := Received(schedule[..|schedule| - 1]), schedule[|schedule| - 1];
      if last.Receive? then before + [last.env] else before
  }

  /** Once a message has ended the stream, no later message of the connection bears an event. */
  ghost predicate ExitIsLast(d: Decoders, channel: uint32, received: seq<Envelope>) {
    forall i, j :: 0 <= i < j < |received| && Ends(EventsOf(d, channel, received[i])) ==>
      EventsOf(d, channel, received[j]) == []
  }

  ghost predicate HasEnd(d: Decoders, channel: uint32, received: seq<Envelope>) {
    exists i :: 0 <= i < |received| && Ends(EventsOf(d, channel, received[i]))
  }

  predicate HasExit(events: seq<ExecEvent>) {
    exists k :: 0 <= k < |events| && events[k].Exit?
  }

  /** The queue and what was yielded make up everything that was pushed, and nobody sleeps on a full queue. */
  ghost predicate QueueInv(d: Decoders, channel: uint32, st: State, received: seq<Envelope>) {
    && (!st.pc.Returned? ==> st.yielded + st.events == AllEvents(d, channel, received))
    && st.yielded <= AllEvents(d, channel, received)
    && (st.pc == Returned(false) ==> HasExit(st.yielded))
    && (!st.pc.Returned? ==> (st.done <==> HasEnd(d, channel, received)))
    && (st.pc == Asleep ==> st.events == [] && !st.done)
    && (st.pc == Returned(false) && ExitIsLast(d, channel, received) ==>
          st.yielded == AllEvents(d, channel, received) && HasEnd(d, channel, received))
  }

  lemma AllEventsMore(d: Decoders, channel: uint32, es: seq<Envelope>, e: Envelope)
    ensures AllEvents(d, channel, es + [e]) == AllEvents(d, channel, es) + EventsOf(d, channel, e)
  {
    assert (es + [e])[..|es|] == es;
  }

  lemma NothingArrived(d: Decoders, channel: uint32)
    ensures AllEvents(d, channel, []) == []
  {}

  lemma HasEndMore(d: Decoders, channel: uint32, es: seq<Envelope>, e: Envelope)
    ensures HasEnd(d, channel, es + [e]) <==> HasEnd(d, channel, es) || Ends(EventsOf(d, channel, e))
  {
    hide EventsOf, Ends;
    var longer := es + [e];
    assert forall i :: 0 <= i < |es| ==> longer[i] == es[i];
    assert longer[|es|] == e;
  }

  lemma ExitIsLastMore(d: Decoders, channel: uint32, es: seq<Envelope>, e: Envelope)
    requires ExitIsLast(d, channel, es + [e])
    ensures ExitIsLast(d, channel, es)
    ensures HasEnd(d, channel, es) ==> EventsOf(d, channel, e) == []
  {
    hide EventsOf, Ends;
    var longer := es + [e];
    assert forall i :: 0 <= i < |es| ==> longer[i] == es[i];
    assert longer[|es|] == e;
  }

  /** A delivery appends the message's events to the queue and wakes a sleeper if there are any. */
  lemma DeliverAppends(d: Decoders, channel: uint32, st: State, e: Envelope)
    requires !st.pc.Returned?
    ensures var st', events := Deliver(d, channel, st, e), EventsOf(d, channel, e);
            && st' == State(st.events + events, st.done || Ends(events), st'.pc, st.yielded)
            && st'.pc == if st.pc == Asleep && events != [] then Woken else st.pc
  {
    var events := EventsOf(d, channel, e);
    assert |events| == 2 ==> events == [events[0]] + [events[1]];
    assert |events| == 1 ==> events == [events[0]];
  }

  lemma ReceiveKeepsInv(d: Decoders, channel: uint32, st: State, received: seq<Envelope>, e: Envelope)
    requires QueueInv(d, channel, st, received)
    ensures QueueInv(d, channel, Deliver(d, channel, st, e), received + [e])
  {
    hide AllEvents, EventsOf, HasEnd, ExitIsLast, HasExit, Ends;
    AllEventsMore(d, channel, received, e);
    HasEndMore(d, channel, received, e);
    if ExitIsLast(d, channel, received + [e]) {
      ExitIsLastMore(d, channel, received, e);
    }
    if !st.pc.Returned? {
      DeliverAppends(d, channel, st, e);
      hide Deliver;
      NoEventNoEnd(EventsOf(d, channel, e));
    }
  }

  lemma NoEventNoEnd(events: seq<ExecEvent>)
    ensures Ends(events) ==> events != []
  {}

  lemma ExitStays(first: seq<ExecEvent>, second: seq<ExecEvent>)
    ensures HasExit(first) || Ends(second) ==> HasExit(first + second)
  {
    if HasExit(first) {
      var k :| 0 <= k < |first| && first[k].Exit?;
      assert (first + second)[k].Exit?;
    }
    if Ends(second) {
      assert (first + second)[|first| + |second| - 1].Exit?;
    }
  }

  lemma {:induction false} EndHasExit(d: Decoders, channel: uint32, received: seq<Envelope>)
    requires HasEnd(d, channel, received)
    ensures HasExit(AllEvents(d, channel, received))
  {
    hide AllEvents, EventsOf;
    var before, last := received[..|received| - 1], received[|received| - 1];
    assert received == before + [last];
    AllEventsMore(d, channel, before, last);
    ExitStays(AllEvents(d, channel, before), EventsOf(d, channel, last));
    var i :| 0 <= i < |received| && Ends(EventsOf(d, channel, received[i]));
    if i < |before| {
      assert before[i] == received[i];
      EndHasExit(d, channel, before);
    }
  }

  lemma AdvanceKeepsInv(d: Decoders, channel: uint32, st: State, received: seq<Envelope>)
    requires QueueInv(d, channel, st, received) && (st.pc == Woken || st.pc == AtYield)
    ensures QueueInv(d, channel, Advance(st), received)
  {
    hide AllEvents, ExitIsLast, HasEnd, HasExit;
    if st.events == [] && st.done {
      EndHasExit(d, channel, received);
      assert st.yielded + [] == st.yielded;
    }
  }

  /** Every schedule of handlers and generator keeps the queue's invariant. */
  lemma {:induction false} RunKeepsInv(d: Decoders, channel: uint32, schedule: seq<Step>)
    requires Run(d, channel, schedule).Some?
    ensures QueueInv(d, channel, Run(d, channel, schedule).value, Received(schedule))
  {
    if schedule == [] {
      assert AllEvents(d, channel, []) == [];
    } else {
      hide AllEvents, ExitIsLast, HasEnd, HasExit, Advance, Deliver;
      var before, last := schedule[..|schedule| - 1], schedule[|schedule| - 1];
      RunKeepsInv(d, channel, before);
      var st := Run(d, channel, before).value;
      match last
      case Receive(env) => ReceiveKeepsInv(d, channel, st, Received(before), env);
      case RunConsumer => AdvanceKeepsInv(d, channel, st, Received(before));
      case ReturnEarly =>
    }
  }

  /** No event is ever waiting, and no end is ever pending, while the generator sleeps. */
  lemma NoLostWakeup(d: Decoders, channel: uint32, schedule: seq<Step>)
    requires Run(d, channel, schedule).Some?
    ensures var st := Run(d, channel, schedule).value;
            st.pc == Asleep ==>
              st.yielded == AllEvents(d, channel, Received(schedule)) && !HasEnd(d, channel, Received(schedule))
  {
    RunKeepsInv(d, channel, schedule);
  }

  /** At every moment the generator has yielded a prefix of the events, in order. */
  lemma YieldsInOrder(d: Decoders, channel: uint32, schedule: seq<Step>)
    requires Run(d, channel, schedule).Some?
    ensures Run(d, channel, schedule).value.yielded <= AllEvents(d, channel, Received(schedule))
  {
    RunKeepsInv(d, channel, schedule);
  }

  /** When the generator ends of itself and the exit came last, it has yielded every event once, in order. */
  lemma EndsWithEverything(d: Decoders, channel: uint32, schedule: seq<Step>)
    requires Run(d, channel, schedule).Some? && Run(d, channel, schedule).value.pc == Returned(false)
    requires ExitIsLast(d, channel, Received(schedule))
    ensures Run(d, channel, schedule).value.yielded == AllEvents(d, channel, Received(schedule))
    ensures Ends(AllEvents(d, channel, Received(schedule)))
  {
    RunKeepsInv(d, channel, schedule);
    EndIsLastEvent(d, channel, Received(schedule));
  }

  lemma {:induction false} EndIsLastEvent(d: Decoders, channel: uint32, received: seq<Envelope>)
    requires HasEnd(d, channel, received) && ExitIsLast(d, channel, received)
    ensures Ends(AllEvents(d, channel, received))
  {
    var before, last := received[..|received| - 1], |received| - 1;
    if !Ends(EventsOf(d, channel, received[last])) {
      var i :| 0 <= i < |received| && Ends(EventsOf(d, channel, received[i]));
      assert before[i] == received[i] && EventsOf(d, channel, received[last]) == [];
      forall j, k | 0 <= j < k < |before| && Ends(EventsOf(d, channel, before[j]))
        ensures EventsOf(d, channel, before[k]) == []
      {
        assert before[j] == received[j] && before[k] == received[k];
      }
      EndIsLastEvent(d, channel, before);
    }
  }

  lemma TakeAppend(d: Decoders, channel: uint32, schedule: seq<Step>, a: Step)
    requires Run(d, channel, schedule).Some?
    ensures Run(d, channel, schedule + [a]) == Take(d, channel, Run(d, channel, schedule).value, a)
    ensures !a.Receive? ==> Received(schedule + [a]) == Received(schedule)
  {
    assert (schedule + [a])[..|schedule|] == schedule;
  }

  /**
   A generator that is resumed yields the oldest event it has not yielded, if there is one; else it ends if the end has
   arrived, and goes to sleep if not.
   */
  lemma ResumesExactly(d: Decoders, channel: uint32, schedule: seq<Step>)
    requires Run(d, channel, schedule).Some?
    requires var st := Run(d, channel, schedule).value; st.pc == Woken || st.pc == AtYield
    ensures var st, all := Run(d, channel, schedule).value, AllEvents(d, channel, Received(schedule));
            var n := |st.yielded|;
            && n <= |all| && Run(d, channel, schedule + [RunConsumer]).Some?
            && var next := Run(d, channel, schedule + [RunConsumer]).value;
               if n < |all| then next.pc == AtYield && next.yielded == all[..n + 1]
               else next.yielded == all &&
                    next.pc == if HasEnd(d, channel, Received(schedule)) then Returned(false) else Asleep
  {
    hide AllEvents, HasEnd, HasExit, ExitIsLast, Received;
    RunKeepsInv(d, channel, schedule);
    TakeAppend(d, channel, schedule, RunConsumer);
    hide Run;
    var st, all := Run(d, channel, schedule).value, AllEvents(d, channel, Received(schedule));
    if st.events != [] {
      assert st.yielded + [st.events[0]] == all[..|st.yielded| + 1];
    } else {
      assert st.yielded + [] == st.yielded;
    }
  }

  /** After the end has arrived, a caller that keeps asking gets the rest and then the generator's end. */
  lemma {:induction false} Drains(d: Decoders, channel: uint32, schedule: seq<Step>) returns (more: seq<Step>)
    requires Run(d, channel, schedule).Some?
    requires var st := Run(d, channel, schedule).value; st.done && !st.pc.Returned?
    ensures |more| == |Run(d, channel, schedule).value.events| + 1
    ensures forall k :: 0 <= k < |more| ==> more[k] == RunConsumer
    ensures Run(d, channel, schedule + more).Some?
    ensures var st := Run(d, channel, schedule + more).value;
            st.pc == Returned(false) && st.yielded == AllEvents(d, channel, Received(schedule))
    decreases |Run(d, channel, schedule).value.events|
  {
    var st := Run(d, channel, schedule).value;
    RunKeepsInv(d, channel, schedule);
    TakeAppend(d, channel, schedule, RunConsumer);
    if st.events == [] {
      more := [RunConsumer];
    } else {
      var rest := Drains(d, channel, schedule + [RunConsumer]);
      more := [RunConsumer] + rest;
      assert schedule + more == schedule + [RunConsumer] + rest;
    }
  }

  // ---------- Joined with the sidecar ----------

  /** What the transport passes on to the handlers of a connection: all but the answers it hands to its own requests. */
  function PassedOn(wire: seq<P.Sent>, answers: set<nat>): seq<Envelope> {
    if wire == [] then []
    else
      var n := |wire| - 1;
      var before := PassedOn(wire[..n], answers);
      if n in answers then before else before + [wire[n].env]
  }

  /** Only a message with an id can be an answer. */
  ghost predicate HaveIds(wire: seq<P.Sent>, answers: set<nat>) {
    forall k :: 0 <= k < |wire| && k in answers ==> wire[k].env.id > 0
  }

  /** An Error on channel 0 that reaches the handlers ends every command of the client. */
  ghost predicate NoBroadcastError(es: seq<Envelope>) {
    forall e :: e in es && e.msgType == MSG_ERROR ==> e.channel != 0
  }

  /** No event in an answer. */
  predicate IsOwn(d: Decoders, channel: uint32, e: Envelope) {
    e.id > 0 ==> EventsOf(d, channel, e) == []
  }

  lemma ForeignBearsNothing(d: Decoders, channel: uint32, e: Envelope)
    requires e.channel != channel && (e.msgType == MSG_ERROR ==> e.channel != 0)
    ensures EventsOf(d, channel, e) == []
  {}

  /** Messages of other channels bear no events, so the client sees exactly its own session's messages. */
  lemma {:induction false} OnlyOwnEvents(d: Decoders, channel: uint32, wire: seq<P.Sent>, answers: set<nat>)
    requires HaveIds(wire, answers) && NoBroadcastError(PassedOn(wire, answers))
    requires forall e :: e in P.ByChannel(wire, channel) ==> IsOwn(d, channel, e)
    ensures AllEvents(d, channel, PassedOn(wire, answers)) == AllEvents(d, channel, P.ByChannel(wire, channel))
  {
    hide EventsOf, AllEvents;
    if wire == [] {
      assert PassedOn(wire, answers) == P.ByChannel(wire, channel);
    } else {
      var n := |wire| - 1;
      var before, e := wire[..n], wire[n].env;
      OnlyOwnEvents(d, channel, before, answers);
      AllEventsMore(d, channel, PassedOn(before, answers), e);
      AllEventsMore(d, channel, P.ByChannel(before, channel), e);
      if e.channel == channel {
        assert e in P.ByChannel(wire, channel);
      } else if n !in answers {
        assert e in PassedOn(wire, answers);
        ForeignBearsNothing(d, channel, e);
      }
    }
  }

  lemma {:induction false} EventsOfPrefix(d: Decoders, channel: uint32, received: seq<Envelope>, all: seq<Envelope>)
    requires received <= all
    ensures AllEvents(d, channel, received) <= AllEvents(d, channel, all)
  {
    hide EventsOf;
    if |received| < |all| {
      EventsOfPrefix(d, channel, received, all[..|all| - 1]);
    } else {
      assert received == all;
    }
  }

  /** One event for each chunk. */
  function ChunkEvents(d: Decoders, chunks: seq<Envelope>): seq<ExecEvent> {
    seq(|chunks|, k requires 0 <= k < |chunks| =>
      if chunks[k].msgType == MSG_EXEC_STDOUT then Out(d.text(chunks[k].payload)) else ErrorOut(d.text(chunks[k].payload)))
  }

  /** The events of a session: one per chunk, in the order sent, and then the exit code. */
  function SessionEvents(d: Decoders, chunks: seq<Envelope>, code: int): seq<ExecEvent> {
    ChunkEvents(d, chunks) + [Exit(code)]
  }

  /** The chunks among the messages of a session. */
  function Chunks(t: seq<Envelope>): seq<Envelope> {
    if t == [] then [] else if P.EndsWithExit(t) && |t| > 1 then t[1..|t| - 1] else t[1..]
  }

  /** An acknowledgement and then chunks, all on one channel. */
  ghost predicate AckAndChunks(channel: uint32, t: seq<Envelope>) {
    && t != [] && t[0].msgType == MSG_ACK
    && forall k :: 1 <= k < |t| ==> P.IsChunk(t[k]) && t[k].channel == channel
  }

  lemma {:induction false} EventsOfChunks(d: Decoders, channel: uint32, t: seq<Envelope>)
    requires AckAndChunks(channel, t)
    ensures AllEvents(d, channel, t) == ChunkEvents(d, t[1..])
  {
    hide AllEvents;
    var before, last := t[..|t| - 1], t[|t| - 1];
    assert t == before + [last];
    AllEventsMore(d, channel, before, last);
    if |t| > 1 {
      assert forall k :: 0 <= k < |before| ==> before[k] == t[k];
      EventsOfChunks(d, channel, before);
      assert t[1..] == before[1..] + [last];
    } else {
      NothingArrived(d, channel);
      assert before == [];
    }
  }

  ghost predicate OnChannel(channel: uint32, t: seq<Envelope>) {
    forall k :: 0 <= k < |t| ==> t[k].channel == channel
  }

  lemma TraceShape(m: P.Msgpack, se: P.Session, t: seq<Envelope>)
    requires P.FaithfulTrace(m, se, t) && !P.StartRefused(se) && OnChannel(se.channel, t) && t != []
    ensures P.EndsWithExit(t) ==> |t| > 1 && t[|t| - 1] == P.ExitOf(m, se) && AckAndChunks(se.channel, t[..|t| - 1])
    ensures !P.EndsWithExit(t) ==> AckAndChunks(se.channel, t)
  {}

  lemma ChunksAre(t: seq<Envelope>)
    ensures Chunks([]) == []
    ensures t != [] && !P.EndsWithExit(t) ==> Chunks(t) == t[1..]
    ensures P.EndsWithExit(t) && |t| > 1 ==> Chunks(t) == t[..|t| - 1][1..]
  {}

  lemma EventsUpToExit(d: Decoders, m: P.Msgpack, se: P.Session, before: seq<Envelope>)
    requires AckAndChunks(se.channel, before) && d.exitCode(m.marshalExit(se.exitCode)) == Some(se.exitCode)
    ensures AllEvents(d, se.channel, before + [P.ExitOf(m, se)]) == SessionEvents(d, before[1..], se.exitCode)
    ensures forall e :: e in before + [P.ExitOf(m, se)] ==> IsOwn(d, se.channel, e)
  {
    hide P.ExitOf, AckAndChunks, AllEvents, EventsOf, ChunkEvents, IsOwn;
    EventsOfChunks(d, se.channel, before);
    ExitIsEvent(d, m, se);
    AllEventsMore(d, se.channel, before, P.ExitOf(m, se));
    AreOwn(d, se.channel, before);
  }

  /** What the messages of a started session mean to its client. */
  lemma EventsOfSession(d: Decoders, m: P.Msgpack, se: P.Session, t: seq<Envelope>)
    requires P.FaithfulTrace(m, se, t) && !P.StartRefused(se) && OnChannel(se.channel, t)
    requires d.exitCode(m.marshalExit(se.exitCode)) == Some(se.exitCode)
    ensures AllEvents(d, se.channel, t) ==
            if P.EndsWithExit(t) then SessionEvents(d, Chunks(t), se.exitCode) else ChunkEvents(d, Chunks(t))
    ensures forall e :: e in t ==> IsOwn(d, se.channel, e)
  {
    hide *;
    ChunksAre(t);
    if t == [] {
      NoChunks(d);
      NothingArrived(d, se.channel);
      NoExitInNothing();
    } else {
      TraceShape(m, se, t);
      if P.EndsWithExit(t) {
        var before, last := t[..|t| - 1], t[|t| - 1];
        assert t == before + [last];
        EventsUpToExit(d, m, se, before);
      } else {
        EventsOfChunks(d, se.channel, t);
        AreOwn(d, se.channel, t);
      }
    }
  }

  lemma NoExitInNothing()
    ensures !P.EndsWithExit([])
  {}

  lemma ExitIsEvent(d: Decoders, m: P.Msgpack, se: P.Session)
    requires d.exitCode(m.marshalExit(se.exitCode)) == Some(se.exitCode)
    ensures EventsOf(d, se.channel, P.ExitOf(m, se)) == [Exit(se.exitCode)] && IsOwn(d, se.channel, P.ExitOf(m, se))
  {}

  lemma NoChunks(d: Decoders)
    ensures ChunkEvents(d, []) == []
  {}

  lemma AreOwn(d: Decoders, channel: uint32, t: seq<Envelope>)
    requires AckAndChunks(channel, t)
    ensures forall e :: e in t ==> IsOwn(d, channel, e)
  {
    forall e | e in t ensures IsOwn(d, channel, e) {
      var k :| 0 <= k < |t| && t[k] == e;
      assert k > 0 ==> P.IsChunk(t[k]);
    }
  }

  lemma {:induction false} AllOnChannel(wire: seq<P.Sent>, channel: uint32)
    ensures OnChannel(channel, P.ByChannel(wire, channel))
  {
    if wire != [] {
      AllOnChannel(wire[..|wire| - 1], channel);
    }
  }

  /** What the client can learn from a connection is the events of its own session, as far as it has come. */
  lemma EventsOnConnection(d: Decoders, m: P.Msgpack, schedule: seq<P.Action>, s: P.Conn, i: nat, answers: set<nat>)
    requires P.Execute(m, schedule) == Some(s) && i < |s.sessions| && P.Alone(s, i) && !P.StartRefused(s.sessions[i])
    requires HaveIds(s.wire, answers) && NoBroadcastError(PassedOn(s.wire, answers))
    requires var code := s.sessions[i].exitCode; d.exitCode(m.marshalExit(code)) == Some(code)
    ensures var se := s.sessions[i];
            var t := P.ByChannel(s.wire, se.channel);
            && P.FaithfulTrace(m, se, t)
            && (P.ExitSent(se) <==> P.EndsWithExit(t))
            && AllEvents(d, se.channel, PassedOn(s.wire, answers)) ==
               if P.EndsWithExit(t) then SessionEvents(d, Chunks(t), se.exitCode) else ChunkEvents(d, Chunks(t))
  {
    hide P.Execute, P.FaithfulTrace, P.SessionInv, P.Alone, P.Attributed, P.StartRefused, P.EndsWithExit, P.ExitSent,
      HaveIds, NoBroadcastError, OnChannel, IsOwn, AllEvents, SessionEvents, ChunkEvents, Chunks, PassedOn;
    var se := s.sessions[i];
    P.ReachableInv(m, schedule);
    P.AloneTraceIsFaithful(m, schedule, i);
    assert s == s.(wire := s.wire);
    P.ChannelIsSession(s.wire, s, i);
    P.SessionTraceIsFaithful(m, se, P.Trace(s.wire, i));
    AllOnChannel(s.wire, se.channel);
    EventsOfSession(d, m, se, P.ByChannel(s.wire, se.channel));
    OnlyOwnEvents(d, se.channel, s.wire, answers);
  }

  lemma PrefixWithExit(yielded: seq<ExecEvent>, chunks: seq<ExecEvent>, code: int)
    requires yielded <= chunks + [Exit(code)] && forall k :: 0 <= k < |chunks| ==> !chunks[k].Exit?
    requires exists k :: 0 <= k < |yielded| && yielded[k].Exit?
    ensures yielded == chunks + [Exit(code)]
  {
    var k :| 0 <= k < |yielded| && yielded[k].Exit?;
    assert yielded[k] == (chunks + [Exit(code)])[k];
  }

  lemma ChunkEventsAreNoExits(d: Decoders, chunks: seq<Envelope>)
    ensures forall k :: 0 <= k < |ChunkEvents(d, chunks)| ==> !ChunkEvents(d, chunks)[k].Exit?
  {}

  /**
   Any number of commands share the connection, refused ones and file requests among them. For every schedule of the
   sidecar, and every schedule of a client that has received any part of the connection, what the generator has yielded
   is a prefix of the chunks its process wrote, in order, and the exit code; and when it has ended of itself, it has
   yielded all of them, and they are the process's whole output, stream by stream.
   */
  lemma StreamsWholeCommand(d: Decoders, m: P.Msgpack, schedule: seq<P.Action>, s: P.Conn, i: nat, answers: set<nat>,
                            client: seq<Step>)
    requires P.Execute(m, schedule) == Some(s) && i < |s.sessions| && P.Alone(s, i)
    requires i < |P.Requests(schedule)| && P.Requests(schedule)[i].outcome.Started?
    requires HaveIds(s.wire, answers) && NoBroadcastError(PassedOn(s.wire, answers))
    requires var code := P.Requests(schedule)[i].outcome.exitCode; d.exitCode(m.marshalExit(code)) == Some(code)
    requires Run(d, s.sessions[i].channel, client).Some? && Received(client) <= PassedOn(s.wire, answers)
    ensures var o, channel := P.Requests(schedule)[i].outcome, s.sessions[i].channel;
            var t, st := P.ByChannel(s.wire, channel), Run(d, channel, client).value;
            && st.yielded <= SessionEvents(d, Chunks(t), o.exitCode)
            && P.Payloads(t, MSG_EXEC_STDOUT) <= o.stdout
            && P.Payloads(t, MSG_EXEC_STDERR) <= (if o.tty then [] else o.stderr)
            && (st.pc == Returned(false) ==>
                  && st.yielded == SessionEvents(d, Chunks(t), o.exitCode)
                  && P.Payloads(t, MSG_EXEC_STDOUT) == o.stdout
                  && P.Payloads(t, MSG_EXEC_STDERR) == if o.tty then [] else o.stderr)
  {
    hide P.Execute, P.Alone, P.ExecGrammar, P.EndsWithExit, HaveIds, NoBroadcastError, PassedOn, AllEvents,
      ChunkEvents, Chunks, Run, Received, P.Payloads, P.ByChannel, P.ExitSent, HasEnd, ExitIsLast, P.Requests, P.Requested;
    P.SessionsServeRequests(m, schedule);
    var se := s.sessions[i];
    assert P.Serves(se, P.Requests(schedule)[i]);
    P.ChannelTraceIsFaithful(m, schedule, i);
    var t, st := P.ByChannel(s.wire, se.channel), Run(d, se.channel, client).value;
    EventsOnConnection(d, m, schedule, s, i, answers);
    RunKeepsInv(d, se.channel, client);
    EventsOfPrefix(d, se.channel, Received(client), PassedOn(s.wire, answers));
    ChunkEventsAreNoExits(d, Chunks(t));
    if st.pc == Returned(false) {
      PrefixWithExit(st.yielded, ChunkEvents(d, Chunks(t)), se.exitCode);
      assert |st.yielded| <= |AllEvents(d, se.channel, PassedOn(s.wire, answers))|;
      assert P.EndsWithExit(t);
    }
  }

  /** What a client learns of a start that was refused. */
  function RefusalEvents(code: string, message: string): seq<ExecEvent> {
    [ErrorOut("Error: " + code + ": " + message), Exit(1)]
  }

  lemma ErrorIsRefusal(d: Decoders, channel: uint32, id: uint32, payload: seq<uint8>, code: string, message: string)
    requires d.error(payload) == Some((code, message))
    ensures EventsOf(d, channel, Envelope(MSG_ERROR, channel, id, payload)) == RefusalEvents(code, message)
  {}

  /**
   A command whose start is refused ends its stream too: the generator yields the refusal's code and message and exit code
   1, and nothing else. Its request carries no id, so no other request can take the error for its answer.
   */
  lemma StreamsRefusal(d: Decoders, m: P.Msgpack, schedule: seq<P.Action>, s: P.Conn, i: nat, answers: set<nat>,
                       client: seq<Step>, code: string, message: string)
    requires P.Execute(m, schedule) == Some(s) && i < |s.sessions| && P.Alone(s, i)
    requires i < |P.Requests(schedule)| && P.Requests(schedule)[i].id == 0 && !P.Requests(schedule)[i].outcome.Started?
    requires d.error(P.Refusal(P.Requests(schedule)[i].outcome)) == Some((code, message))
    requires HaveIds(s.wire, answers) && NoBroadcastError(PassedOn(s.wire, answers))
    requires Run(d, s.sessions[i].channel, client).Some? && Received(client) <= PassedOn(s.wire, answers)
    ensures var st := Run(d, s.sessions[i].channel, client).value;
            && st.yielded <= RefusalEvents(code, message)
            && (st.pc == Returned(false) ==> st.yielded == RefusalEvents(code, message))
  {
    hide P.Execute, P.Alone, P.Refusal, P.FaithfulTrace, HaveIds, NoBroadcastError, PassedOn, AllEvents, EventsOf, RefusalEvents,
      Run, Received, P.ByChannel, HasEnd, ExitIsLast, P.Requests, P.Requested, P.Complete;
    P.ChannelTraceIsFaithful(m, schedule, i);
    var channel, r := s.sessions[i].channel, P.Requests(schedule)[i];
    var error := Envelope(MSG_ERROR, channel, r.id, P.Refusal(r.outcome));
    ErrorIsRefusal(d, channel, r.id, error.payload, code, message);
    OnlyOwnEvents(d, channel, s.wire, answers);
    NothingArrived(d, channel);
    AllEventsMore(d, channel, [], error);
    assert [] + [error] == [error];
    RunKeepsInv(d, channel, client);
    EventsOfPrefix(d, channel, Received(client), PassedOn(s.wire, answers));
    EndsAtExit(Run(d, channel, client).value.yielded, code, message);
  }

  lemma EndsAtExit(yielded: seq<ExecEvent>, code: string, message: string)
    requires yielded <= RefusalEvents(code, message)
    ensures HasExit(yielded) ==> yielded == RefusalEvents(code, message)
  {}

  lemma {:induction false} PassesExitOn(d: Decoders, channel: uint32, es: seq<Envelope>)
    requires exists k :: 0 <= k < |AllEvents(d, channel, es)| && AllEvents(d, channel, es)[k].Exit?
    ensures HasEnd(d, channel, es)
  {
    var before, last := es[..|es| - 1], es[|es| - 1];
    var events := AllEvents(d, channel, before);
    if k :| 0 <= k < |events| && events[k].Exit? {
      PassesExitOn(d, channel, before);
      var i :| 0 <= i < |before| && Ends(EventsOf(d, channel, before[i]));
      assert before[i] == es[i];
    } else {
      assert Ends(EventsOf(d, channel, es[|es| - 1]));
    }
  }

  /** And it does end: once the exit is sent and everything has arrived, a caller that keeps asking gets it all. */
  lemma StreamFinishes(d: Decoders, m: P.Msgpack, schedule: seq<P.Action>, s: P.Conn, i: nat, answers: set<nat>,
                       client: seq<Step>) returns (more: seq<Step>)
    requires P.Execute(m, schedule) == Some(s) && i < |s.sessions| && P.Alone(s, i) && P.ExitSent(s.sessions[i])
    requires i < |P.Requests(schedule)| && P.Requests(schedule)[i].outcome.Started?
    requires HaveIds(s.wire, answers) && NoBroadcastError(PassedOn(s.wire, answers))
    requires var code := P.Requests(schedule)[i].outcome.exitCode; d.exitCode(m.marshalExit(code)) == Some(code)
    requires Received(client) == PassedOn(s.wire, answers)
    requires var st := Run(d, s.sessions[i].channel, client); st.Some? && !st.value.pc.Returned?
    ensures forall k :: 0 <= k < |more| ==> more[k] == RunConsumer
    ensures var o, channel := P.Requests(schedule)[i].outcome, s.sessions[i].channel;
            var t, end := P.ByChannel(s.wire, channel), Run(d, channel, client + more);
            && end.Some? && end.value.pc == Returned(false) && end.value.yielded == SessionEvents(d, Chunks(t), o.exitCode)
            && P.Payloads(t, MSG_EXEC_STDOUT) == o.stdout
            && P.Payloads(t, MSG_EXEC_STDERR) == if o.tty then [] else o.stderr
  {
    hide P.Execute, P.Alone, P.FaithfulTrace, P.EndsWithExit, HaveIds, NoBroadcastError, PassedOn, AllEvents,
      ChunkEvents, Chunks, Run, Received, P.ByChannel, P.ExitSent, P.ExecGrammar, P.Payloads, HasEnd, ExitIsLast, P.Requests,
      P.Requested;
    P.SessionsServeRequests(m, schedule);
    var se := s.sessions[i];
    assert P.Serves(se, P.Requests(schedule)[i]);
    P.ChannelTraceIsFaithful(m, schedule, i);
    EventsOnConnection(d, m, schedule, s, i, answers);
    RunKeepsInv(d, se.channel, client);
    var events := AllEvents(d, se.channel, PassedOn(s.wire, answers));
    assert events[|events| - 1].Exit?;
    PassesExitOn(d, se.channel, PassedOn(s.wire, answers));
    more := Drains(d, se.channel, client);
  }
}
