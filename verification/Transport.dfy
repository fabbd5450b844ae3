/**
 The TypeScript SDK's WebSocket transport. Responses, timers, close and failing sends compete to
 settle the promise of each request; type handlers may remove themselves while they are being called.
 */
module Transport {
  import opened Wrappers
  import opened Codec
  import opened Integers

  const MAX_RECONNECT_ATTEMPTS := 5

  datatype Reason = TimedOut | ServerError | ConnectionClosed | NotConnected

  datatype Settlement = Resolved(env: Envelope) | Rejected(reason: Reason)

  /** The socket side of the transport: flags and the reconnection counter. */
  datatype Link = Link(socket: bool, connected: bool, connecting: bool, closed: bool, attempts: nat)

  /** `promises` holds the settled promises; `timers` the armed timers; ids count from 1. */
  datatype State = State(link: Link, nextId: nat, pending: set<nat>, timers: set<nat>, promises: map<nat, Settlement>)

  const INITIAL := State(Link(false, false, false, false, 0), 1, {}, {}, map[])

  datatype Event =
    | Call
    | Arrive(data: seq<uint8>)
    | Expire(id: nat)
    | Close
    | Connect
    | Opened
    | Lost
    | SocketError
    | RetryTimer

  /** A promise keeps the first settlement it is given. */
  function Settle(promises: map<nat, Settlement>, id: nat, o: Settlement): map<nat, Settlement> {
    if id in promises then promises else promises[id := o]
  }

  function SettleAll(promises: map<nat, Settlement>, ids: set<nat>, o: Settlement): map<nat, Settlement> {
    promises + map id | id in ids - promises.Keys :: o
  }

  lemma SettleOneMore(promises: map<nat, Settlement>, ids: set<nat>, id: nat, o: Settlement)
    ensures Settle(SettleAll(promises, ids, o), id, o) == SettleAll(promises, ids + {id}, o)
  {}

  /** The request an arriving message answers, if it is a pending one. */
  function AnsweredBy(data: seq<uint8>, pending: set<nat>): Option<nat> {
    var msg := Decode(data);
    if msg.Ok? && msg.value.msgType != MSG_PING && msg.value.id > 0 && msg.value.id in pending then Some(msg.value.id)
    else None
  }

  function AnswerOf(e: Envelope): Settlement {
    if e.msgType == MSG_ERROR then Rejected(ServerError) else Resolved(e)
  }

  function Delay(attempts: nat): nat {
    var ms := 1000 * Pow2(if attempts == 0 then 0 else attempts - 1);
    if ms < 30000 then ms else 30000
  }

  function Pow2(n: nat): nat {
    if n == 0 then 1 else 2 * Pow2(n - 1)
  }

  /** A lost connection is tried again, unless it was closed on purpose or too often in a row. */
  predicate Retries(l: Link) {
    !l.closed && l.attempts < MAX_RECONNECT_ATTEMPTS
  }

  function OnLink(l: Link, e: Event): Link {
    match e
    case Close => l.(closed := true, socket := false, connected := false)
    case Connect => if l.connected || l.connecting then l else l.(socket := true, connecting := true)
    case Opened => l.(connected := true, connecting := false, attempts := 0)
    case Lost =>
      var l' := l.(connected := false, connecting := false);
      if Retries(l) then l'.(attempts := l.attempts + 1) else l'
    case SocketError => l.(connecting := false)
    case RetryTimer =>
      if l.closed || l.connected || l.connecting then l else l.(socket := true, connecting := true)
    case _ => l
  }

  function CanSend(l: Link): bool {
    l.socket && l.connected
  }

  predicate Enabled(st: State, e: Event) {
    e.Expire? ==> e.id in st.timers
  }

  function Apply(st: State, e: Event): State {
    match e
    case Call =>
      var id := st.nextId;
      st.(nextId := id + 1, pending := st.pending + {id}, timers := st.timers + {id},
          promises := if CanSend(st.link) then st.promises else Settle(st.promises, id, Rejected(NotConnected)))
    case Arrive(data) =>
      var id := AnsweredBy(data, st.pending);
      if id.None? then st
      else st.(pending := st.pending - {id.value}, timers := st.timers - {id.value},
               promises := Settle(st.promises, id.value, AnswerOf(Decode(data).value)))
    case Expire(id) =>
      st.(pending := st.pending - {id}, timers := st.timers - {id},
          promises := Settle(st.promises, id, Rejected(TimedOut)))
    case Close =>
      st.(link := OnLink(st.link, e), pending := {}, timers := st.timers - st.pending,
          promises := SettleAll(st.promises, st.pending, Rejected(ConnectionClosed)))
    case _ => st.(link := OnLink(st.link, e))
  }

  class WsTransport {
    var socket: bool
    var connected: bool
    var connecting: bool
    var closed: bool
    var attempts: nat
    var nextId: nat
    var pending: set<nat>
    var timers: set<nat>
    var promises: map<nat, Settlement>
    var handlers: map<uint8, seq<nat>>

    ghost function Model(): State
      reads this
    {
      State(Link(socket, connected, connecting, closed, attempts), nextId, pending, timers, promises)
    }

    constructor ()
      ensures Model() == INITIAL && handlers == map[]
    {
      socket, connected, connecting, closed, attempts := false, false, false, false, 0;
      nextId, pending, timers, promises, handlers := 1, {}, {}, map[], map[];
    }

    method Connect()
      modifies this`socket, this`connecting
      ensures Model() == Apply(old(Model()), Event.Connect)
    {
      if connected {
        return;
      }
      if connecting {
        return;
      }
      connecting := true;
      socket := true;
    }

    method OnOpen()
      modifies this`connected, this`connecting, this`attempts
      ensures Model() == Apply(old(Model()), Opened)
    {
      connected := true;
      attempts := 0;
      connecting := false;
    }

    method OnClosed() returns (delay: Option<nat>)
      modifies this`connected, this`connecting, this`attempts
      ensures Model() == Apply(old(Model()), Lost)
      ensures delay == if Retries(old(Model().link)) then Some(Delay(Model().link.attempts)) else None
    {
      connected := false;
      connecting := false;
      delay := AttemptReconnect();
    }

    method OnError()
      modifies this`connecting
      ensures Model() == Apply(old(Model()), SocketError)
    {
      connecting := false;
    }

    /** The wait before the next attempt, if there is one. */
    method AttemptReconnect() returns (delay: Option<nat>)
      modifies this`attempts
      ensures if Retries(old(Model().link)) then attempts == old(attempts) + 1 && delay == Some(Delay(attempts))
              else attempts == old(attempts) && delay == None
    {
      if closed {
        return None;
      }
      if attempts >= MAX_RECONNECT_ATTEMPTS {
        return None;
      }
      attempts := attempts + 1;
      return Some(Delay(attempts));
    }

    method OnRetryTimer()
      modifies this`socket, this`connecting
      ensures Model() == Apply(old(Model()), RetryTimer)
    {
      if closed || connected {
        return;
      }
      Connect();
    }

    /** Takes the next id and arms its timer; when the send throws, the entry and its timer stay behind. */
    method Request(msgType: uint8, channel: uint32, payload: seq<uint8>) returns (id: nat, sent: Option<Envelope>)
      modifies this`nextId, this`pending, this`timers, this`promises
      ensures id == old(nextId) && Model() == Apply(old(Model()), Call)
      ensures sent == if old(CanSend(Model().link)) then Some(Envelope(msgType, channel, id % 0x1_0000_0000, payload)) else None
    {
      id := nextId;
      nextId := nextId + 1;
      timers := timers + {id};
      pending := pending + {id};
      if !socket || !connected {
        promises := Settle(promises, id, Rejected(NotConnected));
        return id, None;
      }
      sent := Some(Envelope(msgType, channel, id % 0x1_0000_0000, payload));
    }

    method Expired(id: nat)
      requires id in timers
      modifies this`pending, this`timers, this`promises
      ensures Model() == Apply(old(Model()), Expire(id))
    {
      timers := timers - {id};
      pending := pending - {id};
      promises := Settle(promises, id, Rejected(TimedOut));
    }

    method CloseTransport()
      modifies this`closed, this`socket, this`connected, this`pending, this`timers, this`promises
      ensures Model() == Apply(old(Model()), Close)
    {
      closed := true;
      socket := false;
      connected := false;
      var left := pending;
      ghost var rejected: set<nat> := {};
      while left != {}
        invariant closed && !socket && !connected && pending == old(pending)
        invariant rejected + left == pending
        invariant timers == old(timers) - rejected
        invariant promises == SettleAll(old(promises), rejected, Rejected(ConnectionClosed))
        decreases left
      {
        var id :| id in left;
        SettleOneMore(old(promises), rejected, id, Rejected(ConnectionClosed));
        left := left - {id};
        rejected := rejected + {id};
        timers := timers - {id};
        promises := Settle(promises, id, Rejected(ConnectionClosed));
      }
      pending := {};
    }

    /** A message settles a request, or goes to the handlers of its type; `leaving` removes itself when called. */
    method HandleMessage(data: seq<uint8>, leaving: set<nat>) returns (called: seq<nat>, pong: bool)
      modifies this`pending, this`timers, this`promises, this`handlers
      ensures Model() == Apply(old(Model()), Arrive(data))
      ensures var msg := Decode(data);
              pong == (msg.Ok? && msg.value.msgType == MSG_PING && CanSend(Model().link))
      ensures var msg := Decode(data);
              if msg.Ok? && msg.value.msgType != MSG_PING && AnsweredBy(data, old(pending)) == None
                   && msg.value.msgType in old(handlers)
              then var hs := old(handlers)[msg.value.msgType];
                   called == DispatchFrom(hs, 0, leaving).0
                   && handlers == old(handlers)[msg.value.msgType := DispatchFrom(hs, 0, leaving).1]
              else called == [] && handlers == old(handlers)
    {
      called, pong := [], false;
      var msg := Decode(data);
      if msg.Err? {
        return;
      }
      var e := msg.value;
      if e.msgType == MSG_PING {
        pong := socket && connected;
        return;
      }
      if e.id > 0 && e.id in pending {
        pending := pending - {e.id};
        timers := timers - {e.id};
        if e.msgType == MSG_ERROR {
          promises := Settle(promises, e.id, Rejected(ServerError));
        } else {
          promises := Settle(promises, e.id, Resolved(e));
        }
        return;
      }
      if e.msgType in handlers {
        var live;
        called, live := Dispatch(handlers[e.msgType], leaving);
        handlers := handlers[e.msgType := live];
      }
    }

    method On(msgType: uint8, handler: nat)
      modifies this`handlers
      ensures handlers == old(handlers)[msgType := Registered(old(handlers), msgType) + [handler]]
    {
      var existing := if msgType in handlers then handlers[msgType] else [];
      handlers := handlers[msgType := existing + [handler]];
    }
  }

  function Registered(handlers: map<uint8, seq<nat>>, msgType: uint8): seq<nat> {
    if msgType in handlers then handlers[msgType] else []
  }

  // ---------- Every run ----------

  function Run(schedule: seq<Event>): Option<State> {
    if schedule == [] then Some(INITIAL)
    else
      var before, last := Run(schedule[..|schedule| - 1]), schedule[|schedule| - 1];
      if before.None? || !Enabled(before.value, last) then None else Some(Apply(before.value, last))
  }

  ghost predicate Inv(st: State) {
    && st.timers == st.pending
    && (forall id :: id in st.pending ==> 1 <= id < st.nextId)
    && (forall id :: id in st.promises ==> 1 <= id < st.nextId)
    && (forall id :: 1 <= id < st.nextId ==> id in st.promises || id in st.pending)
    && (forall id :: id in st.promises && id in st.pending ==> st.promises[id] == Rejected(NotConnected))
    && (forall id :: id in st.promises && st.promises[id].Resolved? ==>
          var e := st.promises[id].env; e.id == id && e.msgType != MSG_ERROR && e.msgType != MSG_PING)
    && st.link.attempts <= MAX_RECONNECT_ATTEMPTS
  }

  lemma ArriveKeepsInv(st: State, data: seq<uint8>)
    requires Inv(st)
    ensures Inv(Apply(st, Arrive(data)))
  {
    hide Decode;
  }

  lemma CloseKeepsInv(st: State)
    requires Inv(st)
    ensures Inv(Apply(st, Close))
  {}

  lemma LinkKeepsInv(st: State, e: Event)
    requires Inv(st) && !e.Call? && !e.Arrive? && !e.Expire? && !e.Close?
    ensures Inv(Apply(st, e))
  {}

  lemma StepKeepsInv(st: State, e: Event)
    requires Inv(st) && Enabled(st, e) && 1 <= st.nextId
    ensures Inv(Apply(st, e)) && 1 <= Apply(st, e).nextId
  {
    match e
    case Call =>
    case Arrive(data) => ArriveKeepsInv(st, data);
    case Expire(id) =>
    case Close => CloseKeepsInv(st);
    case _ => LinkKeepsInv(st, e);
  }

  lemma {:induction false} RunKeepsInv(schedule: seq<Event>)
    requires Run(schedule).Some?
    ensures Inv(Run(schedule).value) && 1 <= Run(schedule).value.nextId
  {
    if schedule != [] {
      hide Inv, Apply, Enabled;
      var before := schedule[..|schedule| - 1];
      RunKeepsInv(before);
      StepKeepsInv(Run(before).value, schedule[|schedule| - 1]);
    }
  }

  /** Once settled, a promise keeps its settlement whatever comes later. */
  lemma {:induction false} SettledForGood(schedule: seq<Event>, n: nat, id: nat)
    requires n <= |schedule| && Run(schedule).Some?
    ensures Run(schedule[..n]).Some?
    ensures id in Run(schedule[..n]).value.promises ==>
              id in Run(schedule).value.promises
              && Run(schedule).value.promises[id] == Run(schedule[..n]).value.promises[id]
  {
    if n < |schedule| {
      var before := schedule[..|schedule| - 1];
      assert before[..n] == schedule[..n];
      SettledForGood(before, n, id);
    } else {
      assert schedule[..n] == schedule;
    }
  }

  /** A request that is not settled has an armed timer, and its expiry, an answer or close settles it. */
  lemma UnsettledCanExpire(schedule: seq<Event>, id: nat, e: Event)
    requires Run(schedule).Some?
    requires var st := Run(schedule).value; 1 <= id < st.nextId && id !in st.promises
    ensures var st := Run(schedule).value;
            && Enabled(st, Expire(id))
            && Apply(st, Expire(id)).promises == st.promises[id := Rejected(TimedOut)]
            && id in Apply(st, Close).promises
            && Apply(st, Close).promises[id] == Rejected(ConnectionClosed)
            && (e.Arrive? && AnsweredBy(e.data, st.pending) == Some(id) ==>
                  Apply(st, e).promises == st.promises[id := AnswerOf(Decode(e.data).value)])
  {
    RunKeepsInv(schedule);
  }

  /** A message takes away at most the one entry whose id it carries; close leaves none. */
  lemma ConsumesAtMostOne(st: State, data: seq<uint8>)
    ensures var st' := Apply(st, Arrive(data));
            st'.pending == st.pending ||
            (Decode(data).Ok? && st'.pending == st.pending - {Decode(data).value.id}
               && forall id :: id in st'.promises && id !in st.promises ==> id == Decode(data).value.id)
    ensures Apply(st, Close).pending == {}
  {}

  // ---------- Each request on its own ----------

  /** What becomes of one request, told without the table of pending requests. */
  datatype Fate = NotIssued | Waiting | Unsendable(lingers: bool) | Over(settlement: Settlement)

  function LinkAfter(schedule: seq<Event>): Link {
    if schedule == [] then INITIAL.link
    else OnLink(LinkAfter(schedule[..|schedule| - 1]), schedule[|schedule| - 1])
  }

  function Calls(schedule: seq<Event>): nat {
    if schedule == [] then 0
    else Calls(schedule[..|schedule| - 1]) + (if schedule[|schedule| - 1].Call? then 1 else 0)
  }

  predicate Answers(data: seq<uint8>, id: nat) {
    Decode(data).Ok? && Decode(data).value.msgType != MSG_PING && Decode(data).value.id == id
  }

  /** What takes a request out of the table: an answer with its id, its timer, a close. */
  predicate Clears(e: Event, id: nat) {
    (e.Arrive? && Answers(e.data, id)) || (e.Expire? && e.id == id) || e.Close?
  }

  /** One event: a failing send, an answer that carries the id, the timer, a close; later ones only clear the table. */
  function FateAfter(fate: Fate, e: Event, id: nat, calls: nat, link: Link): Fate {
    match fate
    case NotIssued =>
      if e.Call? && calls + 1 == id then (if CanSend(link) then Waiting else Unsendable(true)) else NotIssued
    case Waiting =>
      (match e
       case Arrive(data) => if Answers(data, id) then Over(AnswerOf(Decode(data).value)) else Waiting
       case Expire(i) => if i == id then Over(Rejected(TimedOut)) else Waiting
       case Close => Over(Rejected(ConnectionClosed))
       case _ => Waiting)
    case Unsendable(lingers) => Unsendable(lingers && !Clears(e, id))
    case Over(_) => fate
  }

  function FateOf(schedule: seq<Event>, id: nat): Fate {
    if schedule == [] then NotIssued
    else
      var before := schedule[..|schedule| - 1];
      FateAfter(FateOf(before, id), schedule[|schedule| - 1], id, Calls(before), LinkAfter(before))
  }

  ghost predicate FateAgrees(st: State, fate: Fate, id: nat) {
    match fate
    case NotIssued => id >= st.nextId && id !in st.promises && id !in st.pending
    case Waiting => id < st.nextId && id !in st.promises && id in st.pending
    case Unsendable(lingers) =>
      id < st.nextId && id in st.promises && st.promises[id] == Rejected(NotConnected) && (id in st.pending <==> lingers)
    case Over(o) => id < st.nextId && id in st.promises && st.promises[id] == o && id !in st.pending
  }

  lemma {:induction false} LinkAndIds(schedule: seq<Event>)
    requires Run(schedule).Some?
    ensures Run(schedule).value.link == LinkAfter(schedule) && Run(schedule).value.nextId == Calls(schedule) + 1
  {
    if schedule != [] {
      LinkAndIds(schedule[..|schedule| - 1]);
    }
  }

  lemma FateStep(st: State, e: Event, fate: Fate, id: nat, calls: nat)
    requires Inv(st) && Enabled(st, e) && FateAgrees(st, fate, id) && 1 <= id && st.nextId == calls + 1
    ensures FateAgrees(Apply(st, e), FateAfter(fate, e, id, calls, st.link), id)
  {
    match e
    case Call =>
    case Arrive(data) =>
    case Expire(_) =>
    case Close =>
    case _ =>
  }

  /** Every promise is settled by the first event that concerns its own request, and by no other. */
  lemma {:induction false} SettledByItsOwnFirstEvent(schedule: seq<Event>, id: nat)
    requires Run(schedule).Some? && 1 <= id
    ensures FateAgrees(Run(schedule).value, FateOf(schedule, id), id)
  {
    if schedule != [] {
      hide Inv, Apply, FateAgrees, FateAfter;
      var before, last := schedule[..|schedule| - 1], schedule[|schedule| - 1];
      SettledByItsOwnFirstEvent(before, id);
      RunKeepsInv(before);
      LinkAndIds(before);
      FateStep(Run(before).value, last, FateOf(before, id), id, Calls(before));
    }
  }

  /** The n-th event is the request's call; `sends` tells whether its send went through. */
  predicate CallAt(schedule: seq<Event>, n: nat, id: nat, sends: bool) {
    n < |schedule| && schedule[n].Call? && Calls(schedule[..n]) + 1 == id && CanSend(LinkAfter(schedule[..n])) == sends
  }

  /** And nothing has cleared the table of it since. */
  ghost predicate Untouched(schedule: seq<Event>, n: nat, id: nat, sends: bool) {
    CallAt(schedule, n, id, sends) && forall k :: n < k < |schedule| ==> !Clears(schedule[k], id)
  }

  lemma CallBefore(schedule: seq<Event>, n: nat, id: nat, sends: bool)
    requires n < |schedule| - 1
    ensures var before := schedule[..|schedule| - 1];
            && (CallAt(schedule, n, id, sends) <==> CallAt(before, n, id, sends))
            && (Untouched(schedule, n, id, sends) <==>
                  Untouched(before, n, id, sends) && !Clears(schedule[|schedule| - 1], id))
  {
    hide Clears, Calls, CanSend, LinkAfter;
    var before := schedule[..|schedule| - 1];
    assert before[..n] == schedule[..n];
    assert forall k :: 0 <= k < |before| ==> before[k] == schedule[k];
  }

  lemma CallIndex(schedule: seq<Event>, n: nat, id: nat, sends: bool)
    ensures Untouched(schedule, n, id, sends) ==> CallAt(schedule, n, id, sends)
    ensures CallAt(schedule, n, id, sends) ==> n < |schedule| && (n == |schedule| - 1 ==> Untouched(schedule, n, id, sends))
    ensures CallAt(schedule, n, id, sends) && n == |schedule| - 1 ==>
              schedule[n].Call? && Calls(schedule[..n]) + 1 == id && CanSend(LinkAfter(schedule[..n])) == sends
    ensures schedule != [] && n == |schedule| - 1 && schedule[n].Call? && Calls(schedule[..n]) + 1 == id ==>
              (CanSend(LinkAfter(schedule[..n])) == sends ==> CallAt(schedule, n, id, sends))
  {
    hide Clears, Calls, CanSend, LinkAfter;
  }

  /** Whether a call, untouched or not, is in the schedule is decided by what comes before the last event and that event. */
  lemma CallsMore(schedule: seq<Event>, id: nat, sends: bool)
    requires schedule != []
    ensures var before, last := schedule[..|schedule| - 1], |schedule| - 1;
            && ((exists n: nat :: CallAt(schedule, n, id, sends)) <==>
                  (exists n: nat :: CallAt(before, n, id, sends)) || CallAt(schedule, last, id, sends))
            && ((exists n: nat :: Untouched(schedule, n, id, sends)) <==>
                  ((exists n: nat :: Untouched(before, n, id, sends)) && !Clears(schedule[last], id)) ||
                  CallAt(schedule, last, id, sends))
  {
    hide Clears, CallAt, Untouched;
    var before, last := schedule[..|schedule| - 1], |schedule| - 1;
    CallIndex(schedule, last, id, sends);
    if n: nat :| CallAt(schedule, n, id, sends) {
      CallIndex(schedule, n, id, sends);
      if n < last {
        CallBefore(schedule, n, id, sends);
      }
    }
    if n: nat :| Untouched(schedule, n, id, sends) {
      CallIndex(schedule, n, id, sends);
      if n < last {
        CallBefore(schedule, n, id, sends);
      }
    }
    if n: nat :| CallAt(before, n, id, sends) {
      CallIndex(before, n, id, sends);
      CallBefore(schedule, n, id, sends);
    }
    if n: nat :| Untouched(before, n, id, sends) {
      CallIndex(before, n, id, sends);
      CallBefore(schedule, n, id, sends);
    }
  }

  lemma {:induction false} FateOfCall(schedule: seq<Event>, id: nat)
    requires 1 <= id
    ensures FateOf(schedule, id) == Unsendable(true) <==> exists n: nat :: Untouched(schedule, n, id, false)
    ensures FateOf(schedule, id).Unsendable? <==> exists n: nat :: CallAt(schedule, n, id, false)
    ensures FateOf(schedule, id) == Waiting <==> exists n: nat :: Untouched(schedule, n, id, true)
    ensures FateOf(schedule, id).NotIssued? <==> Calls(schedule) < id
  {
    if schedule == [] {
      forall n, sends ensures !CallAt(schedule, n, id, sends) && !Untouched(schedule, n, id, sends) {}
    } else {
      hide Clears, CanSend, LinkAfter, Answers, CallAt, Untouched;
      var before, last := schedule[..|schedule| - 1], |schedule| - 1;
      FateOfCall(before, id);
      CallsMore(schedule, id, true);
      CallsMore(schedule, id, false);
      CallIndex(schedule, last, id, true);
      CallIndex(schedule, last, id, false);
      FateMoves(FateOf(before, id), schedule[last], id, Calls(before), LinkAfter(before));
    }
  }

  lemma FateMoves(fate: Fate, e: Event, id: nat, calls: nat, link: Link)
    ensures var next := FateAfter(fate, e, id, calls, link); var called := e.Call? && calls + 1 == id;
            && (fate.NotIssued? ==>
                  next == if !called then NotIssued else if CanSend(link) then Waiting else Unsendable(true))
            && (fate.Waiting? ==> (next == Waiting <==> !Clears(e, id)) && (next.Over? || next == Waiting))
            && (fate.Unsendable? ==> next == Unsendable(fate.lingers && !Clears(e, id)))
            && (fate.Over? ==> next == fate)
  {
    hide Answers, CanSend;
  }

  /**
   A settled request is still in the table, with its timer armed, exactly when its send threw and neither an answer
   with its id, nor its timer, nor a close has come since.
   */
  lemma LingersExactly(schedule: seq<Event>, id: nat)
    requires Run(schedule).Some? && 1 <= id
    ensures var st := Run(schedule).value;
            && (id in st.timers <==> id in st.pending)
            && (id in st.promises && id in st.pending <==> exists n: nat :: Untouched(schedule, n, id, false))
  {
    hide Run, Untouched, CallAt, FateOf;
    RunKeepsInv(schedule);
    SettledByItsOwnFirstEvent(schedule, id);
    FateOfCall(schedule, id);
  }

  // ---------- How each promise is settled ----------

  /** The k-th event is the first one that concerns the request after its call was sent. */
  ghost predicate ConcernAt(schedule: seq<Event>, k: nat, id: nat) {
    k < |schedule| && Clears(schedule[k], id) && exists n: nat :: Untouched(schedule[..k], n, id, true)
  }

  /** A message resolves, unless it is an error; timer and close reject. */
  predicate SettlesAs(e: Event, o: Settlement) {
    match o
    case Resolved(env) => e.Arrive? && Decode(e.data) == Ok(env) && env.msgType != MSG_ERROR
    case Rejected(ServerError) => e.Arrive? && Decode(e.data).Ok? && Decode(e.data).value.msgType == MSG_ERROR
    case Rejected(TimedOut) => e.Expire?
    case Rejected(ConnectionClosed) => e.Close?
    case Rejected(NotConnected) => false
  }

  ghost predicate SettledAt(schedule: seq<Event>, k: nat, id: nat, o: Settlement) {
    ConcernAt(schedule, k, id) && SettlesAs(schedule[k], o)
  }

  lemma ConcernSettles(e: Event, id: nat, calls: nat, link: Link, o: Settlement)
    ensures FateAfter(Waiting, e, id, calls, link) == Over(o) <==> Clears(e, id) && SettlesAs(e, o)
  {
    hide Decode;
  }

  lemma SettledBefore(schedule: seq<Event>, k: nat, id: nat, o: Settlement)
    requires k < |schedule| - 1
    ensures SettledAt(schedule, k, id, o) <==> SettledAt(schedule[..|schedule| - 1], k, id, o)
  {
    hide Clears, Untouched, SettlesAs;
    assert schedule[..|schedule| - 1][..k] == schedule[..k];
  }

  lemma {:induction false} OverExactly(schedule: seq<Event>, id: nat, o: Settlement)
    requires 1 <= id
    ensures FateOf(schedule, id) == Over(o) <==> exists k: nat :: SettledAt(schedule, k, id, o)
  {
    if schedule != [] {
      var before, last := schedule[..|schedule| - 1], |schedule| - 1;
      var fate, e := FateOf(before, id), schedule[last];
      OverExactly(before, id, o);
      FateOfCall(before, id);
      assert SettledAt(schedule, last, id, o) <==> Clears(e, id) && fate == Waiting && SettlesAs(e, o);
      FateMoves(fate, e, id, Calls(before), LinkAfter(before));
      ConcernSettles(e, id, Calls(before), LinkAfter(before), o);
      hide Clears, SettlesAs, ConcernAt, SettledAt, CanSend, Untouched, CallAt, FateAfter;
      if k: nat :| k < last && SettledAt(schedule, k, id, o) {
        SettledBefore(schedule, k, id, o);
      }
      if k: nat :| SettledAt(before, k, id, o) {
        SettledIndex(before, k, id, o);
        SettledBefore(schedule, k, id, o);
      }
      if k: nat :| SettledAt(schedule, k, id, o) {
        SettledIndex(schedule, k, id, o);
      }
    }
  }

  lemma SettledIndex(schedule: seq<Event>, k: nat, id: nat, o: Settlement)
    requires SettledAt(schedule, k, id, o)
    ensures k < |schedule|
  {}

  /**
   In every run a promise is settled, as `o`, exactly when the first event that concerns its request after the call went
   out settles it so: resolved with the very message that carries its id and is no Error, rejected by an Error with its
   id, by its timer, or by a close. Or it is rejected as not connected, exactly when the send threw.
   */
  lemma SettledExactly(schedule: seq<Event>, id: nat, o: Settlement)
    requires Run(schedule).Some? && 1 <= id
    ensures var promises := Run(schedule).value.promises;
            id in promises && promises[id] == o <==>
              (exists k: nat :: SettledAt(schedule, k, id, o)) ||
              (o == Rejected(NotConnected) && exists n: nat :: CallAt(schedule, n, id, false))
  {
    hide Run, SettledAt, SettlesAs, CallAt, Untouched, FateOf, Inv;
    SettledByItsOwnFirstEvent(schedule, id);
    FateOfCall(schedule, id);
    OverExactly(schedule, id, o);
  }

  /** Ids travel in 32 bits: an answer that repeats the id it was sent finds its request only below 2^32. */
  lemma AnswerFindsRequest(schedule: seq<Event>, id: nat, e: Envelope)
    requires Run(schedule).Some? && id in Run(schedule).value.pending
    requires e.msgType != MSG_PING && e.id == id % 0x1_0000_0000
    ensures AnsweredBy(Frame(e), Run(schedule).value.pending) == Some(id) <==> id < 0x1_0000_0000
  {
    RunKeepsInv(schedule);
    DecodeFrame(e);
  }

  // ---------- The socket ----------

  /** The k-th event opens a socket: a connect or a retry timer, with no connection there or on its way. */
  predicate OpensAt(schedule: seq<Event>, k: nat) {
    k < |schedule| && var l := LinkAfter(schedule[..k]);
    !l.connected && !l.connecting && (schedule[k] == Connect || (schedule[k] == RetryTimer && Close !in schedule[..k]))
  }

  predicate OpenedAt(schedule: seq<Event>, k: nat) {
    k < |schedule| && schedule[k] == Opened
  }

  predicate NoneSince(schedule: seq<Event>, k: nat, ends: set<Event>) {
    forall j :: k < j < |schedule| ==> schedule[j] !in ends
  }

  lemma EventBefore(schedule: seq<Event>, k: nat, ends: set<Event>)
    requires k < |schedule| - 1
    ensures var before, last := schedule[..|schedule| - 1], schedule[|schedule| - 1];
            && (OpensAt(schedule, k) <==> OpensAt(before, k)) && (OpenedAt(schedule, k) <==> OpenedAt(before, k))
            && (NoneSince(schedule, k, ends) <==> NoneSince(before, k, ends) && last !in ends)
  {
    hide LinkAfter;
    var before := schedule[..|schedule| - 1];
    assert before[..k] == schedule[..k];
    assert forall j :: 0 <= j < |before| ==> before[j] == schedule[j];
  }

  ghost predicate OpenSince(schedule: seq<Event>, ends: set<Event>) {
    exists k: nat :: OpensAt(schedule, k) && NoneSince(schedule, k, ends)
  }

  ghost predicate ConnectedSince(schedule: seq<Event>, ends: set<Event>) {
    exists k: nat :: OpenedAt(schedule, k) && NoneSince(schedule, k, ends)
  }

  lemma SinceMore(schedule: seq<Event>, ends: set<Event>)
    requires schedule != []
    ensures var before, last := schedule[..|schedule| - 1], |schedule| - 1;
            && (OpenSince(schedule, ends) <==> OpensAt(schedule, last) || (OpenSince(before, ends) && schedule[last] !in ends))
            && (ConnectedSince(schedule, ends) <==>
                  schedule[last] == Opened || (ConnectedSince(before, ends) && schedule[last] !in ends))
  {
    hide LinkAfter;
    var before, last := schedule[..|schedule| - 1], |schedule| - 1;
    assert NoneSince(schedule, last, ends) && (OpenedAt(schedule, last) <==> schedule[last] == Opened);
    forall k: nat | k < last
      ensures (OpensAt(schedule, k) <==> OpensAt(before, k)) && (OpenedAt(schedule, k) <==> OpenedAt(before, k))
      ensures NoneSince(schedule, k, ends) <==> NoneSince(before, k, ends) && schedule[last] !in ends
    {
      EventBefore(schedule, k, ends);
    }
  }

  lemma FlagsStep(l: Link, e: Event)
    ensures var l' := OnLink(l, e);
            var opens := !l.connected && !l.connecting && (e == Connect || (e == RetryTimer && !l.closed));
            && (l'.closed <==> l.closed || e == Close)
            && (l'.socket <==> opens || (l.socket && e != Close))
            && (l'.connected <==> e == Opened || (l.connected && e !in {Lost, Close}))
            && (l'.connecting <==> opens || (l.connecting && e !in {Opened, Lost, SocketError}))
            && (CanSend(l) <==> l.socket && l.connected)
            && (CanSend(l') <==> l'.socket && l'.connected)
  {}

  lemma OpensIs(schedule: seq<Event>)
    requires schedule != []
    ensures var before, last := schedule[..|schedule| - 1], schedule[|schedule| - 1]; var l := LinkAfter(before);
            OpensAt(schedule, |schedule| - 1) <==>
            !l.connected && !l.connecting && (last == Connect || (last == RetryTimer && Close !in before))
  {
    hide LinkAfter;
  }

  /**
   In every run: the transport is closed once it was closed, has a socket exactly if one was opened and no close has come
   since, is connected exactly from an open event to the next loss or close, and on its way there exactly from the
   opening of a socket to its open, loss or error.
   */
  lemma {:induction false} FlagsExactly(schedule: seq<Event>)
    ensures var l := LinkAfter(schedule);
            && (l.closed <==> Close in schedule)
            && (l.socket <==> OpenSince(schedule, {Close}))
            && (l.connected <==> ConnectedSince(schedule, {Lost, Close}))
            && (l.connecting <==> OpenSince(schedule, {Opened, Lost, SocketError}))
            && (CanSend(l) <==> OpenSince(schedule, {Close}) && ConnectedSince(schedule, {Lost, Close}))
  {
    if schedule != [] {
      var before, last := schedule[..|schedule| - 1], schedule[|schedule| - 1];
      hide OpenSince, ConnectedSince, OnLink, CanSend, OpensAt;
      FlagsExactly(before);
      assert schedule == before + [last];
      FlagsStep(LinkAfter(before), last);
      OpensIs(schedule);
      SinceMore(schedule, {Close});
      SinceMore(schedule, {Lost, Close});
      SinceMore(schedule, {Opened, Lost, SocketError});
    }
  }

  /** The waits begun since the connection was last open. */
  function Waits(schedule: seq<Event>): seq<nat> {
    if schedule == [] then []
    else
      var before, last := schedule[..|schedule| - 1], schedule[|schedule| - 1];
      var l := LinkAfter(before);
      if last.Opened? then []
      else if last.Lost? && Retries(l) then Waits(before) + [Delay(OnLink(l, last).attempts)]
      else Waits(before)
  }

  /** The connections lost since the last open one, but for those lost after a close. */
  function Losses(schedule: seq<Event>): nat {
    if schedule == [] then 0
    else
      var before, last := schedule[..|schedule| - 1], schedule[|schedule| - 1];
      if last.Opened? then 0
      else Losses(before) + (if last.Lost? && Close !in before then 1 else 0)
  }

  function AtMostFive(n: nat): nat {
    if n < 5 then n else 5
  }

  const WAITS: seq<nat> := [1000, 2000, 4000, 8000, 16000]

  /** After a sixth loss in a row the wait would be the cap. */
  lemma {:induction false} DelayIsCapped(attempts: nat)
    requires attempts >= 1
    ensures Delay(attempts) == if attempts <= 5 then WAITS[attempts - 1] else 30000
  {
    assert Pow2(0) == 1 && Pow2(1) == 2 && Pow2(2) == 4 && Pow2(3) == 8 && Pow2(4) == 16;
    if attempts > 6 {
      PowersGrow(attempts - 1);
    }
  }

  lemma {:induction false} PowersGrow(n: nat)
    requires n >= 5
    ensures Pow2(n) >= 32
  {
    if n == 5 {
      assert Pow2(1) == 2 && Pow2(3) == 8;
    } else {
      PowersGrow(n - 1);
    }
  }

  lemma AttemptsStep(l: Link, e: Event)
    ensures OnLink(l, e).attempts ==
            if e.Opened? then 0 else if e.Lost? && Retries(l) then l.attempts + 1 else l.attempts
  {}

  lemma OneMoreWait(n: nat)
    requires n < 5
    ensures WAITS[..n] + [WAITS[n]] == WAITS[..n + 1]
  {}

  /** In every run they are 1, 2, 4, 8 and 16 seconds, one for each loss: never a sixth, and the cap is not reached. */
  lemma {:induction false} WaitsDouble(schedule: seq<Event>)
    ensures Waits(schedule) == WAITS[..AtMostFive(Losses(schedule))]
    ensures LinkAfter(schedule).attempts == AtMostFive(Losses(schedule))
  {
    if schedule != [] {
      var before, last := schedule[..|schedule| - 1], schedule[|schedule| - 1];
      hide Delay, OnLink, OpenSince, ConnectedSince, CanSend, WAITS;
      var l := LinkAfter(before);
      WaitsDouble(before);
      FlagsExactly(before);
      AttemptsStep(l, last);
      DelayIsCapped(l.attempts + 1);
      if l.attempts < 5 {
        OneMoreWait(l.attempts);
      }
    }
  }

  lemma StaysClosed(st: State, e: Event, id: nat)
    requires Inv(st) && Enabled(st, e) && e != Connect && st.link.closed && !st.link.socket
    ensures var st' := Apply(st, e);
            && st'.link.closed && !st'.link.socket && (e.Call? || st'.nextId == st.nextId)
            && (id in st.promises ==> id in st'.promises && st'.promises[id] == st.promises[id])
            && (e.Call? ==> st.nextId in st'.promises && st'.promises[st.nextId] == Rejected(NotConnected))
  {
    hide Decode;
  }

  lemma Closing(st: State)
    ensures Apply(st, Close).link.closed && !Apply(st, Close).link.socket
  {}

  /**
   A closed transport that nobody connects again opens no socket, whatever timers and socket events still come,
   and every request made after the close is rejected at once.
   */
  lemma {:induction false} CloseIsFinal(schedule: seq<Event>, n: nat, id: nat)
    requires Run(schedule).Some? && n < |schedule| && schedule[n] == Close
    requires forall k :: n < k < |schedule| ==> schedule[k] != Connect
    ensures var l := Run(schedule).value.link; l.closed && !l.socket
    ensures Calls(schedule[..n + 1]) < id <= Calls(schedule) ==>
              id in Run(schedule).value.promises && Run(schedule).value.promises[id] == Rejected(NotConnected)
  {
    hide Apply, Inv, Enabled, OnLink;
    var before, last := schedule[..|schedule| - 1], schedule[|schedule| - 1];
    RunKeepsInv(before);
    LinkAndIds(before);
    if n < |schedule| - 1 {
      assert before[..n + 1] == schedule[..n + 1];
      CloseIsFinal(before, n, id);
      StaysClosed(Run(before).value, last, id);
    } else {
      assert schedule[..n + 1] == schedule;
      Closing(Run(before).value);
    }
  }

  // ---------- Dispatch to type handlers ----------

  function RemoveFirst(hs: seq<nat>, h: nat): (r: seq<nat>)
    ensures |hs| - 1 <= |r| <= |hs|
  {
    if hs == [] then [] else if hs[0] == h then hs[1..] else [hs[0]] + RemoveFirst(hs[1..], h)
  }

  /**
   Calling the handlers of a live list by a growing index. A handler in `leaving` takes itself off the
   list while it is called. Returns the handlers called and the list that remains.
   */
  function DispatchFrom(live: seq<nat>, i: nat, leaving: set<nat>): (seq<nat>, seq<nat>)
    requires i <= |live| + 1
    decreases |live| + 1 - i
  {
    if i >= |live| then ([], live)
    else
      var h := live[i];
      var rest := DispatchFrom(if h in leaving then RemoveFirst(live, h) else live, i + 1, leaving);
      ([h] + rest.0, rest.1)
  }

  method IndexOf(hs: seq<nat>, h: nat) returns (i: int)
    ensures if h in hs then 0 <= i < |hs| && hs[i] == h && h !in hs[..i] else i == -1
  {
    i := 0;
    while i < |hs|
      invariant 0 <= i <= |hs| && h !in hs[..i]
    {
      if hs[i] == h {
        return;
      }
      i := i + 1;
    }
    i := -1;
  }

  lemma {:induction false} RemoveFirstAt(hs: seq<nat>, h: nat, i: nat)
    requires i < |hs| && hs[i] == h && h !in hs[..i]
    ensures RemoveFirst(hs, h) == hs[..i] + hs[i + 1..]
  {
    if i > 0 {
      assert hs[0] in hs[..i];
      assert hs[1..][..i - 1] == hs[..i][1..];
      RemoveFirstAt(hs[1..], h, i - 1);
      assert hs == [hs[0]] + hs[1..];
    }
  }

  lemma {:induction false} RemoveFirstAbsent(hs: seq<nat>, h: nat)
    requires h !in hs
    ensures RemoveFirst(hs, h) == hs
  {
    if hs != [] {
      RemoveFirstAbsent(hs[1..], h);
    }
  }

  method Dispatch(hs: seq<nat>, leaving: set<nat>) returns (called: seq<nat>, live: seq<nat>)
    ensures (called, live) == DispatchFrom(hs, 0, leaving)
  {
    called, live := [], hs;
    var i := 0;
    ghost var whole := DispatchFrom(hs, 0, leaving);
    while i < |live|
      invariant 0 <= i <= |live| + 1
      invariant called + DispatchFrom(live, i, leaving).0 == whole.0 && DispatchFrom(live, i, leaving).1 == whole.1
      decreases |live| + 1 - i
    {
      var h := live[i];
      ghost var next := DispatchFrom(if h in leaving then RemoveFirst(live, h) else live, i + 1, leaving);
      assert called + ([h] + next.0) == (called + [h]) + next.0;
      called := called + [h];
      if h in leaving {
        var at := IndexOf(live, h);
        RemoveFirstAt(live, h, at);
        live := live[..at] + live[at + 1..];
      }
      i := i + 1;
    }
    assert called + [] == called;
  }

  /** A handler that leaves hides the next one from the index. */
  function Called(hs: seq<nat>, leaving: set<nat>): seq<nat> {
    if hs == [] then []
    else if hs[0] in leaving then [hs[0]] + (if |hs| == 1 then [] else Called(hs[2..], leaving))
    else [hs[0]] + Called(hs[1..], leaving)
  }

  lemma {:induction false} RemovedBefore(hs: seq<nat>, h: nat, i: nat)
    requires i < |hs| && hs[i] == h
    ensures |RemoveFirst(hs, h)| == |hs| - 1 && RemoveFirst(hs, h)[i..] == hs[i + 1..]
  {
    if hs[0] != h {
      RemovedBefore(hs[1..], h, i - 1);
      assert RemoveFirst(hs, h)[i..] == RemoveFirst(hs[1..], h)[i - 1..];
    } else {
      assert hs[1..][i..] == hs[i + 1..];
    }
  }

  /**
   What is called from index i on depends only on the handlers from there on: the one that leaves is taken off at or
   before the index, even when a function is registered twice.
   */
  lemma {:induction false} CalledFrom(live: seq<nat>, i: nat, leaving: set<nat>)
    requires i <= |live|
    ensures DispatchFrom(live, i, leaving).0 == Called(live[i..], leaving)
    ensures |DispatchFrom(live, i, leaving).1| + Leavers(live[i..], leaving) == |live|
    decreases |live| - i
  {
    if i < |live| {
      var h := live[i];
      var tail := live[i..];
      assert tail[0] == h && tail[1..] == live[i + 1..];
      if h in leaving {
        var shorter := RemoveFirst(live, h);
        RemovedBefore(live, h, i);
        if i < |shorter| {
          assert shorter[i..][1..] == shorter[i + 1..] == tail[2..];
          CalledFrom(shorter, i + 1, leaving);
        }
      } else {
        CalledFrom(live, i + 1, leaving);
      }
    }
  }

  /** How many of the handlers are called and leave. */
  function Leavers(hs: seq<nat>, leaving: set<nat>): nat {
    if hs == [] then 0
    else if hs[0] in leaving then 1 + (if |hs| == 1 then 0 else Leavers(hs[2..], leaving))
    else Leavers(hs[1..], leaving)
  }

  lemma {:induction false} CalledIsShorter(hs: seq<nat>, leaving: set<nat>)
    ensures |Called(hs, leaving)| <= |hs|
    ensures (exists i :: 0 <= i < |hs| - 1 && hs[i] in leaving) ==> |Called(hs, leaving)| < |hs|
    ensures (forall i :: 0 <= i < |hs| - 1 ==> hs[i] !in leaving) ==> Called(hs, leaving) == hs
    decreases |hs|
  {
    if hs != [] {
      if hs[0] in leaving {
        if |hs| > 1 {
          CalledIsShorter(hs[2..], leaving);
        }
      } else {
        var tail := hs[1..];
        CalledIsShorter(tail, leaving);
        if i :| 0 <= i < |hs| - 1 && hs[i] in leaving {
          assert tail[i - 1] == hs[i];
        }
      }
    }
  }

  /** Every handler of the type is called exactly when none but the last one leaves while being called. */
  lemma AllCalledIff(hs: seq<nat>, leaving: set<nat>)
    ensures DispatchFrom(hs, 0, leaving).0 == hs <==> forall i :: 0 <= i < |hs| - 1 ==> hs[i] !in leaving
  {
    assert hs[0..] == hs;
    CalledFrom(hs, 0, leaving);
    CalledIsShorter(hs, leaving);
  }

  /** An error on channel 0 reaches only every other one of the commands that wait for their result. */
  lemma BroadcastReachesHalf(hs: seq<nat>, leaving: set<nat>)
    requires forall h :: h in hs ==> h in leaving
    ensures var (called, kept) := DispatchFrom(hs, 0, leaving);
            |called| == (|hs| + 1) / 2 && |kept| == |hs| / 2
              && forall k :: 0 <= k < |called| ==> called[k] == hs[2 * k]
  {
    assert hs[0..] == hs;
    CalledFrom(hs, 0, leaving);
    EveryOther(hs, leaving);
  }

  lemma {:induction false} EveryOther(hs: seq<nat>, leaving: set<nat>)
    requires forall h :: h in hs ==> h in leaving
    ensures |Called(hs, leaving)| == Leavers(hs, leaving) == (|hs| + 1) / 2
    ensures forall k :: 0 <= k < |Called(hs, leaving)| ==> Called(hs, leaving)[k] == hs[2 * k]
    decreases |hs|
  {
    if |hs| > 1 {
      EveryOther(hs[2..], leaving);
      assert Called(hs, leaving) == [hs[0]] + Called(hs[2..], leaving);
      forall k | 0 <= k < |Called(hs, leaving)| ensures Called(hs, leaving)[k] == hs[2 * k] {
        if k > 0 {
          assert Called(hs[2..], leaving)[k - 1] == hs[2..][2 * (k - 1)];
        }
      }
    }
  }
}
