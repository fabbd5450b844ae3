/** The sandbox registry, its expiry, and how it is rebuilt from the cluster's pods when the agent restarts. */
module Recovery {
  import opened Wrappers
  import opened Text
  import opened Annotations
  import opened Integers
  import PoolKeys
  import WarmPool

  // ---------- The registry ----------

  datatype Status = Starting | Running | Stopping | Stopped

  /** Times and durations count nanoseconds; a time of 0 is Go's zero time. */
  datatype Sandbox = Sandbox(id: string, status: Status, template: string, ports: seq<int64>, gui: bool,
                             env: map<string, string>, metadata: map<string, string>, capabilities: seq<string>,
                             createdAt: int, expiresAt: int, podIP: string)

  const HOUR := 3_600_000_000_000

  predicate IsExpired(sbx: Sandbox, now: int) {
    now > sbx.expiresAt && sbx.status != Stopped
  }

  function Expired(sandboxes: map<string, Sandbox>, now: int): set<string> {
    set id | id in sandboxes && IsExpired(sandboxes[id], now)
  }

  /** What the API, the watch and the expiry loop do to the registry. */
  datatype Op =
    | Created(sbx: Sandbox)
    | Extended(id: string, duration: int, now: int)
    | Marked(id: string, status: Status)
    | Addressed(id: string, ip: string)
    | Removed(id: string)
    | Ticked(now: int)

  function RegistryAfter(sandboxes: map<string, Sandbox>, op: Op): map<string, Sandbox> {
    match op
    case Created(sbx) => sandboxes[sbx.id := sbx]
    case Extended(id, duration, now) =>
      if id in sandboxes then sandboxes[id := sandboxes[id].(expiresAt := now + duration)] else sandboxes
    case Marked(id, status) => if id in sandboxes then sandboxes[id := sandboxes[id].(status := status)] else sandboxes
    case Addressed(id, ip) => if id in sandboxes then sandboxes[id := sandboxes[id].(podIP := ip)] else sandboxes
    case Removed(id) => sandboxes - {id}
    case Ticked(now) => sandboxes - Expired(sandboxes, now)
  }

  function Registered(rs: RecoveredSandbox, now: int): Sandbox {
    Sandbox(rs.id, if rs.ready then Running else Starting, rs.template, rs.ports, rs.gui, rs.env, rs.metadata,
            rs.capabilities, if rs.createdAt == 0 then now else rs.createdAt,
            if rs.expiresAt == 0 then now + HOUR else rs.expiresAt, rs.podIP)
  }

  class Manager {
    var sandboxes: map<string, Sandbox>

    constructor ()
      ensures sandboxes == map[]
    {
      sandboxes := map[];
    }

    /** The id is drawn at random, the time is the clock's. */
    method Create(id: string, now: int, template: string, timeout: int, ports: seq<int64>, gui: bool,
                  env: map<string, string>, metadata: map<string, string>, capabilities: seq<string>) returns (sbx: Sandbox)
      modifies this
      ensures sbx == Sandbox(id, Starting, template, ports, gui, env, metadata, capabilities, now, now + timeout, "")
      ensures sandboxes == old(sandboxes)[id := sbx] == RegistryAfter(old(sandboxes), Created(sbx))
    {
      sbx := Sandbox(id, Starting, template, ports, gui, env, metadata, capabilities, now, now + timeout, "");
      sandboxes := sandboxes[id := sbx];
    }

    method SetStatus(id: string, status: Status)
      modifies this
      ensures sandboxes == if id in old(sandboxes) then old(sandboxes)[id := old(sandboxes)[id].(status := status)]
                           else old(sandboxes)
      ensures sandboxes == RegistryAfter(old(sandboxes), Marked(id, status))
    {
      if id in sandboxes {
        sandboxes := sandboxes[id := sandboxes[id].(status := status)];
      }
    }

    method SetPodIP(id: string, ip: string)
      modifies this
      ensures sandboxes == if id in old(sandboxes) then old(sandboxes)[id := old(sandboxes)[id].(podIP := ip)]
                           else old(sandboxes)
      ensures sandboxes == RegistryAfter(old(sandboxes), Addressed(id, ip))
    {
      if id in sandboxes {
        sandboxes := sandboxes[id := sandboxes[id].(podIP := ip)];
      }
    }

    method Remove(id: string)
      modifies this
      ensures sandboxes == old(sandboxes) - {id} == RegistryAfter(old(sandboxes), Removed(id))
    {
      sandboxes := sandboxes - {id};
    }

    method ExtendTimeout(id: string, duration: int, now: int) returns (ok: bool)
      modifies this
      ensures ok == (id in old(sandboxes))
      ensures sandboxes == if ok then old(sandboxes)[id := old(sandboxes)[id].(expiresAt := now + duration)]
                           else old(sandboxes)
      ensures sandboxes == RegistryAfter(old(sandboxes), Extended(id, duration, now))
    {
      if id !in sandboxes {
        return false;
      }
      sandboxes := sandboxes[id := sandboxes[id].(expiresAt := now + duration)];
      return true;
    }

    /** The expired ids, each once, in an order the source leaves open. */
    method GetExpired(now: int) returns (expired: seq<string>)
      ensures Elements(expired) == Expired(sandboxes, now) && NoRepeats(expired)
      ensures forall id :: id in expired <==>
                id in sandboxes && now > sandboxes[id].expiresAt && sandboxes[id].status != Stopped
    {
      expired := [];
      var left := sandboxes.Keys;
      ghost var visited: set<string> := {};
      while left != {}
        invariant left !! visited && left + visited == sandboxes.Keys
        invariant NoRepeats(expired)
        invariant Elements(expired) == set id | id in visited && IsExpired(sandboxes[id], now)
      {
        var id :| id in left;
        assert id in expired <==> id in Elements(expired);
        if now > sandboxes[id].expiresAt && sandboxes[id].status != Stopped {
          ElementsAppend(expired, id);
          expired := expired + [id];
        }
        left, visited := left - {id}, visited + {id};
      }
      assert visited == sandboxes.Keys;
      assert forall id :: id in expired <==> id in Elements(expired);
    }

    method Recover(rs: RecoveredSandbox, now: int)
      modifies this
      ensures sandboxes == old(sandboxes)[rs.id := Registered(rs, now)]
      ensures sandboxes[rs.id] ==
              Sandbox(rs.id, if rs.ready then Running else Starting, rs.template, rs.ports, rs.gui, rs.env, rs.metadata,
                      rs.capabilities, if rs.createdAt == 0 then now else rs.createdAt,
                      if rs.expiresAt == 0 then now + 3_600_000_000_000 else rs.expiresAt, rs.podIP)
    {
      var status := Starting;
      if rs.ready {
        status := Running;
      }
      var createdAt, expiresAt := rs.createdAt, rs.expiresAt;
      if createdAt == 0 {
        createdAt := now;
      }
      if expiresAt == 0 {
        expiresAt := now + HOUR;
      }
      var sbx := Sandbox(rs.id, status, rs.template, rs.ports, rs.gui, rs.env, rs.metadata, rs.capabilities,
                         createdAt, expiresAt, rs.podIP);
      sandboxes := sandboxes[rs.id := sbx];
    }
  }

  // ---------- Expiry ----------

  const GRACE := 30_000_000_000

  class Reaper {
    const manager: Manager
    /** Pods whose deletion failed, and when. */
    var pendingDeletes: map<string, int>

    constructor (manager: Manager)
      ensures this.manager == manager && pendingDeletes == map[]
    {
      this.manager, pendingDeletes := manager, map[];
    }

    /**
     One tick: pods stuck for longer than the grace period are deleted by force, and every expired sandbox leaves the
     registry, its pod deleted or, if that fails, put down for a later tick.
     */
    method Tick(now: int, deletes: string -> bool) returns (forced: seq<string>)
      modifies this, manager
      ensures manager.sandboxes == RegistryAfter(old(manager.sandboxes), Ticked(now))
      ensures forall id :: id in manager.sandboxes <==>
                id in old(manager.sandboxes) &&
                (now <= old(manager.sandboxes)[id].expiresAt || old(manager.sandboxes)[id].status == Stopped)
      ensures forall id :: id in manager.sandboxes ==> manager.sandboxes[id] == old(manager.sandboxes)[id]
      ensures NoRepeats(forced) && Elements(forced) == Stuck(old(pendingDeletes), now)
      ensures pendingDeletes == AfterTick(old(pendingDeletes), Expired(old(manager.sandboxes), now), now, deletes)
      ensures forall id :: id in pendingDeletes <==>
                (id in old(manager.sandboxes) && id !in manager.sandboxes && !deletes(id)) ||
                (id in old(pendingDeletes) && now - old(pendingDeletes)[id] <= 30_000_000_000)
      ensures forall id :: id in pendingDeletes ==>
                var reaped := id in old(manager.sandboxes) && id !in manager.sandboxes;
                pendingDeletes[id] == if reaped && !deletes(id) then now else old(pendingDeletes)[id]
    {
      hide *;
      forced := ForceStuck(now);
      var expired := manager.GetExpired(now);
      ghost var were, pending := manager.sandboxes, pendingDeletes;
      NoneYet(were, pending, now, deletes);
      for i := 0 to |expired|
        invariant manager.sandboxes == were - Elements(expired[..i])
        invariant pendingDeletes == Failing(pending, Elements(expired[..i]), now, deletes)
      {
        var id := expired[i];
        ElementsAppend(expired[..i], id);
        assert expired[..i + 1] == expired[..i] + [id];
        OneMore(were, pending, Elements(expired[..i]), id, now, deletes);
        if id in manager.sandboxes {
          SetThenGone(manager.sandboxes, id, manager.sandboxes[id].(status := Stopping));
        }
        manager.SetStatus(id, Stopping);
        if !deletes(id) {
          pendingDeletes := pendingDeletes[id := now];
        }
        manager.Remove(id);
      }
      assert expired[..|expired|] == expired;
      TickIs(were, now);
      AfterTickIs(old(pendingDeletes), were, now, deletes);
    }

    method ForceStuck(now: int) returns (forced: seq<string>)
      modifies this
      ensures NoRepeats(forced) && Elements(forced) == Stuck(old(pendingDeletes), now)
      ensures pendingDeletes == old(pendingDeletes) - Stuck(old(pendingDeletes), now)
    {
      forced := [];
      var left := pendingDeletes.Keys;
      ghost var visited: set<string> := {};
      while left != {}
        invariant left !! visited && left + visited == old(pendingDeletes).Keys
        invariant NoRepeats(forced)
        invariant Elements(forced) == Stuck(old(pendingDeletes), now) * visited
        invariant pendingDeletes == old(pendingDeletes) - Elements(forced)
      {
        var id :| id in left;
        assert id in forced <==> id in Elements(forced);
        if now - pendingDeletes[id] > GRACE {
          ElementsAppend(forced, id);
          forced := forced + [id];
          pendingDeletes := pendingDeletes - {id};
        }
        left, visited := left - {id}, visited + {id};
      }
      assert visited == old(pendingDeletes).Keys;
    }
  }

  function Stuck(pending: map<string, int>, now: int): set<string> {
    set id | id in pending && now - pending[id] > GRACE
  }

  function Failing(pending: map<string, int>, ids: set<string>, now: int, deletes: string -> bool): map<string, int> {
    pending + map id | id in ids && !deletes(id) :: now
  }

  function AfterTick(pending: map<string, int>, expired: set<string>, now: int, deletes: string -> bool): map<string, int> {
    Failing(pending - Stuck(pending, now), expired, now, deletes)
  }

  lemma NoneYet(were: map<string, Sandbox>, pending: map<string, int>, now: int, deletes: string -> bool)
    ensures Elements([]) == {} && were - {} == were && Failing(pending, {}, now, deletes) == pending
  {}

  lemma OneMore(were: map<string, Sandbox>, pending: map<string, int>, ids: set<string>, id: string, now: int,
                deletes: string -> bool)
    ensures were - (ids + {id}) == were - ids - {id}
    ensures Failing(pending, ids + {id}, now, deletes) ==
            if deletes(id) then Failing(pending, ids, now, deletes) else Failing(pending, ids, now, deletes)[id := now]
  {}

  lemma SetThenGone(m: map<string, Sandbox>, id: string, sbx: Sandbox)
    ensures m[id := sbx] - {id} == m - {id}
  {}

  lemma TickIs(were: map<string, Sandbox>, now: int)
    ensures var left := were - Expired(were, now);
            && left == RegistryAfter(were, Ticked(now))
            && (forall id :: id in left <==> id in were && (now <= were[id].expiresAt || were[id].status == Stopped))
            && forall id :: id in left ==> left[id] == were[id]
  {}

  lemma AfterTickIs(pending: map<string, int>, were: map<string, Sandbox>, now: int, deletes: string -> bool)
    ensures var after := AfterTick(pending, Expired(were, now), now, deletes);
            var left := RegistryAfter(were, Ticked(now));
            && after == Failing(pending - Stuck(pending, now), Expired(were, now), now, deletes)
            && (forall id :: id in after <==>
                  (id in were && id !in left && !deletes(id)) || (id in pending && now - pending[id] <= 30_000_000_000))
            && (forall id :: id in after ==>
                  after[id] == if id in were && id !in left && !deletes(id) then now else pending[id])
  {}

  datatype TickOf = TickOf(now: int, expired: set<string>, deletes: string -> bool)

  function AfterTicks(pending: map<string, int>, ticks: seq<TickOf>): map<string, int> {
    if ticks == [] then pending
    else
      var last := ticks[|ticks| - 1];
      AfterTick(AfterTicks(pending, ticks[..|ticks| - 1]), last.expired, last.now, last.deletes)
  }

  /** A failed deletion stays put down, with its time, until the first tick past the grace period forces it. */
  lemma {:induction false} PendingUntilForced(pending: map<string, int>, ticks: seq<TickOf>, id: string)
    requires id in pending && forall k :: 0 <= k < |ticks| ==> id !in ticks[k].expired
    ensures id in AfterTicks(pending, ticks) <==>
            forall k :: 0 <= k < |ticks| ==> ticks[k].now - pending[id] <= 30_000_000_000
    ensures id in AfterTicks(pending, ticks) ==> AfterTicks(pending, ticks)[id] == pending[id]
  {
    if ticks != [] {
      var before, last := ticks[..|ticks| - 1], ticks[|ticks| - 1];
      PendingUntilForced(pending, before, id);
      assert forall k :: 0 <= k < |before| ==> before[k] == ticks[k];
    }
  }

  // ---------- How long a sandbox lives ----------

  function RunRegistry(ops: seq<Op>): map<string, Sandbox> {
    if ops == [] then map[] else RegistryAfter(RunRegistry(ops[..|ops| - 1]), ops[|ops| - 1])
  }

  /** The expiry of a sandbox since its creation at step n: that of the last extension, or the first one. */
  function ExpiryAt(ops: seq<Op>, n: nat, id: string): int
    requires n < |ops| && ops[n].Created?
  {
    var last := |ops| - 1;
    if n == last then ops[n].sbx.expiresAt
    else if ops[last].Extended? && ops[last].id == id then ops[last].now + ops[last].duration
    else ExpiryAt(ops[..last], n, id)
  }

  /** Nothing but extensions and ticks bears on how long it lives. */
  predicate LeavesAlone(op: Op, id: string) {
    match op
    case Created(sbx) => sbx.id != id
    case Removed(other) => other != id
    case Marked(other, status) => other != id || status != Stopped
    case _ => true
  }

  /** The k-th step is a tick later than the expiry the sandbox has by then. */
  predicate LateTick(ops: seq<Op>, n: nat, k: nat, id: string)
    requires n < |ops| && ops[n].Created?
  {
    n < k < |ops| && ops[k].Ticked? && ops[k].now > ExpiryAt(ops[..k], n, id)
  }

  /**
   In every run a sandbox that was created, and is neither stopped, removed nor created anew, is registered exactly as long
   as no tick has come that is later than its expiry at that moment; till then it has that expiry.
   */
  lemma {:induction false} LivesUntilLateTick(ops: seq<Op>, n: nat, id: string)
    requires n < |ops| && ops[n].Created? && ops[n].sbx.id == id && ops[n].sbx.status != Stopped
    requires forall k :: n < k < |ops| ==> LeavesAlone(ops[k], id)
    ensures id in RunRegistry(ops) <==> forall k :: n < k < |ops| ==> !LateTick(ops, n, k, id)
    ensures id in RunRegistry(ops) ==>
              RunRegistry(ops)[id].expiresAt == ExpiryAt(ops, n, id) && RunRegistry(ops)[id].status != Stopped
  {
    var last := |ops| - 1;
    if n < last {
      var before := ops[..last];
      assert forall k :: 0 <= k < last ==> before[k] == ops[k];
      LivesUntilLateTick(before, n, id);
      forall k | n < k < last ensures LateTick(before, n, k, id) <==> LateTick(ops, n, k, id) {
        assert before[..k] == ops[..k];
      }
      hide RunRegistry, ExpiryAt, LateTick;
      OneMoreOp(ops, n, id);
    }
  }

  lemma OneMoreOp(ops: seq<Op>, n: nat, id: string)
    requires n < |ops| - 1 && ops[n].Created? && LeavesAlone(ops[|ops| - 1], id)
    requires var reg := RunRegistry(ops[..|ops| - 1]);
             id in reg ==> reg[id].expiresAt == ExpiryAt(ops[..|ops| - 1], n, id) && reg[id].status != Stopped
    ensures var before, after := RunRegistry(ops[..|ops| - 1]), RunRegistry(ops);
            && (id in after <==> id in before && !LateTick(ops, n, |ops| - 1, id))
            && (id in after ==> after[id].expiresAt == ExpiryAt(ops, n, id) && after[id].status != Stopped)
  {}

  // ---------- Pods ----------

  datatype Pod = Pod(labels: map<string, string>, annotations: map<string, string>, name: string, podIP: string, ready: bool)

  datatype RecoveredSandbox =
    RecoveredSandbox(id: string, template: string, podIP: string, ready: bool, metadata: map<string, string>,
                     env: map<string, string>, ports: seq<int64>, gui: bool, capabilities: seq<string>,
                     createdAt: int, expiresAt: int)

  function Label(pod: Pod, key: string): string {
    At(pod.labels, key)
  }

  function IdOf(pod: Pod): string {
    Label(pod, PoolKeys.ID_LABEL)
  }

  /** Not a stranger's pod and not one the warm pool owns. */
  predicate IsSandboxPod(pod: Pod) {
    IdOf(pod) != "" && !(WarmPool.WARM_PREFIX <= IdOf(pod))
  }

  function SandboxPods(items: seq<Pod>): seq<Pod> {
    if items == [] then []
    else
      var before, last := SandboxPods(items[..|items| - 1]), items[|items| - 1];
      if IsSandboxPod(last) then before + [last] else before
  }

  /** The capabilities of the annotation or, if it has none, those the labels list. */
  ghost predicate RecoversCapabilities(lib: Library, pod: Pod, caps: seq<string>) {
    var written := Decoded(lib, pod.annotations).capabilities;
    if written != [] then caps == written else Lists(caps, PoolKeys.CapsIn(pod.labels.Keys))
  }

  ghost predicate Recovers(lib: Library, pod: Pod, rs: RecoveredSandbox) {
    var ann := Decoded(lib, pod.annotations);
    && RecoversCapabilities(lib, pod, rs.capabilities)
    && rs == RecoveredSandbox(IdOf(pod), Label(pod, PoolKeys.TEMPLATE_LABEL), pod.podIP, pod.ready, ann.metadata,
                              ann.env, ann.ports, ann.gui, rs.capabilities, ann.createdAt, ann.expiresAt)
  }

  ghost predicate RecoversAll(lib: Library, pods: seq<Pod>, recovered: seq<RecoveredSandbox>) {
    |recovered| == |pods| && forall i :: 0 <= i < |pods| ==> Recovers(lib, pods[i], recovered[i])
  }

  function InfoOf(pod: Pod, rs: RecoveredSandbox): WarmPool.PodInfo {
    WarmPool.PodInfo(rs.id, pod.name, pod.podIP, pod.ready, rs.template, rs.capabilities)
  }

  function Cached(pods: map<string, WarmPool.PodInfo>, items: seq<Pod>, recovered: seq<RecoveredSandbox>)
    : map<string, WarmPool.PodInfo>
    requires |items| == |recovered|
  {
    if items == [] then pods
    else
      var n := |items| - 1;
      Cached(pods, items[..n], recovered[..n])[recovered[n].id := InfoOf(items[n], recovered[n])]
  }

  /** Every pod of its own id is cached as it was listed, over whatever was cached under that id. */
  lemma {:induction false} CacheHoldsPods(lib: Library, pods: map<string, WarmPool.PodInfo>, items: seq<Pod>,
                                          recovered: seq<RecoveredSandbox>, i: nat)
    requires RecoversAll(lib, items, recovered) && i < |items|
    requires forall j :: i < j < |items| ==> IdOf(items[j]) != IdOf(items[i])
    ensures var cached, pod := Cached(pods, items, recovered), items[i];
            && IdOf(pod) in cached
            && var info := cached[IdOf(pod)];
               && info.sandboxId == IdOf(pod) && info.podName == pod.name && info.podIP == pod.podIP
               && info.ready == pod.ready && info.template == Label(pod, PoolKeys.TEMPLATE_LABEL)
               && info.capabilities == recovered[i].capabilities
  {
    hide IdOf, Label, RecoversCapabilities, Decoded;
    var n := |items| - 1;
    assert Recovers(lib, items[n], recovered[n]);
    if i < n {
      CacheHoldsPods(lib, pods, items[..n], recovered[..n], i);
      assert IdOf(items[n]) != IdOf(items[i]);
    }
  }

  method RecoverExistingPods(pm: WarmPool.PodManager, lib: Library, items: seq<Pod>)
    returns (recovered: seq<RecoveredSandbox>)
    modifies pm
    ensures RecoversAll(lib, SandboxPods(items), recovered)
    ensures pm.pods == Cached(old(pm.pods), SandboxPods(items), recovered)
  {
    hide *;
    recovered := [];
    NothingRecovered(lib, pm.pods);
    assert items[..0] == [];
    for i := 0 to |items|
      invariant RecoversAll(lib, SandboxPods(items[..i]), recovered)
      invariant |SandboxPods(items[..i])| == |recovered|
      invariant pm.pods == Cached(old(pm.pods), SandboxPods(items[..i]), recovered)
    {
      var pod := items[i];
      assert items[..i + 1] == items[..i] + [pod];
      PodsMore(items[..i], pod);
      var rs := RecoverPod(lib, pod);
      if rs.Some? {
        RecoversMore(lib, old(pm.pods), SandboxPods(items[..i]), recovered, pod, rs.value);
        pm.pods := pm.pods[rs.value.id := InfoOf(pod, rs.value)];
        recovered := recovered + [rs.value];
      }
    }
    assert items[..|items|] == items;
  }

  lemma NothingRecovered(lib: Library, pods: map<string, WarmPool.PodInfo>)
    ensures SandboxPods([]) == [] && RecoversAll(lib, [], []) && Cached(pods, [], []) == pods
  {}

  lemma PodsMore(items: seq<Pod>, pod: Pod)
    ensures SandboxPods(items + [pod]) == if IsSandboxPod(pod) then SandboxPods(items) + [pod] else SandboxPods(items)
  {
    assert (items + [pod])[..|items|] == items;
  }

  lemma RecoversMore(lib: Library, before: map<string, WarmPool.PodInfo>, kept: seq<Pod>, recovered: seq<RecoveredSandbox>,
                     pod: Pod, rs: RecoveredSandbox)
    requires RecoversAll(lib, kept, recovered) && Recovers(lib, pod, rs)
    ensures |kept| == |recovered| && RecoversAll(lib, kept + [pod], recovered + [rs])
    ensures Cached(before, kept + [pod], recovered + [rs]) == Cached(before, kept, recovered)[rs.id := InfoOf(pod, rs)]
  {
    hide Recovers;
    assert (kept + [pod])[..|kept|] == kept && (recovered + [rs])[..|kept|] == recovered;
  }

  /** One pod's turn; None for a pod that is skipped. */
  method RecoverPod(lib: Library, pod: Pod) returns (rs: Option<RecoveredSandbox>)
    ensures rs.Some? <==> IsSandboxPod(pod)
    ensures rs.Some? ==> Recovers(lib, pod, rs.value)
  {
    hide Decoded, Lists;
    var sandboxId, template := At(pod.labels, PoolKeys.ID_LABEL), At(pod.labels, PoolKeys.TEMPLATE_LABEL);
    if sandboxId == "" || WarmPool.WARM_PREFIX <= sandboxId {
      return None;
    }
    var ann := Decode(lib, pod.annotations);
    var capabilities := ann.capabilities;
    if |capabilities| == 0 {
      capabilities := PoolKeys.CapabilitiesFromLabels(pod.labels);
    }
    return Some(RecoveredSandbox(sandboxId, template, pod.podIP, pod.ready, ann.metadata, ann.env, ann.ports, ann.gui,
                                 capabilities, ann.createdAt, ann.expiresAt));
  }

  /** The agent's default for a pod without an expiry. */
  function WithExpiry(rs: RecoveredSandbox, now: int, defaultTimeout: int): RecoveredSandbox {
    if rs.expiresAt == 0 then rs.(expiresAt := now + defaultTimeout) else rs
  }

  /** What a restart makes of times a pod does not carry. */
  lemma MissingTimesAreFilled(rs: RecoveredSandbox, now: int, defaultTimeout: int)
    requires now + defaultTimeout != 0
    ensures var sbx := Registered(WithExpiry(rs, now, defaultTimeout), now);
            && sbx.expiresAt == (if rs.expiresAt == 0 then now + defaultTimeout else rs.expiresAt)
            && sbx.createdAt == (if rs.createdAt == 0 then now else rs.createdAt)
  {}

  function RegisteredAll(recovered: seq<RecoveredSandbox>, now: int, defaultTimeout: int): map<string, Sandbox> {
    if recovered == [] then map[]
    else
      var before, rs := recovered[..|recovered| - 1], recovered[|recovered| - 1];
      RegisteredAll(before, now, defaultTimeout)[rs.id := Registered(WithExpiry(rs, now, defaultTimeout), now)]
  }

  /** The sidecars to connect to: those of the ready pods with an address. */
  function ToConnect(recovered: seq<RecoveredSandbox>): seq<(string, string)> {
    if recovered == [] then []
    else
      var before, rs := ToConnect(recovered[..|recovered| - 1]), recovered[|recovered| - 1];
      if rs.ready && rs.podIP != "" then before + [(rs.id, rs.podIP)] else before
  }

  /** The agent's start: a registry from the pods the cluster lists; an empty one if listing them fails. */
  method Restart(pm: WarmPool.PodManager, lib: Library, listed: Option<seq<Pod>>, now: int, defaultTimeout: int)
    returns (manager: Manager, tried: seq<(string, string)>, ghost recovered: seq<RecoveredSandbox>)
    modifies pm
    ensures listed.None? ==> recovered == [] && pm.pods == old(pm.pods)
    ensures listed.Some? ==> RecoversAll(lib, SandboxPods(listed.value), recovered)
    ensures manager.sandboxes == RegisteredAll(recovered, now, defaultTimeout) && tried == ToConnect(recovered)
  {
    hide RecoversAll;
    manager := new Manager();
    tried, recovered := [], [];
    if listed.None? {
      return;
    }
    var found := RecoverExistingPods(pm, lib, listed.value);
    recovered := found;
    for i := 0 to |found|
      invariant manager.sandboxes == RegisteredAll(found[..i], now, defaultTimeout) && tried == ToConnect(found[..i])
    {
      assert found[..i + 1][..i] == found[..i];
      var rs := found[i];
      manager.Recover(WithExpiry(rs, now, defaultTimeout), now);
      if rs.ready && rs.podIP != "" {
        tried := tried + [(rs.id, rs.podIP)];
      }
    }
    assert found[..|found|] == found;
  }

  // ---------- What survives a restart ----------

  function AnnOf(sbx: Sandbox): Ann {
    Ann(sbx.metadata, sbx.env, sbx.ports, sbx.gui, sbx.capabilities, sbx.createdAt, sbx.expiresAt)
  }

  /** The pod CreatePod makes for a sandbox, some time later: the cluster keeps labels and annotations. */
  ghost predicate IsPodOf(lib: Library, pod: Pod, sbx: Sandbox) {
    && pod.labels == PoolKeys.LabelsOf(sbx.id, sbx.template, sbx.capabilities)
    && Encodes(lib, AnnOf(sbx), pod.annotations)
  }

  /** The sandbox as the cluster shows it now. */
  function AsSeen(sbx: Sandbox, pod: Pod): Sandbox {
    sbx.(status := if pod.ready then Running else Starting, podIP := pod.podIP)
  }

  /** Only separators and white space, so that nothing of it is left in the annotation. */
  predicate IsBlank(c: string) {
    forall ch :: ch in c ==> ch == ',' || IsSpace(ch)
  }

  /** Capability lists that come back: from the annotation, or all of them from the labels. */
  predicate CapabilitiesSurvive(caps: seq<string>) {
    (forall c :: c in caps ==> Survives(c)) || ((forall c :: c in caps ==> IsBlank(c)) && StrictlySorted(caps))
  }

  lemma {:induction false} TrimBlank(s: string)
    ensures Trim(s) == "" <==> forall ch :: ch in s ==> IsSpace(ch)
  {
    TrimLeftBlank(s);
    var t := TrimLeft(s);
    TrimLeftStart(s);
    TrimRightKeepsStart(t);
    if t != "" {
      TrimRightStart(t);
    }
  }

  lemma {:induction false} TrimLeftBlank(s: string)
    ensures TrimLeft(s) == "" <==> forall ch :: ch in s ==> IsSpace(ch)
  {
    if s != "" && IsSpace(s[0]) {
      TrimLeftBlank(s[1..]);
      assert s == [s[0]] + s[1..];
    }
  }

  lemma {:induction false} TrimRightStart(s: string)
    requires s != "" && !IsSpace(s[0])
    ensures TrimRight(s) != ""
  {
    if IsSpace(s[|s| - 1]) {
      TrimRightStart(s[..|s| - 1]);
    }
  }

  lemma {:induction false} BlankParts(s: string)
    ensures (forall p :: p in Split(s, ',') ==> Trim(p) == "") <==> IsBlank(s)
  {
    hide Trim;
    if s == "" {
      TrimBlank("");
      assert forall p :: p in Split(s, ',') ==> p == "";
    } else {
      var rest := Split(s[1..], ',');
      BlankParts(s[1..]);
      assert s == [s[0]] + s[1..];
      if s[0] == ',' {
        TrimBlank("");
        assert Split(s, ',') == [""] + rest;
      } else {
        var first := [s[0]] + rest[0];
        assert Split(s, ',') == [first] + rest[1..] && rest == [rest[0]] + rest[1..];
        TrimBlank(first);
        TrimBlank(rest[0]);
        assert first[0] in first;
      }
    }
  }

  lemma {:induction false} TrimAllBlank(parts: seq<string>)
    ensures TrimAll(parts) == [] <==> forall p :: p in parts ==> Trim(p) == ""
  {
    hide Trim;
    if parts != [] {
      TrimAllBlank(parts[..|parts| - 1]);
      assert parts == parts[..|parts| - 1] + [parts[|parts| - 1]];
    }
  }

  lemma {:induction false} JoinBlank(parts: seq<string>)
    ensures IsBlank(Join(parts, ',')) <==> forall p :: p in parts ==> IsBlank(p)
  {
    hide IsBlank;
    if |parts| > 1 {
      JoinBlank(parts[1..]);
      assert parts == [parts[0]] + parts[1..];
      BlankPieces(parts[0], Join(parts[1..], ','));
    } else if |parts| == 1 {
      assert parts[0] in parts;
    } else {
      EmptyIsBlank();
    }
  }

  lemma BlankPieces(a: string, b: string)
    ensures IsBlank(a + [','] + b) <==> IsBlank(a) && IsBlank(b)
  {
    assert forall ch :: ch in a + [','] + b <==> ch in a || ch == ',' || ch in b;
  }

  /** Exactly these lists are read back as they were. */
  lemma CapabilitiesComeBack(lib: Library, pod: Pod, sbx: Sandbox, caps: seq<string>)
    requires Promises(lib) && IsPodOf(lib, pod, sbx) && RecoversCapabilities(lib, pod, caps)
    ensures caps == sbx.capabilities <==> CapabilitiesSurvive(sbx.capabilities)
  {
    hide Encodes, Join, Split, TrimAll, Trim, Survives, IsBlank, Promises;
    var mine, written := sbx.capabilities, Decoded(lib, pod.annotations).capabilities;
    CapabilitiesBack(lib, AnnOf(sbx), pod.annotations);
    PoolKeys.LabelsCarryCaps(sbx.id, sbx.template, mine);
    WrittenIsBlank(lib, pod, sbx);
    if written == [] {
      if StrictlySorted(mine) {
        ListIsUnique(caps, mine, Elements(mine));
      }
      if (forall c :: c in mine ==> Survives(c)) {
        assert mine == [];
      }
    } else if mine != [] && (forall c :: c in mine ==> IsBlank(c)) {
      assert false;
    }
  }

  lemma WrittenIsBlank(lib: Library, pod: Pod, sbx: Sandbox)
    requires Encodes(lib, AnnOf(sbx), pod.annotations)
    ensures Decoded(lib, pod.annotations).capabilities == [] <==> forall c :: c in sbx.capabilities ==> IsBlank(c)
  {
    hide IsBlank, TrimAll, Split, Trim;
    var mine := sbx.capabilities;
    var text := Join(mine, ',');
    BlankParts(text);
    TrimAllBlank(Split(text, ','));
    JoinBlank(mine);
    if mine != [] && text == "" {
      assert mine[0] == "";
      EmptyIsBlank();
    }
  }

  lemma EmptyIsBlank()
    ensures IsBlank("")
  {}

  /**
   A sandbox given its own pod is restored exactly when its capability list survives: the same ports, GUI flag,
   environment, metadata, capabilities, creation and expiry times, with status and address as the cluster shows them.
   */
  lemma RestoredExactly(lib: Library, pod: Pod, sbx: Sandbox, rs: RecoveredSandbox, now: int, defaultTimeout: int)
    requires Promises(lib) && IsPodOf(lib, pod, sbx) && Recovers(lib, pod, rs)
    requires sbx.createdAt != 0 && sbx.expiresAt != 0
    ensures Registered(WithExpiry(rs, now, defaultTimeout), now) == AsSeen(sbx, pod) <==>
            CapabilitiesSurvive(sbx.capabilities)
    ensures rs.id == sbx.id && rs.expiresAt == sbx.expiresAt
  {
    hide Decoded, Encodes, Promises, Lists, CapabilitiesSurvive, PoolKeys.LabelsOf;
    AnnotationsRoundTrip(lib, AnnOf(sbx), pod.annotations);
    PoolKeys.LabelsCarryCaps(sbx.id, sbx.template, sbx.capabilities);
    CapabilitiesComeBack(lib, pod, sbx, rs.capabilities);
  }

  /** The cluster holds a pod for each registered sandbox, and no other sandbox pod. */
  ghost predicate InSync(lib: Library, sandboxes: map<string, Sandbox>, pods: seq<Pod>) {
    && (forall i, j :: 0 <= i < j < |pods| ==> IdOf(pods[i]) != IdOf(pods[j]))
    && (forall pod :: pod in pods ==> IdOf(pod) in sandboxes && IsPodOf(lib, pod, sandboxes[IdOf(pod)]))
    && (forall id :: id in sandboxes ==> exists pod :: pod in pods && IdOf(pod) == id)
  }

  ghost predicate CanBeRestored(sandboxes: map<string, Sandbox>) {
    forall id :: id in sandboxes ==>
      var sbx := sandboxes[id];
      sbx.createdAt != 0 && sbx.expiresAt != 0 && CapabilitiesSurvive(sbx.capabilities)
  }

  lemma {:induction false} RegisteredAt(recovered: seq<RecoveredSandbox>, i: nat, now: int, defaultTimeout: int)
    requires forall j, k :: 0 <= j < k < |recovered| ==> recovered[j].id != recovered[k].id
    requires i < |recovered|
    ensures var after := RegisteredAll(recovered, now, defaultTimeout); var id := recovered[i].id;
            id in after && after[id] == Registered(WithExpiry(recovered[i], now, defaultTimeout), now)
  {
    hide Registered, WithExpiry;
    var n := |recovered| - 1;
    if i < n {
      RegisteredAt(recovered[..n], i, now, defaultTimeout);
      assert recovered[i].id != recovered[n].id;
    }
  }

  /**
   A restart loses nothing: whatever pods of other kinds the cluster lists, and in whatever order, the new registry
   holds exactly the sandboxes of the old one, each as it was but for the status and address the cluster shows.
   */
  lemma RestartIsLossless(lib: Library, before: map<string, Sandbox>, items: seq<Pod>, recovered: seq<RecoveredSandbox>,
                          now: int, defaultTimeout: int)
    requires Promises(lib) && InSync(lib, before, SandboxPods(items)) && CanBeRestored(before)
    requires RecoversAll(lib, SandboxPods(items), recovered)
    ensures var after := RegisteredAll(recovered, now, defaultTimeout);
            && after.Keys == before.Keys
            && forall pod :: pod in SandboxPods(items) ==> after[IdOf(pod)] == AsSeen(before[IdOf(pod)], pod)
  {
    hide *;
    var pods, after := SandboxPods(items), RegisteredAll(recovered, now, defaultTimeout);
    forall pod | pod in pods
      ensures IdOf(pod) in after && IdOf(pod) in before && after[IdOf(pod)] == AsSeen(before[IdOf(pod)], pod)
    {
      var i: nat :| i < |pods| && pods[i] == pod;
      RestoredAt(lib, before, pods, recovered, i, now, defaultTimeout);
    }
    forall id | id in before.Keys + after.Keys ensures id in before && id in after {
      if id in before {
        var pod := HasPod(lib, before, pods, id);
        assert IdOf(pod) in after;
      } else {
        IdsRegistered(recovered, id, now, defaultTimeout);
        var i: nat :| i < |recovered| && recovered[i].id == id;
        RestoredAt(lib, before, pods, recovered, i, now, defaultTimeout);
      }
    }
  }

  lemma HasPod(lib: Library, before: map<string, Sandbox>, pods: seq<Pod>, id: string) returns (pod: Pod)
    requires InSync(lib, before, pods) && id in before
    ensures pod in pods && IdOf(pod) == id
  {
    hide IdOf;
    pod :| pod in pods && IdOf(pod) == id;
  }

  lemma RestoredAt(lib: Library, before: map<string, Sandbox>, pods: seq<Pod>, recovered: seq<RecoveredSandbox>, i: nat,
                   now: int, defaultTimeout: int)
    requires Promises(lib) && InSync(lib, before, pods) && CanBeRestored(before) && RecoversAll(lib, pods, recovered)
    requires i < |recovered| || i < |pods|
    ensures var after := RegisteredAll(recovered, now, defaultTimeout);
            && i < |recovered| == |pods| && recovered[i].id == IdOf(pods[i])
            && IdOf(pods[i]) in before && IdOf(pods[i]) in after
            && after[IdOf(pods[i])] == AsSeen(before[IdOf(pods[i])], pods[i])
  {
    hide Promises, CapabilitiesSurvive, Recovers, IsPodOf, Registered, WithExpiry, AsSeen, IdOf, RegisteredAll;
    assert pods[i] in pods;
    forall j, k | 0 <= j < k < |recovered| ensures recovered[j].id != recovered[k].id {
      RecoveredId(lib, pods[j], recovered[j]);
      RecoveredId(lib, pods[k], recovered[k]);
    }
    RecoveredId(lib, pods[i], recovered[i]);
    RestoredExactly(lib, pods[i], before[IdOf(pods[i])], recovered[i], now, defaultTimeout);
    RegisteredAt(recovered, i, now, defaultTimeout);
  }

  lemma RecoveredId(lib: Library, pod: Pod, rs: RecoveredSandbox)
    requires Recovers(lib, pod, rs)
    ensures rs.id == IdOf(pod)
  {}

  /** The capabilities the API accepts all survive, in any order and number. */
  lemma AcceptedCapabilitiesSurvive(caps: seq<string>)
    requires forall c :: c in caps ==> c in ["sudo", "git-ssh", "browser"]
    ensures CapabilitiesSurvive(caps)
  {
    forall c | c in caps ensures Survives(c) {}
  }

  // ---------- What does not ----------

  /** Keeping a sandbox alive is not written to its pod: after a restart the first expiry holds again. */
  lemma KeepAliveIsForgotten(lib: Library, pod: Pod, sbx: Sandbox, extended: int, rs: RecoveredSandbox,
                             now: int, defaultTimeout: int)
    requires Promises(lib) && IsPodOf(lib, pod, sbx) && Recovers(lib, pod, rs)
    requires sbx.createdAt != 0 && sbx.expiresAt != 0
    ensures Registered(WithExpiry(rs, now, defaultTimeout), now) == AsSeen(sbx.(expiresAt := extended), pod) <==>
            extended == sbx.expiresAt && CapabilitiesSurvive(sbx.capabilities)
  {
    hide Promises, IsPodOf, Recovers, CapabilitiesSurvive;
    RestoredExactly(lib, pod, sbx, rs, now, defaultTimeout);
    if extended == sbx.expiresAt {
      assert sbx.(expiresAt := extended) == sbx;
    }
  }

  /**
   The ids restored are those the pods' labels carry, warm ones excepted. A sandbox served by a claimed warm pod is
   known only to the cache, so it is lost with it: the pod still carries its warm label and is skipped.
   */
  lemma {:induction false} RestoredIds(lib: Library, items: seq<Pod>, recovered: seq<RecoveredSandbox>, id: string,
                                 now: int, defaultTimeout: int)
    requires RecoversAll(lib, SandboxPods(items), recovered)
    ensures id in RegisteredAll(recovered, now, defaultTimeout) <==>
            exists pod :: pod in items && IdOf(pod) == id && id != "" && !(WarmPool.WARM_PREFIX <= id)
  {
    hide Recovers, IdOf, Registered, WithExpiry;
    IdsRegistered(recovered, id, now, defaultTimeout);
    KeptPods(items);
    var pods := SandboxPods(items);
    if i :| 0 <= i < |recovered| && recovered[i].id == id {
      RecoveredId(lib, pods[i], recovered[i]);
      assert pods[i] in pods;
    }
    if pod :| pod in items && IdOf(pod) == id && id != "" && !(WarmPool.WARM_PREFIX <= id) {
      assert pod in pods;
      var i :| 0 <= i < |pods| && pods[i] == pod;
      RecoveredId(lib, pods[i], recovered[i]);
    }
  }

  lemma {:induction false} IdsRegistered(recovered: seq<RecoveredSandbox>, id: string, now: int, defaultTimeout: int)
    ensures id in RegisteredAll(recovered, now, defaultTimeout) <==> exists i :: 0 <= i < |recovered| && recovered[i].id == id
  {
    hide Registered, WithExpiry;
    if recovered != [] {
      var n := |recovered| - 1;
      IdsRegistered(recovered[..n], id, now, defaultTimeout);
      if i :| 0 <= i < n && recovered[..n][i].id == id {
        assert recovered[i].id == id;
      }
      if i :| 0 <= i < n && recovered[i].id == id {
        assert recovered[..n][i].id == id;
      }
    }
  }

  lemma {:induction false} KeptPods(items: seq<Pod>)
    ensures forall pod :: pod in SandboxPods(items) <==> pod in items && IsSandboxPod(pod)
  {
    hide IsSandboxPod;
    if items != [] {
      KeptPods(items[..|items| - 1]);
      assert items == items[..|items| - 1] + [items[|items| - 1]];
    }
  }

  /** In the order in which the pods are listed. */
  lemma {:induction false} ConnectsInOrder(first: seq<RecoveredSandbox>, second: seq<RecoveredSandbox>)
    ensures ToConnect(first + second) == ToConnect(first) + ToConnect(second)
  {
    if second == [] {
      assert first + second == first;
    } else {
      assert (first + second)[..|first + second| - 1] == first + second[..|second| - 1];
      ConnectsInOrder(first, second[..|second| - 1]);
    }
  }

  /** After a restart the agent connects to exactly the ready sandbox pods with an address, and to no other. */
  lemma {:induction false} ConnectsToReadyPods(lib: Library, pods: seq<Pod>, recovered: seq<RecoveredSandbox>,
                                               id: string, ip: string)
    requires RecoversAll(lib, pods, recovered)
    ensures (id, ip) in ToConnect(recovered) <==>
            exists pod :: pod in pods && IdOf(pod) == id && pod.podIP == ip && pod.ready && ip != ""
  {
    hide IdOf, Label, RecoversCapabilities, Decoded;
    if pods != [] {
      var n := |pods| - 1;
      ConnectsToReadyPods(lib, pods[..n], recovered[..n], id, ip);
      assert Recovers(lib, pods[n], recovered[n]);
      assert pods == pods[..n] + [pods[n]];
    }
  }
}
