/**
 Creating and deleting a sandbox: the registry, the warm pool with its pod cache, and the cluster's pods by name
 change together. Creation claims a warm pod or makes a new one, and takes the registration back if that fails.
 */
module Provision {
  import opened Wrappers
  import opened Integers
  import PoolKeys
  import opened Recovery
  import opened Requests
  import opened WarmPool

  datatype World = World(sandboxes: map<string, Sandbox>, warm: State, cluster: set<string>)

  datatype Outcome = FromWarm | FromNew | Failed

  datatype Deletion = Gone | NotFound | Refused

  function PodName(id: string): string {
    "sbx-" + id
  }

  /** The warm pod a claim for these capabilities gets, if any. */
  function Claimable(st: State, template: string, caps: seq<string>): Option<string> {
    var ids := IdsOf(st.pool, PoolKeys.PoolKeyFor(template, caps));
    var i := FirstReady(ids, st.pods);
    if i < |ids| then Some(ids[i]) else None
  }

  function OutcomeOf(w: World, sbx: Sandbox, creates: bool): Outcome {
    if Claimable(w.warm, sbx.template, sbx.capabilities).Some? then FromWarm else if creates then FromNew else Failed
  }

  /** `creates` tells whether the cluster accepts a new pod; on failure the registration is taken back. */
  ghost function AfterProvision(w: World, sbx: Sandbox, creates: bool): World {
    var claim := Claimable(w.warm, sbx.template, sbx.capabilities);
    if claim.Some? then
      var running := sbx.(podIP := w.warm.pods[claim.value].podIP, status := Running);
      World(w.sandboxes[sbx.id := running], WarmPool.Apply(w.warm, Claim(sbx.template, sbx.capabilities, sbx.id)), w.cluster)
    else if creates then w.(cluster := w.cluster + {PodName(sbx.id)})
    else w.(sandboxes := w.sandboxes - {sbx.id})
  }

  /** The sandbox as it is registered at first. */
  function SandboxFor(a: Request, id: string, now: int, lifetime: int64): Sandbox {
    Sandbox(id, Starting, a.template, a.ports, a.gui, a.env, a.metadata, a.capabilities, now, now + lifetime, "")
  }

  ghost function AfterCreate(w: World, sbx: Sandbox, creates: bool): World {
    AfterProvision(w.(sandboxes := w.sandboxes[sbx.id := sbx]), sbx, creates)
  }

  function DeletePodResult(cluster: set<string>, id: string, refuses: bool): Deletion {
    if refuses then Refused else if PodName(id) in cluster then Gone else NotFound
  }

  /** Pods are deleted by the name the id would give them; a pod that is not found counts as deleted. */
  function AfterDelete(w: World, id: string, refuses: bool): World {
    match DeletePodResult(w.cluster, id, refuses)
    case Refused => w
    case NotFound => w.(sandboxes := w.sandboxes - {id})
    case Gone => World(w.sandboxes - {id}, w.warm.(pods := w.warm.pods - {id}), w.cluster - {PodName(id)})
  }

  /** A watch event: the cache and the pools move on, and the callback of an ordinary pod marks its sandbox as running. */
  ghost function AfterReport(w: World, id: string, info: PodInfo, connects: bool): World {
    var e := Updated(id, info, connects);
    var warm := WarmPool.Apply(w.warm, e);
    if ReachesSandbox(w.warm, e) && id in w.sandboxes then
      World(w.sandboxes[id := w.sandboxes[id].(status := Running, podIP := info.podIP)], warm, w.cluster)
    else w.(warm := warm)
  }

  lemma CachedAfterReport(st: State, id: string, info: PodInfo, connects: bool)
    ensures WarmPool.Apply(st, Updated(id, info, connects)).pods == st.pods[id := info]
  {}

  lemma ReachesExactly(st: State, id: string, info: PodInfo, connects: bool)
    ensures ReachesSandbox(st, Updated(id, info, connects)) <==>
            info.ready && !(id in st.pods && st.pods[id].ready) && !Warm(st.pool, id) && !("warm-" <= id)
  {
    hide Warm;
  }

  lemma ClaimIs(st: State, template: string, caps: seq<string>, newId: string)
    ensures var claim, st' := Claimable(st, template, caps), WarmPool.Apply(st, Claim(template, caps, newId));
            && (claim.None? <==> st'.claimed == st.claimed)
            && (claim.None? ==> st' == st)
            && (claim.Some? ==> claim.value in st.pods && |st'.claimed| > 0 && st'.claimed[|st'.claimed| - 1].id == claim.value)
  {}

  lemma SetTwice(sandboxes: map<string, Sandbox>, id: string, ip: string)
    requires id in sandboxes
    ensures var sbx := sandboxes[id];
            var ipFirst, statusFirst := sandboxes[id := sbx.(podIP := ip)], sandboxes[id := sbx.(status := Running)];
            && ipFirst[id := ipFirst[id].(status := Running)] == sandboxes[id := sbx.(podIP := ip, status := Running)]
            && statusFirst[id := statusFirst[id].(podIP := ip)] == sandboxes[id := sbx.(podIP := ip, status := Running)]
  {}

  class Server {
    const agent: Agent
    const manager: Manager
    var cluster: set<string>

    constructor (agent: Agent, manager: Manager)
      ensures this.agent == agent && this.manager == manager && cluster == {}
    {
      this.agent, this.manager, cluster := agent, manager, {};
    }

    ghost function Model(): World
      reads this, manager, agent.pool, agent.pool.podMgr
    {
      World(manager.sandboxes, agent.pool.Model(), cluster)
    }

    /** The handler: an unacceptable request changes nothing; an accepted one is registered and provisioned. */
    method CreateSandbox(id: string, now: int, req: Request, defaultTimeout: int64, maxTimeout: int64, creates: bool)
      returns (r: Option<Outcome>, ghost accepted: Request)
      requires agent.Valid()
      modifies this`cluster, manager, agent.podMgr, agent.pool`pool, agent.pool`claimed
      ensures r.None? <==> !Acceptable(req)
      ensures r.None? ==> Model() == old(Model())
      ensures r.Some? ==>
                var sbx := SandboxFor(accepted, id, now, Lifetime(req.seconds, defaultTimeout, maxTimeout));
                && Accepts(req, accepted)
                && Model() == AfterCreate(old(Model()), sbx, creates) && r.value == OutcomeOf(old(Model()), sbx, creates)
    {
      hide AfterProvision, Claimable, Acceptable, Accepts, Lifetime;
      var a := Accept(req);
      if a.None? {
        return None, req;
      }
      accepted := a.value;
      var sbx := manager.Create(id, now, a.value.template, Lifetime(req.seconds, defaultTimeout, maxTimeout), a.value.ports,
                                a.value.gui, a.value.env, a.value.metadata, a.value.capabilities);
      assert Model() == old(Model()).(sandboxes := old(manager.sandboxes)[id := sbx]);
      var outcome := ProvisionSandboxPod(sbx, creates);
      r := Some(outcome);
    }

    method ProvisionSandboxPod(sbx: Sandbox, creates: bool) returns (r: Outcome)
      requires agent.Valid() && sbx.id in manager.sandboxes && manager.sandboxes[sbx.id] == sbx
      modifies this`cluster, manager, agent.podMgr, agent.pool`pool, agent.pool`claimed
      ensures Model() == AfterProvision(old(Model()), sbx, creates)
      ensures r == OutcomeOf(old(Model()), sbx, creates)
    {
      ClaimIs(agent.pool.Model(), sbx.template, sbx.capabilities, sbx.id);
      hide WarmPool.Apply, Claimable, PodName;
      var warm := agent.ClaimFor(sbx.template, sbx.capabilities, sbx.id);
      if warm.Some? {
        SetTwice(manager.sandboxes, sbx.id, warm.value.podIP);
        manager.SetPodIP(sbx.id, warm.value.podIP);
        manager.SetStatus(sbx.id, Running);
        return FromWarm;
      }
      if !creates {
        manager.Remove(sbx.id);
        return Failed;
      }
      cluster := cluster + {PodName(sbx.id)};
      return FromNew;
    }

    method OnReport(id: string, info: PodInfo, connects: bool)
      requires agent.Valid()
      modifies manager, agent.podMgr, agent.pool`pool, agent.pool`marked
      ensures Model() == AfterReport(old(Model()), id, info, connects)
      ensures var st := old(agent.pool.Model());
              var rises := info.ready && !(id in st.pods && st.pods[id].ready);
              var runs := rises && !Warm(st.pool, id) && !("warm-" <= id) && id in old(manager.sandboxes);
              manager.sandboxes ==
              if runs then old(manager.sandboxes)[id := old(manager.sandboxes)[id].(status := Running, podIP := info.podIP)]
              else old(manager.sandboxes)
    {
      ReachesExactly(agent.pool.Model(), id, info, connects);
      hide WarmPool.Apply, ReachesSandbox;
      CachedAfterReport(agent.pool.Model(), id, info, connects);
      var ordinary := agent.OnWatchUpdated(id, info, connects);
      if ordinary {
        if id in manager.sandboxes {
          SetTwice(manager.sandboxes, id, info.podIP);
        }
        manager.SetStatus(id, Running);
        if id in agent.podMgr.pods {
          manager.SetPodIP(id, agent.podMgr.pods[id].podIP);
        }
      }
    }

    method OnVanish(id: string)
      requires agent.Valid()
      modifies agent.podMgr
      ensures Model() == Do(old(Model()), Vanish(id)) && agent.podMgr.pods == old(agent.podMgr.pods) - {id}
    {
      agent.OnWatchDeleted(id);
    }

    method DeletePod(id: string, refuses: bool) returns (r: Deletion)
      requires agent.Valid()
      modifies this`cluster, agent.podMgr
      ensures r == DeletePodResult(old(cluster), id, refuses)
      ensures agent.podMgr.pods == if r.Gone? then old(agent.podMgr.pods) - {id} else old(agent.podMgr.pods)
      ensures cluster == if r.Gone? then old(cluster) - {PodName(id)} else old(cluster)
    {
      if refuses {
        return Refused;
      }
      if PodName(id) !in cluster {
        return NotFound;
      }
      cluster := cluster - {PodName(id)};
      agent.podMgr.Delete(id);
      return Gone;
    }

    method DeleteSandbox(id: string, refuses: bool) returns (ok: bool)
      requires agent.Valid()
      modifies this`cluster, manager, agent.podMgr
      ensures Model() == AfterDelete(old(Model()), id, refuses) && ok == !refuses
    {
      var r := DeletePod(id, refuses);
      if r == Refused {
        return false;
      }
      if id in manager.sandboxes {
        SetThenGone(manager.sandboxes, id, manager.sandboxes[id].(status := Stopped));
      }
      manager.SetStatus(id, Stopped);
      manager.Remove(id);
      return true;
    }
  }

  // ---------- What creation and deletion do together ----------

  /** A sandbox that cannot be provisioned leaves no trace: registry, pools, cache and cluster are as before. */
  lemma FailureLeavesNoTrace(w: World, sbx: Sandbox, creates: bool)
    requires sbx.id !in w.sandboxes
    ensures OutcomeOf(w, sbx, creates) == Failed <==> AfterCreate(w, sbx, creates) == w
  {
    if OutcomeOf(w, sbx, creates) == Failed {
      assert w.sandboxes[sbx.id := sbx] - {sbx.id} == w.sandboxes;
    } else {
      assert sbx.id in AfterCreate(w, sbx, creates).sandboxes;
    }
  }

  /** A warm pod changes hands: one slot less, no pod more or less, and the sandbox runs at the pod's address. */
  lemma WarmPodChangesHands(w: World, sbx: Sandbox, creates: bool)
    requires OutcomeOf(w, sbx, creates) == FromWarm && sbx.id !in w.warm.pods
    ensures var w' := AfterCreate(w, sbx, creates);
            var id := Claimable(w.warm, sbx.template, sbx.capabilities).value;
            var key := PoolKeys.PoolKeyFor(sbx.template, sbx.capabilities);
            && w'.cluster == w.cluster && |w'.warm.pods| == |w.warm.pods|
            && |IdsOf(w.warm.pool, key)| == |IdsOf(w'.warm.pool, key)| + 1
            && id in w.warm.pods && w.warm.pods[id].ready && id !in w'.warm.pods && sbx.id in w'.warm.pods
            && w'.warm.pods[sbx.id] == w.warm.pods[id].(sandboxId := sbx.id)
            && w'.sandboxes == w.sandboxes[sbx.id := sbx.(podIP := w.warm.pods[id].podIP, status := Running)]
  {
    var id, w' := Claimable(w.warm, sbx.template, sbx.capabilities).value, AfterCreate(w, sbx, creates);
    assert w'.warm.pods.Keys == w.warm.pods.Keys - {id} + {sbx.id};
  }

  /** The pod that serves a sandbox is gone after the deletion exactly when it bears the sandbox's own name. */
  lemma ServingPodIsDeletedIff(w: World, id: string)
    requires id in w.warm.pods && w.warm.pods[id].podName in w.cluster
    ensures w.warm.pods[id].podName !in AfterDelete(w, id, false).cluster <==> w.warm.pods[id].podName == PodName(id)
    ensures id !in AfterDelete(w, id, false).sandboxes
  {}

  /**
   A claimed warm pod outlives its sandbox: it keeps the name of its warm id, so deleting the sandbox finds no pod,
   calls that success, and leaves pod and cache entry behind.
   */
  lemma ClaimedPodOutlivesSandbox(w: World, sbx: Sandbox, creates: bool)
    requires OutcomeOf(w, sbx, creates) == FromWarm && sbx.id !in w.warm.pods
    requires var id := Claimable(w.warm, sbx.template, sbx.capabilities).value;
             id in w.warm.pods && w.warm.pods[id].podName == PodName(id)
    requires PodName(sbx.id) !in w.cluster
    ensures var w' := AfterCreate(w, sbx, creates);
            AfterDelete(w', sbx.id, false) == w'.(sandboxes := w'.sandboxes - {sbx.id})
              && sbx.id in w'.warm.pods && w'.warm.pods[sbx.id].podName != PodName(sbx.id)
  {
    WarmPodChangesHands(w, sbx, creates);
    var id := Claimable(w.warm, sbx.template, sbx.capabilities).value;
    assert PodName(id)[4..] == id && PodName(sbx.id)[4..] == sbx.id;
  }

  // ---------- Over every run ----------

  /** Creations, deletions and refills of pools, and what the watch says of a pod: its state, or that it is gone. */
  datatype Op =
    | Create(sbx: Sandbox, creates: bool)
    | Delete(id: string, refuses: bool)
    | Report(id: string, info: PodInfo, connects: bool)
    | Vanish(id: string)
    | Refill(id: string)

  ghost function Do(w: World, op: Op): World {
    match op
    case Create(sbx, creates) => AfterCreate(w, sbx, creates)
    case Delete(id, refuses) => AfterDelete(w, id, refuses)
    case Report(id, info, connects) => AfterReport(w, id, info, connects)
    case Vanish(id) => w.(warm := WarmPool.Apply(w.warm, Event.Deleted(id)))
    case Refill(id) => w.(cluster := w.cluster + {PodName(id)})
  }

  ghost function RunFrom(w: World, ops: seq<Op>): World {
    if ops == [] then w else Do(RunFrom(w, ops[..|ops| - 1]), ops[|ops| - 1])
  }

  lemma RunFromMore(w: World, ops: seq<Op>, op: Op)
    ensures RunFrom(w, ops + [op]) == Do(RunFrom(w, ops), op)
  {
    assert (ops + [op])[..|ops|] == ops;
  }

  lemma PodNamesDiffer(a: string, b: string)
    ensures PodName(a) == PodName(b) <==> a == b
  {
    assert PodName(a)[4..] == a && PodName(b)[4..] == b;
  }

  lemma {:induction false} OwnReportsLeaveTheRest(w: World, ops: seq<Op>, id: string)
    requires forall op :: op in ops ==> (op.Report? || op.Vanish?) && op.id == id
    requires !(WARM_PREFIX <= id) && !Warm(w.warm.pool, id)
    ensures var w' := RunFrom(w, ops);
            && w'.cluster == w.cluster && w'.warm == w.warm.(pods := w'.warm.pods)
            && w'.warm.pods - {id} == w.warm.pods - {id} && w'.sandboxes - {id} == w.sandboxes - {id}
  {
    hide Warm;
    if ops != [] {
      var before, last := ops[..|ops| - 1], ops[|ops| - 1];
      assert last in ops;
      OwnReportsLeaveTheRest(w, before, id);
      var mid := RunFrom(w, before);
      if last.Report? {
        OrdinaryReportIs(mid, id, last.info, last.connects);
      } else {
        assert mid.warm.pods - {id} - {id} == mid.warm.pods - {id};
      }
    }
  }

  lemma OrdinaryReportIs(w: World, id: string, info: PodInfo, connects: bool)
    requires !(WARM_PREFIX <= id) && !Warm(w.warm.pool, id)
    ensures var w' := AfterReport(w, id, info, connects);
            && w'.cluster == w.cluster && w'.warm == w.warm.(pods := w.warm.pods[id := info])
            && w'.warm.pods - {id} == w.warm.pods - {id} && w'.sandboxes - {id} == w.sandboxes - {id}
  {
    hide Warm;
  }

  /** The k-th report finds the pod ready. */
  predicate ReadyReport(ops: seq<Op>, k: nat) {
    k < |ops| && ops[k].Report? && ops[k].info.ready
  }

  lemma ReadyReportMore(ops: seq<Op>, k: nat)
    requires ops != []
    ensures k < |ops| - 1 ==> (ReadyReport(ops, k) <==> ReadyReport(ops[..|ops| - 1], k))
    ensures ReadyReport(ops[..|ops| - 1], k) ==> k < |ops| - 1
  {}

  /** The sandbox starts until the first report that finds its pod ready, and then runs, at an address of such a report. */
  lemma {:induction false} RunsOnceReady(w: World, ops: seq<Op>, id: string)
    requires forall op :: op in ops ==> (op.Report? || op.Vanish?) && op.id == id
    requires !(WARM_PREFIX <= id) && !Warm(w.warm.pool, id) && !Ready(w.warm.pods, id)
    requires id in w.sandboxes && w.sandboxes[id].status == Starting
    ensures var w' := RunFrom(w, ops);
            && id in w'.sandboxes
            && (w'.sandboxes[id].status == Running <==> exists k: nat :: ReadyReport(ops, k))
            && (w'.sandboxes[id].status == Running ==>
                  exists k: nat :: ReadyReport(ops, k) && ops[k].info.podIP == w'.sandboxes[id].podIP)
            && (w'.sandboxes[id].status != Running ==> w'.sandboxes == w.sandboxes && !Ready(w'.warm.pods, id))
  {
    hide Warm, Do, ReadyReport;
    if ops == [] {
      forall k ensures !ReadyReport(ops, k) {
        NoReadyReport(k);
      }
    } else {
      var before, n := ops[..|ops| - 1], |ops| - 1;
      assert ops[n] in ops && forall op :: op in before ==> op in ops;
      RunsOnceReady(w, before, id);
      OwnReportsLeaveTheRest(w, before, id);
      OwnReport(RunFrom(w, before), ops[n], id);
      forall k: nat
        ensures k < n ==> (ReadyReport(ops, k) <==> ReadyReport(before, k))
        ensures ReadyReport(before, k) ==> k < n
      {
        ReadyReportMore(ops, k);
      }
      ReadyReportIs(ops, n);
      forall k: nat | k > n ensures !ReadyReport(ops, k) {
        ReadyReportInRange(ops, k);
      }
    }
  }

  lemma NoReadyReport(k: nat)
    ensures !ReadyReport([], k)
  {}

  lemma ReadyReportIs(ops: seq<Op>, k: nat)
    requires k < |ops|
    ensures ReadyReport(ops, k) <==> ops[k].Report? && ops[k].info.ready
  {}

  lemma ReadyReportInRange(ops: seq<Op>, k: nat)
    ensures ReadyReport(ops, k) ==> k < |ops|
  {}

  lemma OwnReport(w: World, op: Op, id: string)
    requires (op.Report? || op.Vanish?) && op.id == id
    requires !(WARM_PREFIX <= id) && !Warm(w.warm.pool, id) && id in w.sandboxes
    ensures var w' := Do(w, op); var rises := op.Report? && op.info.ready && !Ready(w.warm.pods, id);
            && w'.sandboxes ==
               (if rises then w.sandboxes[id := w.sandboxes[id].(status := Running, podIP := op.info.podIP)] else w.sandboxes)
            && (Ready(w'.warm.pods, id) <==> op.Report? && op.info.ready)
  {
    hide Warm;
    if op.Report? {
      OrdinaryReportIs(w, id, op.info, op.connects);
    }
  }

  /**
   Creating a sandbox with a pod of its own and deleting it again changes nothing, whatever the watch has said of the
   pod in between.
   */
  lemma CreateThenDelete(w: World, sbx: Sandbox, reports: seq<Op>)
    requires OutcomeOf(w, sbx, true) == FromNew
    requires sbx.id !in w.sandboxes && sbx.id !in w.warm.pods && PodName(sbx.id) !in w.cluster
    requires !(WARM_PREFIX <= sbx.id) && !Warm(w.warm.pool, sbx.id)
    requires forall op :: op in reports ==> (op.Report? || op.Vanish?) && op.id == sbx.id
    ensures AfterDelete(RunFrom(AfterCreate(w, sbx, true), reports), sbx.id, false) == w
  {
    hide Warm, RunFrom;
    var made := AfterCreate(w, sbx, true);
    OwnReportsLeaveTheRest(made, reports, sbx.id);
    assert w.cluster + {PodName(sbx.id)} - {PodName(sbx.id)} == w.cluster;
    assert made.sandboxes - {sbx.id} == w.sandboxes;
    assert w.warm.pods - {sbx.id} == w.warm.pods;
  }

  // ---------- A claimed pod whose sandbox is deleted ----------

  /** A pod in the cluster that serves nobody: cached under an id that is not registered and not its own name's. */
  ghost predicate Stranded(w: World, id: string, name: string) {
    && id !in w.sandboxes && id in w.warm.pods && w.warm.pods[id].podName == name
    && name in w.cluster && PodName(id) !in w.cluster && !Warm(w.warm.pool, id) && !(WARM_PREFIX <= id)
  }

  /** A claim warms nobody, and takes an id that was in a pool. */
  lemma ClaimSparesOthers(st: State, template: string, caps: seq<string>, newId: string, id: string)
    requires !Warm(st.pool, id)
    ensures !Warm(WarmPool.Apply(st, Claim(template, caps, newId)).pool, id)
    ensures Claimable(st, template, caps) != Some(id)
  {
    hide PoolKeys.PoolKeyFor, Claimed;
    var key := PoolKeys.PoolKeyFor(template, caps);
    ClaimDoesNotWarm(st, key, newId, id);
    assert id !in IdsOf(st.pool, key);
  }

  lemma CreateKeepsStranded(w: World, sbx: Sandbox, creates: bool, id: string, name: string)
    requires Stranded(w, id, name) && sbx.id != id
    ensures Stranded(AfterCreate(w, sbx, creates), id, name)
  {
    hide Warm;
    PodNamesDiffer(sbx.id, id);
    ClaimSparesOthers(w.warm, sbx.template, sbx.capabilities, sbx.id, id);
  }

  lemma ReportKeepsStranded(w: World, other: string, info: PodInfo, connects: bool, id: string, name: string)
    requires Stranded(w, id, name) && other != id
    ensures Stranded(AfterReport(w, other, info, connects), id, name)
  {
    hide Warm;
    CachedAfterReport(w.warm, other, info, connects);
    WarmExactlyAfter(w.warm, Updated(other, info, connects), id);
  }

  lemma StaysStranded(w: World, op: Op, id: string, name: string)
    requires Stranded(w, id, name)
    requires op.Create? ==> op.sbx.id != id
    requires op.Delete? ==> PodName(op.id) != name
    requires op.Report? || op.Vanish? || op.Refill? ==> op.id != id
    ensures Stranded(Do(w, op), id, name)
  {
    hide Warm;
    match op
    case Create(sbx, creates) => CreateKeepsStranded(w, sbx, creates, id, name);
    case Delete(gone, refuses) => PodNamesDiffer(gone, id);
    case Report(other, info, connects) => ReportKeepsStranded(w, other, info, connects, id, name);
    case Vanish(other) =>
    case Refill(other) => PodNamesDiffer(other, id);
  }

  /**
   Nothing but a deletion by its warm id gets rid of it, in any run in which ids are not used twice. No pod bears the
   deleted sandbox's id, so the watch never speaks of it; what it says of all the others, the claimed pod's warm id
   among them, does not help.
   */
  lemma {:induction false} StrandedForGood(w: World, ops: seq<Op>, id: string, name: string)
    requires Stranded(w, id, name)
    requires forall op :: op in ops && op.Create? ==> op.sbx.id != id
    requires forall op :: op in ops && op.Delete? ==> PodName(op.id) != name
    requires forall op :: op in ops && (op.Report? || op.Vanish? || op.Refill?) ==> op.id != id
    ensures Stranded(RunFrom(w, ops), id, name)
  {
    hide Do, Stranded, PodName;
    if ops != [] {
      var before, last := ops[..|ops| - 1], ops[|ops| - 1];
      assert last in ops;
      StrandedForGood(w, before, id, name);
      StaysStranded(RunFrom(w, before), last, id, name);
    }
  }

  /** The k-th step makes the pod of that id: a refill, or a creation that finds no warm pod and gets a new one. */
  ghost predicate MadeAt(w: World, ops: seq<Op>, k: nat, id: string) {
    k < |ops| &&
    (ops[k] == Refill(id) ||
     (ops[k].Create? && ops[k].sbx.id == id && OutcomeOf(RunFrom(w, ops[..k]), ops[k].sbx, ops[k].creates) == FromNew))
  }

  predicate DeletedSince(ops: seq<Op>, from: nat, id: string) {
    exists j :: from <= j < |ops| && ops[j] == Delete(id, false)
  }

  ghost predicate StandsSince(w: World, ops: seq<Op>, k: nat, id: string) {
    MadeAt(w, ops, k, id) && !DeletedSince(ops, k + 1, id)
  }

  lemma ClusterStep(w: World, op: Op, id: string)
    ensures PodName(id) in Do(w, op).cluster <==>
            op == Refill(id) || (op.Create? && op.sbx.id == id && OutcomeOf(w, op.sbx, op.creates) == FromNew) ||
            (PodName(id) in w.cluster && op != Delete(id, false))
  {
    hide WarmPool.Apply, Claimable;
    match op
    case Create(sbx, _) => PodNamesDiffer(sbx.id, id);
    case Delete(other, _) => PodNamesDiffer(other, id);
    case Refill(other) => PodNamesDiffer(other, id);
    case _ =>
  }

  lemma StandsMore(w: World, ops: seq<Op>, k: nat, id: string)
    requires ops != []
    ensures var before, n := ops[..|ops| - 1], |ops| - 1;
            && (k < n ==> (StandsSince(w, ops, k, id) <==> StandsSince(w, before, k, id) && ops[n] != Delete(id, false)))
            && (StandsSince(w, before, k, id) ==> k < n) && (StandsSince(w, ops, k, id) ==> k <= n)
            && (k == n ==> (StandsSince(w, ops, k, id) <==> MadeAt(w, ops, n, id)))
            && (k <= n ==> (DeletedSince(ops, k, id) <==> DeletedSince(before, k, id) || ops[n] == Delete(id, false)))
  {
    hide OutcomeOf, RunFrom;
    var before, n := ops[..|ops| - 1], |ops| - 1;
    forall from: nat | from <= n
      ensures DeletedSince(ops, from, id) <==> DeletedSince(before, from, id) || ops[n] == Delete(id, false)
    {
      if j :| from <= j < n && ops[j] == Delete(id, false) {
        assert before[j] == ops[j];
      }
    }
    if k < n {
      assert before[..k] == ops[..k] && before[k] == ops[k];
    }
  }

  /**
   Over every run a pod is in the cluster exactly if it was there, or was made on the way, and no deletion by the id in its
   name has succeeded since.
   */
  lemma {:induction false} InClusterExactly(w: World, ops: seq<Op>, id: string)
    ensures PodName(id) in RunFrom(w, ops).cluster <==>
            (PodName(id) in w.cluster && !DeletedSince(ops, 0, id)) || exists k: nat :: StandsSince(w, ops, k, id)
  {
    hide Do, PodName, OutcomeOf, StandsSince, DeletedSince;
    if ops == [] {
      NothingStands(w, id);
    } else {
      var before, n := ops[..|ops| - 1], |ops| - 1;
      InClusterExactly(w, before, id);
      ClusterStep(RunFrom(w, before), ops[n], id);
      StandsMore(w, ops, 0, id);
      forall k: nat
        ensures k < n ==> (StandsSince(w, ops, k, id) <==> StandsSince(w, before, k, id) && ops[n] != Delete(id, false))
        ensures (StandsSince(w, before, k, id) ==> k < n) && (StandsSince(w, ops, k, id) ==> k <= n)
      {
        StandsMore(w, ops, k, id);
      }
      StandsMore(w, ops, n, id);
      hide RunFrom;
      assert StandsSince(w, ops, n, id) <==> MadeAt(w, ops, n, id);
    }
  }

  lemma NothingStands(w: World, id: string)
    ensures !DeletedSince([], 0, id) && forall k: nat :: !StandsSince(w, [], k, id)
  {}

  ghost predicate InPoolAt(w: World, ops: seq<Op>, k: nat, id: string)
    requires k <= |ops|
  {
    Warm(RunFrom(w, ops[..k]).warm.pool, id)
  }

  /** The k-th step reports the pod ready and reachable when the cache does not have it as ready. */
  ghost predicate ReportedAt(w: World, ops: seq<Op>, k: nat, id: string)
    requires k < |ops|
  {
    ops[k].Report? &&
    PutsInPool(RunFrom(w, ops[..k]).warm, Updated(ops[k].id, ops[k].info, ops[k].connects), id)
  }

  lemma WarmExactlyAfterOp(w: World, op: Op, id: string)
    requires !Warm(w.warm.pool, id)
    ensures Warm(Do(w, op).warm.pool, id) <==>
            op.Report? && PutsInPool(w.warm, Updated(op.id, op.info, op.connects), id)
  {
    hide Warm, PutsInPool, WarmPool.Apply;
    match op
    case Create(sbx, creates) => ClaimSparesOthers(w.warm, sbx.template, sbx.capabilities, sbx.id, id);
    case Delete(_, _) =>
    case Report(other, info, connects) => WarmExactlyAfter(w.warm, Updated(other, info, connects), id);
    case Vanish(other) => VanishIs(w.warm, other);
    case Refill(_) =>
  }

  lemma VanishIs(st: State, id: string)
    ensures WarmPool.Apply(st, Event.Deleted(id)).pool == st.pool
  {}

  lemma OpsPrefixAgrees(w: World, ops: seq<Op>, k: nat, m: nat, id: string)
    requires k <= m <= |ops|
    ensures InPoolAt(w, ops[..m], k, id) <==> InPoolAt(w, ops, k, id)
    ensures k < m ==> (ReportedAt(w, ops[..m], k, id) <==> ReportedAt(w, ops, k, id))
  {
    assert ops[..m][..k] == ops[..k];
  }

  lemma OpAt(w: World, ops: seq<Op>, k: nat, id: string)
    requires k < |ops| && !InPoolAt(w, ops, k, id)
    ensures InPoolAt(w, ops, k + 1, id) <==> ReportedAt(w, ops, k, id)
  {
    hide Warm, PutsInPool, Do;
    assert ops[..k + 1] == ops[..k] + [ops[k]];
    RunFromMore(w, ops[..k], ops[k]);
    WarmExactlyAfterOp(RunFrom(w, ops[..k]), ops[k], id);
  }

  lemma NotAtFirst(w: World, ops: seq<Op>, id: string)
    requires !Warm(w.warm.pool, id)
    ensures !InPoolAt(w, ops, 0, id)
  {
    assert ops[..0] == [];
  }

  /** And over every run the stranded pod's warm id is in a pool again exactly when such a report comes. */
  lemma {:induction false} BackInPoolExactly(w: World, ops: seq<Op>, id: string)
    requires !Warm(w.warm.pool, id)
    ensures (exists k :: 0 < k <= |ops| && InPoolAt(w, ops, k, id)) <==> exists k :: 0 <= k < |ops| && ReportedAt(w, ops, k, id)
  {
    hide InPoolAt, ReportedAt, Warm, RunFrom;
    if ops != [] {
      var m := |ops| - 1;
      var before := ops[..m];
      BackInPoolExactly(w, before, id);
      NotAtFirst(w, ops, id);
      forall k | 0 <= k <= m
        ensures InPoolAt(w, before, k, id) <==> InPoolAt(w, ops, k, id)
        ensures k < m ==> (ReportedAt(w, before, k, id) <==> ReportedAt(w, ops, k, id))
      {
        OpsPrefixAgrees(w, ops, k, m, id);
      }
      if !InPoolAt(w, ops, m, id) {
        OpAt(w, ops, m, id);
      } else {
        assert m > 0 && InPoolAt(w, before, m, id);
      }
    }
  }

  lemma ClaimKeepsCluster(w: World, sbx: Sandbox, creates: bool)
    requires OutcomeOf(w, sbx, creates) == FromWarm
    ensures AfterCreate(w, sbx, creates).cluster == w.cluster
    ensures AfterCreate(w, sbx, creates).warm == WarmPool.Apply(w.warm, Claim(sbx.template, sbx.capabilities, sbx.id))
  {}

  /** Deleting a sandbox that a claimed pod serves strands that pod. */
  lemma DeletionStrands(w: World, sbx: Sandbox, creates: bool)
    requires OutcomeOf(w, sbx, creates) == FromWarm
    requires sbx.id !in w.warm.pods && !Warm(w.warm.pool, sbx.id) && !(WARM_PREFIX <= sbx.id)
    requires var id := Claimable(w.warm, sbx.template, sbx.capabilities).value;
             id in w.warm.pods && w.warm.pods[id].podName == PodName(id) && PodName(id) in w.cluster
    requires PodName(sbx.id) !in w.cluster
    ensures var id := Claimable(w.warm, sbx.template, sbx.capabilities).value;
            Stranded(AfterDelete(AfterCreate(w, sbx, creates), sbx.id, false), sbx.id, PodName(id))
  {
    hide Warm, AfterCreate, Claimable;
    ClaimedPodOutlivesSandbox(w, sbx, creates);
    WarmPodChangesHands(w, sbx, creates);
    ClaimSparesOthers(w.warm, sbx.template, sbx.capabilities, sbx.id, sbx.id);
    ClaimKeepsCluster(w, sbx, creates);
  }
}
