/**
 The warm pool, the pod cache fed by watch events, and the ready callback that joins them: pods created in
 advance are marked ready in a pool, claimed from it for a sandbox, and renamed in the cache.
 */
module WarmPool {
  import opened Wrappers
  import opened Text
  import opened PoolKeys

  const WARM_PREFIX := "warm-"

  datatype PodInfo = PodInfo(sandboxId: string, podName: string, podIP: string, ready: bool,
                             template: string, capabilities: seq<string>)

  datatype Entry = Entry(key: string, id: string)

  /** `marked` and `claimed` are histories: what MarkReady was told and what Claim returned, with the pool's key. */
  datatype State = State(pods: map<string, PodInfo>, pool: map<string, seq<string>>, marked: seq<Entry>, claimed: seq<Entry>)

  const INITIAL := State(map[], map[], [], [])

  function IdsOf(pool: map<string, seq<string>>, key: string): seq<string> {
    if key in pool then pool[key] else []
  }

  predicate Ready(pods: map<string, PodInfo>, id: string) {
    id in pods && pods[id].ready
  }

  ghost predicate Warm(pool: map<string, seq<string>>, id: string) {
    exists key :: key in pool && id in pool[key]
  }

  /** The position of the first id whose pod is ready, or the length of the list. */
  function FirstReady(ids: seq<string>, pods: map<string, PodInfo>): (i: nat)
    ensures i <= |ids|
    ensures i < |ids| ==> Ready(pods, ids[i])
    ensures forall j :: 0 <= j < i ==> !Ready(pods, ids[j])
  {
    if ids == [] || Ready(pods, ids[0]) then 0 else 1 + FirstReady(ids[1..], pods)
  }

  function Remapped(pods: map<string, PodInfo>, oldId: string, newId: string): map<string, PodInfo> {
    if oldId in pods then pods[newId := pods[oldId].(sandboxId := newId)] - {oldId} else pods
  }

  // ---------- The system's steps on values ----------

  datatype Event =
    | Updated(id: string, info: PodInfo, connects: bool)
    | Deleted(id: string)
    | Claim(template: string, caps: seq<string>, newId: string)
    | Remove(id: string)

  function Marked(st: State, id: string, key: string): State {
    st.(pool := st.pool[key := IdsOf(st.pool, key) + [id]], marked := st.marked + [Entry(key, id)])
  }

  /** The agent's ready callback, run to completion. */
  ghost function OnReady(st: State, id: string, connects: bool): State {
    if Warm(st.pool, id) then st
    else if WARM_PREFIX <= id && id in st.pods && connects then
      Marked(st, id, PoolKeyFor(st.pods[id].template, st.pods[id].capabilities))
    else st
  }

  ghost predicate Fires(st: State, e: Event) {
    e.Updated? && e.info.ready && !Ready(st.pods, e.id)
  }

  /** The callback goes on to the sandbox of that id: it is no warm pod's. */
  ghost predicate ReachesSandbox(st: State, e: Event) {
    Fires(st, e) && !Warm(st.pool, e.id) && !(WARM_PREFIX <= e.id)
  }

  /** A claim takes the first ready id of the key and renames its pod. */
  function Claimed(st: State, key: string, newId: string): State {
    var ids := IdsOf(st.pool, key);
    var i := FirstReady(ids, st.pods);
    if i == |ids| then st
    else State(Remapped(st.pods, ids[i], newId), st.pool[key := ids[..i] + ids[i + 1..]],
               st.marked, st.claimed + [Entry(key, ids[i])])
  }

  ghost function Apply(st: State, e: Event): State {
    match e
    case Updated(id, info, connects) =>
      var st' := st.(pods := st.pods[id := info]);
      if Fires(st, e) then OnReady(st', id, connects) else st'
    case Deleted(id) => st.(pods := st.pods - {id})
    case Claim(template, caps, newId) => Claimed(st, PoolKeyFor(template, caps), newId)
    case Remove(id) => st.(pods := st.pods - {id})
  }

  // ---------- The objects ----------

  class PodManager {
    var pods: map<string, PodInfo>

    constructor ()
      ensures pods == map[]
    {
      pods := map[];
    }

    /** An Added or Modified event; tells whether the ready callback fires. */
    method WatchUpdated(id: string, info: PodInfo) returns (fires: bool)
      modifies this
      ensures pods == old(pods)[id := info] && fires == (info.ready && !Ready(old(pods), id))
    {
      var wasReady := id in pods && pods[id].ready;
      pods := pods[id := info];
      fires := info.ready && !wasReady;
    }

    method Delete(id: string)
      modifies this
      ensures pods == old(pods) - {id}
    {
      pods := pods - {id};
    }

    method RemapPod(oldId: string, newId: string)
      modifies this
      ensures pods == Remapped(old(pods), oldId, newId)
      ensures pods == if oldId in old(pods) then old(pods)[newId := old(pods)[oldId].(sandboxId := newId)] - {oldId}
                      else old(pods)
    {
      if oldId in pods {
        var info := pods[oldId].(sandboxId := newId);
        pods := pods[newId := info];
        pods := pods - {oldId};
      }
    }
  }

  datatype Detail = Detail(template: string, capabilities: seq<string>, available: nat, target: int)

  class Pool {
    const podMgr: PodManager
    const size: int
    const sizes: map<string, int>
    const specs: seq<PoolSpec>
    var pool: map<string, seq<string>>
    ghost var marked: seq<Entry>
    ghost var claimed: seq<Entry>

    constructor (podMgr: PodManager, size: int, sizes: map<string, int>, capsToWarm: seq<string>)
      ensures this.podMgr == podMgr && this.size == size && this.sizes == sizes
      ensures pool == map[] && marked == [] && claimed == []
      ensures forall s :: s in specs ==> IsNormal(s.capabilities)
    {
      var specs, templates := Specs(sizes, capsToWarm);
      this.podMgr, this.size, this.sizes, this.specs := podMgr, size, sizes, specs;
      pool, marked, claimed := map[], [], [];
    }

    ghost function Model(): State
      reads this, podMgr
    {
      State(podMgr.pods, pool, marked, claimed)
    }

    method ClaimId(template: string, caps: seq<string>) returns (id: Option<string>)
      modifies this`pool, this`claimed
      ensures var key := PoolKeyFor(template, caps);
              var ids := IdsOf(old(pool), key);
              var i := FirstReady(ids, podMgr.pods);
              if i == |ids| then id == None && pool == old(pool) && claimed == old(claimed)
              else id == Some(ids[i]) && pool == old(pool)[key := ids[..i] + ids[i + 1..]]
                     && claimed == old(claimed) + [Entry(key, ids[i])]
    {
      var normal := NormalizeCapabilities(caps);
      var key := Key(PoolSpec(template, normal));
      assert key == PoolKeyFor(template, caps);
      hide FirstReady, PoolKeyFor, Key, Normal;
      var ids := if key in pool then pool[key] else [];
      var i := FindReady(ids, podMgr.pods);
      if i < |ids| {
        pool := pool[key := ids[..i] + ids[i + 1..]];
        claimed := claimed + [Entry(key, ids[i])];
        return Some(ids[i]);
      }
      id := None;
    }

    /** The loop of Claim, up to the first id whose pod is ready. */
    method FindReady(ids: seq<string>, pods: map<string, PodInfo>) returns (i: nat)
      ensures i == FirstReady(ids, pods)
    {
      i := 0;
      while i < |ids|
        invariant 0 <= i <= |ids|
        invariant forall j :: 0 <= j < i ==> !Ready(pods, ids[j])
      {
        if ids[i] in pods && pods[ids[i]].ready {
          return;
        }
        i := i + 1;
      }
    }

    method MarkReady(id: string, key: string)
      modifies this`pool, this`marked
      ensures Model() == Marked(old(Model()), id, key)
    {
      var ids := if key in pool then pool[key] else [];
      pool := pool[key := ids + [id]];
      marked := marked + [Entry(key, id)];
    }

    method IsWarm(id: string) returns (warm: bool)
      ensures warm <==> Warm(pool, id)
    {
      var left := pool.Keys;
      while left != {}
        invariant left <= pool.Keys && forall key :: key in pool && key !in left ==> id !in pool[key]
        decreases left
      {
        var key :| key in left;
        left := left - {key};
        var ids := pool[key];
        for i := 0 to |ids|
          invariant id !in ids[..i]
        {
          if ids[i] == id {
            return true;
          }
          assert ids[..i + 1] == ids[..i] + [ids[i]];
        }
        assert ids[..|ids|] == ids;
      }
      warm := false;
    }

    function TargetSize(spec: PoolSpec): int {
      if spec.template in sizes then sizes[spec.template] else size
    }

    /** How many pods a refill asks for, and with which labels; creating pod number `fails` fails. */
    method Fill(spec: PoolSpec, ids: nat -> string, fails: nat) returns (created: seq<map<string, string>>)
      ensures var target := if spec.template in sizes then sizes[spec.template] else size;
              var missing := target - |IdsOf(pool, Key(spec))|;
              |created| == if target <= 0 || missing <= 0 then 0 else if fails < missing then fails else missing
      ensures forall k :: 0 <= k < |created| ==> created[k] == LabelsOf(WARM_PREFIX + ids(k), spec.template, spec.capabilities)
    {
      created := [];
      var target := TargetSize(spec);
      if target <= 0 {
        return;
      }
      var key := Key(spec);
      var needed := target - (if key in pool then |pool[key]| else 0);
      var i := 0;
      while i < needed
        invariant 0 <= i == |created| <= fails && (i == 0 || i <= needed)
        invariant forall k :: 0 <= k < i ==> created[k] == LabelsOf(WARM_PREFIX + ids(k), spec.template, spec.capabilities)
      {
        if i == fails {
          return;
        }
        var labels := PodLabels(WARM_PREFIX + ids(i), spec.template, spec.capabilities);
        created := created + [labels];
        i := i + 1;
      }
    }

    ghost predicate Describes(s: PoolSpec, key: string, d: Detail)
      reads this
    {
      Key(s) == key &&
      d == Detail(s.template, s.capabilities, |IdsOf(pool, key)|, if s.template in sizes then sizes[s.template] else size)
    }

    method Status() returns (result: map<string, Detail>)
      ensures result.Keys == SpecKeys(specs) + pool.Keys
      ensures forall key :: key in result && key !in SpecKeys(specs) ==> result[key] == Detail(key, [], |IdsOf(pool, key)|, 0)
      ensures forall key :: key in SpecKeys(specs) ==> exists s :: s in specs && Describes(s, key, result[key])
      ensures AvailableOver(result.Keys, result) == SumOver(pool.Keys, pool)
    {
      hide Key, Describes, AvailableOver, SumOver, SpecKeys;
      result := StatusOfSpecs();
      ghost var ofSpecs := result;
      var left := pool.Keys;
      while left != {}
        invariant left <= pool.Keys && result.Keys == ofSpecs.Keys + (pool.Keys - left)
        invariant forall key :: key in ofSpecs ==> result[key] == ofSpecs[key]
        invariant forall key :: key in result && key !in ofSpecs ==> result[key] == Detail(key, [], |IdsOf(pool, key)|, 0)
        decreases left
      {
        var key :| key in left;
        left := left - {key};
        if key in result {
          continue;
        }
        result := result[key := Detail(key, [], |pool[key]|, 0)];
      }
      forall key | key in result ensures result[key].available == |IdsOf(pool, key)| {
        if key in ofSpecs {
          DescribesAvailable(key, result[key]);
        }
      }
      AvailableIsSum(result.Keys, result, pool);
      StatusAccountsForAll(result.Keys, pool);
    }

    lemma DescribesAvailable(key: string, d: Detail)
      requires exists s :: s in specs && Describes(s, key, d)
      ensures d.available == |IdsOf(pool, key)|
    {}

    /** The configured pools. */
    method StatusOfSpecs() returns (result: map<string, Detail>)
      ensures result.Keys == SpecKeys(specs)
      ensures forall key :: key in result ==> exists s :: s in specs && Describes(s, key, result[key])
    {
      hide Key;
      result := map[];
      for i := 0 to |specs|
        invariant result.Keys == SpecKeys(specs[..i])
        invariant forall key :: key in result ==> exists s :: s in specs[..i] && Describes(s, key, result[key])
      {
        var spec := specs[i];
        assert specs[..i + 1] == specs[..i] + [spec];
        var key := Key(spec);
        var available := if key in pool then |pool[key]| else 0;
        result := result[key := Detail(spec.template, spec.capabilities, available, TargetSize(spec))];
        assert Describes(spec, key, result[key]);
      }
      assert specs[..|specs|] == specs;
    }
  }

  function SpecKeys(specs: seq<PoolSpec>): set<string> {
    set s | s in specs :: Key(s)
  }

  /** The agent's glue: watch events with their callback, and the warm path of provisioning. */
  class Agent {
    const podMgr: PodManager
    const pool: Pool

    constructor (pool: Pool)
      ensures this.pool == pool && podMgr == pool.podMgr
    {
      this.pool := pool;
      podMgr := pool.podMgr;
    }

    ghost predicate Valid()
      reads this
    {
      podMgr == pool.podMgr
    }

    method OnWatchDeleted(id: string)
      requires Valid()
      modifies podMgr
      ensures pool.Model() == Apply(old(pool.Model()), Event.Deleted(id)) && podMgr.pods == old(podMgr.pods) - {id}
    {
      podMgr.Delete(id);
    }

    /** Tells whether the callback went on to an ordinary sandbox. */
    method OnWatchUpdated(id: string, info: PodInfo, connects: bool) returns (ordinary: bool)
      requires Valid()
      modifies podMgr, pool`pool, pool`marked
      ensures pool.Model() == Apply(old(pool.Model()), Updated(id, info, connects))
      ensures ordinary == ReachesSandbox(old(pool.Model()), Updated(id, info, connects))
    {
      ordinary := false;
      var fires := podMgr.WatchUpdated(id, info);
      if fires {
        var warm := pool.IsWarm(id);
        if warm {
          return;
        }
        if WARM_PREFIX <= id {
          if id in podMgr.pods {
            if !connects {
              return;
            }
            var pod := podMgr.pods[id];
            var normal := NormalizeCapabilities(pod.capabilities);
            pool.MarkReady(id, Key(PoolSpec(pod.template, normal)));
          }
          return;
        }
        ordinary := true;
      }
    }

    method ClaimFor(template: string, caps: seq<string>, newId: string) returns (warm: Option<PodInfo>)
      requires Valid()
      modifies podMgr, pool`pool, pool`claimed
      ensures pool.Model() == Apply(old(pool.Model()), Claim(template, caps, newId))
      ensures warm.None? <==> pool.Model().claimed == old(pool.Model().claimed)
      ensures warm.Some? ==> warm.value == old(podMgr.pods)[pool.claimed[|pool.claimed| - 1].id]
    {
      var id := pool.ClaimId(template, caps);
      if id.Some? {
        if id.value in podMgr.pods {
          warm := Some(podMgr.pods[id.value]);
          podMgr.RemapPod(id.value, newId);
          return;
        }
      }
      warm := None;
    }
  }

  // ---------- Every run ----------

  ghost function Run(events: seq<Event>): State {
    if events == [] then INITIAL else Apply(Run(events[..|events| - 1]), events[|events| - 1])
  }

  /** What a history says about one pool, in order. */
  function Under(key: string, log: seq<Entry>): seq<string> {
    if log == [] then []
    else
      var before, last := Under(key, log[..|log| - 1]), log[|log| - 1];
      if last.key == key then before + [last.id] else before
  }

  /** No id has two slots, within one pool or across pools. */
  ghost predicate OneSlotEach(pool: map<string, seq<string>>) {
    && (forall key :: key in pool ==> NoRepeats(pool[key]))
    && (forall k1, k2, id :: k1 in pool && k2 in pool && id in pool[k1] && id in pool[k2] ==> k1 == k2)
  }

  /** xs is ys with some elements left out. */
  predicate Subsequence(xs: seq<string>, ys: seq<string>) {
    xs == [] ||
    (ys != [] &&
     (Subsequence(xs, ys[..|ys| - 1]) ||
      (xs[|xs| - 1] == ys[|ys| - 1] && Subsequence(xs[..|xs| - 1], ys[..|ys| - 1]))))
  }

  /** Everything marked in a pool is still there or was claimed, and the pool keeps the order of marking. */
  ghost predicate Conserved(st: State, key: string) {
    && multiset(Under(key, st.marked)) == multiset(IdsOf(st.pool, key)) + multiset(Under(key, st.claimed))
    && Subsequence(IdsOf(st.pool, key), Under(key, st.marked))
  }

  ghost predicate Inv(st: State) {
    OneSlotEach(st.pool) && forall key :: Conserved(st, key)
  }

  lemma UnderMore(key: string, log: seq<Entry>, e: Entry)
    ensures Under(key, log + [e]) == if e.key == key then Under(key, log) + [e.id] else Under(key, log)
  {
    assert (log + [e])[..|log|] == log;
  }

  lemma SubsequenceMore(xs: seq<string>, ys: seq<string>, x: string)
    requires Subsequence(xs, ys)
    ensures Subsequence(xs + [x], ys + [x])
  {
    assert (xs + [x])[..|xs|] == xs && (ys + [x])[..|ys|] == ys;
  }

  lemma {:induction false} SubsequenceWithout(xs: seq<string>, ys: seq<string>, i: nat)
    requires Subsequence(xs, ys) && i < |xs|
    ensures Subsequence(xs[..i] + xs[i + 1..], ys)
    decreases |ys|
  {
    var less, n, front := xs[..i] + xs[i + 1..], |xs| - 1, ys[..|ys| - 1];
    if Subsequence(xs, front) {
      SubsequenceWithout(xs, front, i);
    } else if i == n {
      assert less == xs[..n];
    } else {
      SubsequenceWithout(xs[..n], front, i);
      assert less[..|less| - 1] == xs[..n][..i] + xs[..n][i + 1..];
    }
  }

  lemma MarkedConserves(st: State, id: string, key: string, k: string)
    requires Conserved(st, k)
    ensures Conserved(Marked(st, id, key), k)
  {
    hide Subsequence, Under;
    UnderMore(k, st.marked, Entry(key, id));
    if k == key {
      SubsequenceMore(IdsOf(st.pool, key), Under(key, st.marked), id);
    }
  }

  lemma MarkedOneSlotEach(pool: map<string, seq<string>>, id: string, key: string)
    requires OneSlotEach(pool) && !Warm(pool, id)
    ensures OneSlotEach(pool[key := IdsOf(pool, key) + [id]])
  {
    assert key in pool ==> id !in pool[key];
  }

  lemma MarkedKeepsInv(st: State, id: string, key: string)
    requires Inv(st) && !Warm(st.pool, id)
    ensures Inv(Marked(st, id, key))
  {
    hide Conserved, OneSlotEach, Warm;
    MarkedOneSlotEach(st.pool, id, key);
    forall k ensures Conserved(Marked(st, id, key), k) {
      MarkedConserves(st, id, key, k);
    }
  }

  lemma TakingConserves(ids: seq<string>, marked: seq<string>, claimed: seq<string>, i: nat)
    requires i < |ids| && multiset(marked) == multiset(ids) + multiset(claimed) && Subsequence(ids, marked)
    ensures var rest := ids[..i] + ids[i + 1..];
            multiset(marked) == multiset(rest) + multiset(claimed + [ids[i]]) && Subsequence(rest, marked)
  {
    SubsequenceWithout(ids, marked, i);
    hide Subsequence;
    assert ids == ids[..i] + [ids[i]] + ids[i + 1..];
    assert multiset(ids) == multiset(ids[..i]) + multiset{ids[i]} + multiset(ids[i + 1..]);
  }

  lemma ClaimedIs(st: State, key: string, newId: string)
    ensures var ids, st' := IdsOf(st.pool, key), Claimed(st, key, newId);
            var i := FirstReady(ids, st.pods);
            if i == |ids| then st' == st
            else st'.pool == st.pool[key := ids[..i] + ids[i + 1..]] && st'.marked == st.marked
                   && st'.claimed == st.claimed + [Entry(key, ids[i])]
  {}

  lemma ClaimedConserves(st: State, key: string, newId: string, k: string)
    requires Conserved(st, k)
    ensures Conserved(Claimed(st, key, newId), k)
  {
    hide Subsequence, Under, Claimed, FirstReady;
    var ids := IdsOf(st.pool, key);
    var i := FirstReady(ids, st.pods);
    ClaimedIs(st, key, newId);
    if i < |ids| {
      UnderMore(k, st.claimed, Entry(key, ids[i]));
      if k == key {
        TakingConserves(ids, Under(key, st.marked), Under(key, st.claimed), i);
        assert IdsOf(Claimed(st, key, newId).pool, k) == ids[..i] + ids[i + 1..];
      } else {
        assert IdsOf(Claimed(st, key, newId).pool, k) == IdsOf(st.pool, k);
      }
    }
  }

  lemma ClaimedOneSlotEach(pool: map<string, seq<string>>, key: string, i: nat)
    requires OneSlotEach(pool) && i < |IdsOf(pool, key)|
    ensures var ids := IdsOf(pool, key); OneSlotEach(pool[key := ids[..i] + ids[i + 1..]])
  {
    var ids := IdsOf(pool, key);
    var rest := ids[..i] + ids[i + 1..];
    assert forall x :: x in rest ==> x in ids;
    assert NoRepeats(rest);
  }

  lemma ClaimedKeepsInv(st: State, key: string, newId: string)
    requires Inv(st)
    ensures Inv(Claimed(st, key, newId))
  {
    hide Conserved, OneSlotEach, Remapped;
    var ids := IdsOf(st.pool, key);
    var i := FirstReady(ids, st.pods);
    if i < |ids| {
      ClaimedOneSlotEach(st.pool, key, i);
    }
    forall k ensures Conserved(Claimed(st, key, newId), k) {
      ClaimedConserves(st, key, newId, k);
    }
  }

  /** In every run: one slot per id, nothing lost or duplicated, and every pool in order of marking. */
  lemma {:induction false} PoolsAreSound(events: seq<Event>)
    ensures OneSlotEach(Run(events).pool)
    ensures forall key :: Conserved(Run(events), key)
  {
    if events != [] {
      var st, e := Run(events[..|events| - 1]), events[|events| - 1];
      PoolsAreSound(events[..|events| - 1]);
      match e
      case Updated(id, info, connects) =>
        var st' := st.(pods := st.pods[id := info]);
        assert forall key :: Conserved(st, key) ==> Conserved(st', key);
        if Fires(st, e) && !Warm(st'.pool, id) && WARM_PREFIX <= id && connects {
          MarkedKeepsInv(st', id, PoolKeyFor(info.template, info.capabilities));
        }
      case Claim(template, caps, newId) =>
        ClaimedKeepsInv(st, PoolKeyFor(template, caps), newId);
      case _ =>
        assert forall key :: Conserved(st, key) ==> Conserved(Apply(st, e), key);
    } else {
      assert multiset(Under("", [])) == multiset{};
      assert forall key :: Conserved(INITIAL, key);
    }
  }

  /** A claim gets an id of exactly its own key: the earliest marked one that is still there and ready. */
  lemma ClaimTakesEarliestReady(events: seq<Event>, template: string, caps: seq<string>, newId: string)
    returns (i: nat)
    ensures var st := Run(events);
            var st' := Apply(st, Claim(template, caps, newId));
            var key := PoolKeyFor(template, caps);
            var ids := IdsOf(st.pool, key);
            && i <= |ids| && Subsequence(ids, Under(key, st.marked))
            && (forall j :: 0 <= j < i ==> !Ready(st.pods, ids[j]))
            && (i == |ids| ==> st' == st)
            && (i < |ids| ==>
                  && Ready(st.pods, ids[i])
                  && st'.claimed == st.claimed + [Entry(key, ids[i])]
                  && IdsOf(st'.pool, key) == ids[..i] + ids[i + 1..]
                  && (forall k :: k != key ==> IdsOf(st'.pool, k) == IdsOf(st.pool, k)))
  {
    hide Run, Subsequence, Under, Claimed, FirstReady, PoolKeyFor, OneSlotEach;
    PoolsAreSound(events);
    var st, key := Run(events), PoolKeyFor(template, caps);
    assert Conserved(st, key);
    ClaimedIs(st, key, newId);
    i := FirstReady(IdsOf(st.pool, key), st.pods);
  }

  /** The callback fires on exactly the watch events that raise the cached ready flag of their pod. */
  lemma FiresOnRisingEdge(st: State, e: Event)
    requires e.Updated?
    ensures Fires(st, e) <==> !Ready(st.pods, e.id) && Ready(Apply(st, e).pods, e.id)
    ensures forall id :: id != e.id ==> (Ready(Apply(st, e).pods, id) <==> Ready(st.pods, id))
  {}

  // ---------- After a claim ----------

  predicate Reports(e: Event, id: string) {
    e.Updated? && e.id == id
  }

  /** The watch reports the pod ready, after the cache had it as not ready or not at all, and its sidecar answers. */
  predicate PutsInPool(st: State, e: Event, id: string) {
    Reports(e, id) && e.info.ready && e.connects && !Ready(st.pods, id) && WARM_PREFIX <= id
  }

  lemma ClaimDoesNotWarm(st: State, key: string, newId: string, id: string)
    requires !Warm(st.pool, id)
    ensures !Warm(Claimed(st, key, newId).pool, id)
  {
    hide Remapped;
    var ids := IdsOf(st.pool, key);
    var i := FirstReady(ids, st.pods);
    if i < |ids| {
      assert id !in ids;
      assert forall x :: x in ids[..i] + ids[i + 1..] ==> x in ids;
    }
  }

  lemma MarkedIsWarm(st: State, id: string, key: string, other: string)
    ensures Warm(Marked(st, id, key).pool, id)
    ensures other != id ==> (Warm(Marked(st, id, key).pool, other) <==> Warm(st.pool, other))
  {
    var st' := Marked(st, id, key);
    assert id in st'.pool[key];
    if other != id && Warm(st.pool, other) {
      var k :| k in st.pool && other in st.pool[k];
      assert other in st'.pool[k];
    }
  }

  /** An id that is in no pool gets into one by exactly these events: being claimed before makes no difference. */
  lemma WarmExactlyAfter(st: State, e: Event, id: string)
    requires !Warm(st.pool, id)
    ensures Warm(Apply(st, e).pool, id) <==> PutsInPool(st, e, id)
  {
    hide Warm, Marked, Claimed;
    match e
    case Updated(other, info, connects) =>
      var st' := st.(pods := st.pods[other := info]);
      MarkedIsWarm(st', other, PoolKeyFor(info.template, info.capabilities), id);
    case Claim(template, caps, newId) =>
      ClaimDoesNotWarm(st, PoolKeyFor(template, caps), newId, id);
    case _ =>
  }

  /** A claimed id is out of every pool at once. */
  lemma ClaimEndsWarmth(st: State, template: string, caps: seq<string>, newId: string)
    requires Inv(st)
    ensures var st' := Apply(st, Claim(template, caps, newId));
            st'.claimed != st.claimed ==>
              var id := st'.claimed[|st'.claimed| - 1].id;
              Warm(st.pool, id) && !Warm(st'.pool, id) && (id != newId ==> id !in st'.pods)
  {
    hide Conserved;
    var key := PoolKeyFor(template, caps);
    var ids := IdsOf(st.pool, key);
    var i := FirstReady(ids, st.pods);
    if i < |ids| {
      assert ids[i] in st.pool[key];
      var rest := ids[..i] + ids[i + 1..];
      assert ids[i] !in rest;
    }
  }

  ghost predicate WarmAt(events: seq<Event>, k: nat, id: string)
    requires k <= |events|
  {
    Warm(Run(events[..k]).pool, id)
  }

  ghost predicate PutAt(events: seq<Event>, k: nat, id: string)
    requires k < |events|
  {
    PutsInPool(Run(events[..k]), events[k], id)
  }

  lemma PrefixAgrees(events: seq<Event>, k: nat, m: nat, id: string)
    requires k <= m <= |events|
    ensures WarmAt(events[..m], k, id) <==> WarmAt(events, k, id)
    ensures k < m ==> (PutAt(events[..m], k, id) <==> PutAt(events, k, id))
  {
    assert events[..m][..k] == events[..k];
  }

  lemma StepAt(events: seq<Event>, k: nat, id: string)
    requires k < |events| && !WarmAt(events, k, id)
    ensures WarmAt(events, k + 1, id) <==> PutAt(events, k, id)
  {
    hide Warm, PutsInPool, Apply;
    assert events[..k + 1] == events[..k] + [events[k]];
    RunMore(events[..k], events[k]);
    WarmExactlyAfter(Run(events[..k]), events[k], id);
  }

  /**
   Over every run from a moment at which an id is in no pool, say right after its claim: it is in a pool again at some
   later moment exactly when one of those events occurs. Reports that find it not ready, or out of reach, do not do it.
   */
  lemma {:induction false} WarmAgainExactly(events: seq<Event>, n: nat, id: string)
    requires n <= |events| && !WarmAt(events, n, id)
    ensures (exists k :: n < k <= |events| && WarmAt(events, k, id)) <==> exists k :: n <= k < |events| && PutAt(events, k, id)
  {
    hide WarmAt, PutAt;
    if n < |events| {
      var m := |events| - 1;
      var before := events[..m];
      forall k | 0 <= k <= m
        ensures WarmAt(before, k, id) <==> WarmAt(events, k, id)
        ensures k < m ==> (PutAt(before, k, id) <==> PutAt(events, k, id))
      {
        PrefixAgrees(events, k, m, id);
      }
      WarmAgainExactly(before, n, id);
      if !WarmAt(events, m, id) {
        StepAt(events, m, id);
      } else {
        assert m > n && WarmAt(before, m, id);
      }
    }
  }

  /** It stays out until a watch event reports that very pod again. */
  lemma StaysClaimed(events: seq<Event>, n: nat, id: string)
    requires n <= |events| && !Warm(Run(events[..n]).pool, id)
    requires forall k :: n <= k < |events| ==> !Reports(events[k], id)
    ensures !Warm(Run(events).pool, id)
  {
    hide Run, Warm, Reports, PutAt;
    forall k | n <= k < |events| ensures !PutAt(events, k, id) {
      PutIsReport(events, k, id);
    }
    assert events[..|events|] == events;
    WarmAgainExactly(events, n, id);
    assert !WarmAt(events, |events|, id);
  }

  lemma PutIsReport(events: seq<Event>, k: nat, id: string)
    requires k < |events|
    ensures PutAt(events, k, id) ==> Reports(events[k], id)
  {
    hide Run;
  }

  /**
   A claimed pod still carries its warm label, so a report of it is taken for a new warm pod: it is in a pool again
   exactly when the event finds it ready and reachable, and the cache does not have it as ready already.
   */
  lemma ComesBackWhenReported(st: State, id: string, info: PodInfo, connects: bool)
    requires !Warm(st.pool, id) && WARM_PREFIX <= id
    ensures Warm(Apply(st, Updated(id, info, connects)).pool, id) <==> info.ready && connects && !Ready(st.pods, id)
  {
    WarmExactlyAfter(st, Updated(id, info, connects), id);
  }

  function CountId(log: seq<Entry>, id: string): nat {
    if log == [] then 0 else CountId(log[..|log| - 1], id) + (if log[|log| - 1].id == id then 1 else 0)
  }

  lemma CountMore(log: seq<Entry>, e: Entry, id: string)
    ensures CountId(log + [e], id) == CountId(log, id) + (if e.id == id then 1 else 0)
  {
    assert (log + [e])[..|log|] == log;
  }

  /** How often the id was put in a pool. */
  ghost function TimesPut(events: seq<Event>, id: string): nat {
    if events == [] then 0
    else
      var before := events[..|events| - 1];
      var st := Run(before);
      TimesPut(before, id) + (if !Warm(st.pool, id) && PutsInPool(st, events[|events| - 1], id) then 1 else 0)
  }

  lemma CountsStep(st: State, e: Event, id: string)
    requires Inv(st)
    ensures var st' := Apply(st, e);
            CountId(st'.claimed, id) + (if Warm(st'.pool, id) then 1 else 0) ==
            CountId(st.claimed, id) + (if Warm(st.pool, id) || PutsInPool(st, e, id) then 1 else 0)
  {
    hide Inv, PutsInPool, CountId;
    if !Warm(st.pool, id) {
      WarmExactlyAfter(st, e, id);
    }
    match e
    case Updated(other, info, connects) =>
      hide Warm;
      MarkedIsWarm(st.(pods := st.pods[other := info]), other, PoolKeyFor(info.template, info.capabilities), id);
    case Claim(template, caps, newId) =>
      hide Warm, Apply;
      ClaimCounts(st, template, caps, newId, id);
    case _ =>
  }

  lemma ClaimCounts(st: State, template: string, caps: seq<string>, newId: string, id: string)
    requires Inv(st)
    ensures var st' := Apply(st, Claim(template, caps, newId));
            CountId(st'.claimed, id) + (if Warm(st'.pool, id) then 1 else 0) ==
            CountId(st.claimed, id) + (if Warm(st.pool, id) then 1 else 0)
  {
    hide Inv, CountId;
    var key := PoolKeyFor(template, caps);
    var ids := IdsOf(st.pool, key);
    var i := FirstReady(ids, st.pods);
    if i < |ids| {
      var st' := Claimed(st, key, newId);
      CountMore(st.claimed, Entry(key, ids[i]), id);
      ClaimEndsWarmth(st, template, caps, newId);
      assert st'.claimed[|st'.claimed| - 1].id == ids[i];
      if id != ids[i] {
        ClaimLeavesOthers(st, key, newId, id);
      }
    }
  }

  lemma ClaimLeavesOthers(st: State, key: string, newId: string, id: string)
    requires var ids := IdsOf(st.pool, key); var i := FirstReady(ids, st.pods); i < |ids| && id != ids[i]
    ensures Warm(Claimed(st, key, newId).pool, id) <==> Warm(st.pool, id)
  {
    hide Remapped;
    var ids := IdsOf(st.pool, key);
    var i := FirstReady(ids, st.pods);
    var rest := ids[..i] + ids[i + 1..];
    assert ids == ids[..i] + [ids[i]] + ids[i + 1..];
    assert id in rest <==> id in ids;
    var pool' := Claimed(st, key, newId).pool;
    assert pool' == st.pool[key := rest];
    if Warm(st.pool, id) {
      var k :| k in st.pool && id in st.pool[k];
      assert k in pool' && id in pool'[k];
    }
    if Warm(pool', id) {
      var k :| k in pool' && id in pool'[k];
      assert k in st.pool && id in st.pool[k];
    }
  }

  /**
   In every run an id has been claimed exactly as often as it was put in a pool, less once if it is in one now: one pod
   is given out twice exactly when such an event puts it back after a claim and a claim reaches it again.
   */
  lemma {:induction false} ClaimedAsOftenAsPut(events: seq<Event>, id: string)
    ensures CountId(Run(events).claimed, id) + (if Warm(Run(events).pool, id) then 1 else 0) == TimesPut(events, id)
  {
    if events == [] {
      assert CountId([], id) == 0;
    } else {
      hide Apply, Warm, CountId, PutsInPool;
      var before, last := events[..|events| - 1], events[|events| - 1];
      ClaimedAsOftenAsPut(before, id);
      PoolsAreSound(before);
      RunMore(before, last);
      assert before + [last] == events;
      CountsStep(Run(before), last, id);
    }
  }

  lemma ReportedIsMarked(st: State, id: string, info: PodInfo)
    requires WARM_PREFIX <= id && info.ready && !Warm(st.pool, id) && !Ready(st.pods, id)
    ensures var key := PoolKeyFor(info.template, info.capabilities);
            Apply(st, Updated(id, info, true)) ==
            State(st.pods[id := info], st.pool[key := IdsOf(st.pool, key) + [id]], st.marked + [Entry(key, id)], st.claimed)
  {}

  lemma OnlyIdIsClaimed(st: State, template: string, caps: seq<string>, id: string, newId: string)
    requires IdsOf(st.pool, PoolKeyFor(template, caps)) == [id] && Ready(st.pods, id)
    ensures var key := PoolKeyFor(template, caps);
            Apply(st, Claim(template, caps, newId)) ==
            State(Remapped(st.pods, id, newId), st.pool[key := []], st.marked, st.claimed + [Entry(key, id)])
  {
    assert [id][..0] + [id][1..] == [];
  }

  lemma RunMore(events: seq<Event>, e: Event)
    ensures Run(events + [e]) == Apply(Run(events), e)
  {
    assert (events + [e])[..|events|] == events;
  }

  /** So one pod can serve two sandboxes: ready, claimed, reported once more, claimed again. */
  lemma OnePodForTwoSandboxes(id: string, info: PodInfo, first: string, second: string) returns (events: seq<Event>)
    requires WARM_PREFIX <= id && info.ready && first != second && first != id && second != id
    ensures var up := Updated(id, info, true);
            events == [up, Claim(info.template, info.capabilities, first), up, Claim(info.template, info.capabilities, second)]
    ensures var e := Entry(PoolKeyFor(info.template, info.capabilities), id);
            Run(events).claimed == [e, e]
    ensures var pods := Run(events).pods;
            first in pods && second in pods && pods[first].podName == pods[second].podName == info.podName
  {
    var template, caps := info.template, info.capabilities;
    var up := Updated(id, info, true);
    RunMore([], up);
    ReportedIsMarked(INITIAL, id, info);
    var s1 := Run([] + [up]);
    RunMore([] + [up], Claim(template, caps, first));
    OnlyIdIsClaimed(s1, template, caps, id, first);
    var s2 := Run([] + [up] + [Claim(template, caps, first)]);
    RunMore([] + [up] + [Claim(template, caps, first)], up);
    ReportedIsMarked(s2, id, info);
    var s3 := Run([] + [up] + [Claim(template, caps, first)] + [up]);
    RunMore([] + [up] + [Claim(template, caps, first)] + [up], Claim(template, caps, second));
    OnlyIdIsClaimed(s3, template, caps, id, second);
    events := [] + [up] + [Claim(template, caps, first)] + [up] + [Claim(template, caps, second)];
  }

  // ---------- Refilled pods return to the pool that ordered them ----------

  /** A pod made by Fill for a spec in normal form joins the end of that spec's own pool when it gets ready. */
  lemma FilledPodJoinsItsPool(st: State, id: string, spec: PoolSpec, readBack: seq<string>, info: PodInfo)
    requires IsNormal(spec.capabilities) && WARM_PREFIX <= id && !Warm(st.pool, id) && !Ready(st.pods, id)
    requires var labels := LabelsOf(id, spec.template, spec.capabilities);
             Lists(readBack, CapsIn(labels.Keys)) && info.ready && info.capabilities == readBack
               && TEMPLATE_LABEL in labels && info.template == labels[TEMPLATE_LABEL]
    ensures var st' := Apply(st, Updated(id, info, true));
            st'.pool == st.pool[Key(spec) := IdsOf(st.pool, Key(spec)) + [id]]
  {
    PodReturnsToItsPool(id, spec, readBack);
  }

  // ---------- Status ----------

  /** The sum of the sizes of the pools with these keys, taken in any order. */
  ghost function SumOver(keys: set<string>, pool: map<string, seq<string>>): nat {
    if keys == {} then 0
    else
      var key :| key in keys;
      |IdsOf(pool, key)| + SumOver(keys - {key}, pool)
  }

  lemma {:induction false} SumWithout(keys: set<string>, pool: map<string, seq<string>>, key: string)
    requires key in keys
    ensures SumOver(keys, pool) == |IdsOf(pool, key)| + SumOver(keys - {key}, pool)
    decreases |keys|
  {
    var first :| first in keys && SumOver(keys, pool) == |IdsOf(pool, first)| + SumOver(keys - {first}, pool);
    if first != key {
      SumWithout(keys - {first}, pool, key);
      SumWithout(keys - {key}, pool, first);
      assert keys - {first} - {key} == keys - {key} - {first};
    }
  }

  /** What Status says is available, over all the pools it shows. */
  ghost function AvailableOver(keys: set<string>, result: map<string, Detail>): nat
    requires keys <= result.Keys
  {
    if keys == {} then 0
    else
      var key :| key in keys;
      result[key].available + AvailableOver(keys - {key}, result)
  }

  lemma {:induction false} AvailableIsSum(keys: set<string>, result: map<string, Detail>, pool: map<string, seq<string>>)
    requires keys <= result.Keys && forall key :: key in keys ==> result[key].available == |IdsOf(pool, key)|
    ensures AvailableOver(keys, result) == SumOver(keys, pool)
  {
    if keys != {} {
      var key :| key in keys && AvailableOver(keys, result) == result[key].available + AvailableOver(keys - {key}, result);
      SumWithout(keys, pool, key);
      AvailableIsSum(keys - {key}, result, pool);
    }
  }

  /** Listing further pools that hold nothing does not change the total: Status accounts for every warm pod once. */
  lemma {:induction false} StatusAccountsForAll(shown: set<string>, pool: map<string, seq<string>>)
    requires pool.Keys <= shown
    ensures SumOver(shown, pool) == SumOver(pool.Keys, pool)
    decreases |shown|
  {
    if key :| key in shown && key !in pool {
      SumWithout(shown, pool, key);
      StatusAccountsForAll(shown - {key}, pool);
    } else {
      assert shown == pool.Keys;
    }
  }
}
