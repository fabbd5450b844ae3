/** The polling file watcher: every poll compares a fresh snapshot of a watched path with the one before. */
module FileWatcher {
  import opened Wrappers
  import Paths

  /** File path to modification time. */
  type Snapshot = map<string, int>

  datatype Kind = Created | Modified | Deleted

  datatype Event = Event(path: string, kind: Kind)

  // ---------- What one poll must report ----------

  function Change(prev: Snapshot, next: Snapshot, file: string): Option<Kind> {
    if file in next then
      if file !in prev then Some(Created)
      else if next[file] != prev[file] then Some(Modified)
      else None
    else if file in prev then Some(Deleted)
    else None
  }

  ghost function PathsOf(es: seq<Event>): set<string> {
    set e | e in es :: e.path
  }

  ghost predicate OncePerPath(es: seq<Event>) {
    forall i, j :: 0 <= i < j < |es| ==> es[i].path != es[j].path
  }

  /** One event for each changed file among `files`, with its change, and no other event. */
  ghost predicate Reports(es: seq<Event>, prev: Snapshot, next: Snapshot, files: set<string>) {
    && OncePerPath(es)
    && (forall e :: e in es ==> e.path in files && Change(prev, next, e.path) == Some(e.kind))
    && (forall f :: f in files && Change(prev, next, f).Some? ==> f in PathsOf(es))
  }

  /** A snapshot that fails counts as empty. */
  function Seen(seen: Option<Snapshot>): Snapshot {
    match seen case None => map[] case Some(s) => s
  }

  ghost predicate PollReports(es: seq<Event>, prev: Snapshot, seen: Option<Snapshot>) {
    Reports(es, prev, Seen(seen), prev.Keys + Seen(seen).Keys)
  }

  lemma ReportsMore(es: seq<Event>, e: Event, prev: Snapshot, next: Snapshot, files: set<string>)
    requires Reports(es, prev, next, files) && e.path !in files && Change(prev, next, e.path) == Some(e.kind)
    ensures Reports(es + [e], prev, next, files + {e.path})
  {
    forall f | f in files && Change(prev, next, f).Some? ensures f in PathsOf(es + [e]) {
      var before :| before in es && before.path == f;
      assert before in es + [e];
    }
    assert e in es + [e];
    assert forall i :: 0 <= i < |es| ==> es[i] in es;
  }

  // ---------- The watcher ----------

  function SnapshotOf(watches: map<string, Snapshot>, path: string): Snapshot {
    if path in watches then watches[path] else map[]
  }

  class Watcher {
    var watches: map<string, Snapshot>
    var emitted: seq<Event>

    const root: string

    constructor (root: string)
      ensures watches == map[] && emitted == [] && this.root == root
    {
      watches, emitted, this.root := map[], [], root;
    }

    /** A path that leaves the root, or cannot be read, is refused and changes nothing. */
    method Watch(path: string, snapshot: string -> Option<Snapshot>) returns (ok: bool)
      modifies this`watches
      ensures var resolved := Paths.WatcherResolve(root, path);
              && ok == (resolved.Ok? && snapshot(resolved.value).Some?)
              && watches == if ok then old(watches)[resolved.value := snapshot(resolved.value).value] else old(watches)
    {
      hide Paths.WatcherResolve;
      var resolved := Paths.WatcherResolve(root, path);
      if resolved.Err? {
        return false;
      }
      var seen := snapshot(resolved.value);
      if seen.None? {
        return false;
      }
      watches := watches[resolved.value := seen.value];
      return true;
    }

    /** The error of a path that leaves the root is ignored, and the empty path is forgotten instead. */
    method Unwatch(path: string)
      modifies this`watches
      ensures var resolved := Paths.WatcherResolve(root, path);
              watches == old(watches) - {if resolved.Ok? then resolved.value else ""}
    {
      hide Paths.WatcherResolve;
      var resolved := Paths.WatcherResolve(root, path);
      watches := watches - {if resolved.Ok? then resolved.value else ""};
    }

    /** One path's turn in a poll; `es` is what it reports. */
    method PollPath(path: string, seen: Option<Snapshot>) returns (ghost es: seq<Event>)
      modifies this
      ensures emitted == old(emitted) + es
      ensures PollReports(es, SnapshotOf(old(watches), path), seen)
      ensures watches == Polled(old(watches), path, seen)
    {
      es := [];
      if seen.None? {
        if path in watches {
          var gone := watches[path];
          es := EmitDeleted(gone, map[]);
          watches := watches[path := map[]];
        }
        return;
      }
      var oldSnapshot, newSnapshot := SnapshotOf(watches, path), seen.value;
      es := EmitCreatedAndModified(oldSnapshot, newSnapshot);
      ghost var more := EmitDeleted(oldSnapshot, newSnapshot);
      ReportsJoin(es, more, oldSnapshot, newSnapshot);
      es := es + more;
      watches := watches[path := newSnapshot];
    }

    /** Every watched path has one turn, in an order the source leaves open. */
    method PollAll(snapshot: string -> Option<Snapshot>) returns (ghost turns: seq<Step>)
      modifies this
      ensures watches == Refreshed(old(watches), old(watches).Keys, snapshot)
      ensures emitted == old(emitted) + EventsOf(turns)
      ensures AreTurns(turns, old(watches), old(watches).Keys, snapshot)
    {
      hide *;
      turns := [];
      var paths := watches.Keys;
      ghost var done: set<string> := {};
      NoTurns(watches, snapshot);
      while paths != {}
        invariant paths !! done && paths + done == old(watches).Keys
        invariant watches == Refreshed(old(watches), done, snapshot)
        invariant emitted == old(emitted) + EventsOf(turns)
        invariant AreTurns(turns, old(watches), done, snapshot)
      {
        var path :| path in paths;
        RefreshedMore(old(watches), done, path, snapshot);
        ghost var es := PollPath(path, snapshot(path));
        TurnIs(old(watches), path, snapshot, es);
        TurnsMore(turns, Step.Poll(path, snapshot(path), es), old(watches), done, snapshot);
        turns := turns + [Step.Poll(path, snapshot(path), es)];
        paths, done := paths - {path}, done + {path};
      }
      assert done == old(watches).Keys;
    }

    method EmitCreatedAndModified(oldSnapshot: Snapshot, newSnapshot: Snapshot) returns (ghost es: seq<Event>)
      modifies this`emitted
      ensures emitted == old(emitted) + es
      ensures Reports(es, oldSnapshot, newSnapshot, newSnapshot.Keys)
    {
      es := [];
      var left := newSnapshot.Keys;
      ghost var visited: set<string> := {};
      while left != {}
        invariant left !! visited && left + visited == newSnapshot.Keys
        invariant emitted == old(emitted) + es
        invariant Reports(es, oldSnapshot, newSnapshot, visited)
      {
        hide Reports;
        var file :| file in left;
        if file !in oldSnapshot {
          emitted := emitted + [Event(file, Created)];
          ReportsMore(es, Event(file, Created), oldSnapshot, newSnapshot, visited);
          es := es + [Event(file, Created)];
        } else if newSnapshot[file] != oldSnapshot[file] {
          emitted := emitted + [Event(file, Modified)];
          ReportsMore(es, Event(file, Modified), oldSnapshot, newSnapshot, visited);
          es := es + [Event(file, Modified)];
        } else {
          ReportsSkip(es, file, oldSnapshot, newSnapshot, visited);
        }
        left, visited := left - {file}, visited + {file};
      }
    }

    method EmitDeleted(oldSnapshot: Snapshot, newSnapshot: Snapshot) returns (ghost es: seq<Event>)
      modifies this`emitted
      ensures emitted == old(emitted) + es
      ensures Reports(es, oldSnapshot, newSnapshot, oldSnapshot.Keys - newSnapshot.Keys)
    {
      es := [];
      var left := oldSnapshot.Keys;
      ghost var visited: set<string> := {};
      while left != {}
        invariant left !! visited && left + visited == oldSnapshot.Keys
        invariant emitted == old(emitted) + es
        invariant Reports(es, oldSnapshot, newSnapshot, visited - newSnapshot.Keys)
      {
        hide Reports;
        var file :| file in left;
        if file !in newSnapshot {
          emitted := emitted + [Event(file, Deleted)];
          ReportsMore(es, Event(file, Deleted), oldSnapshot, newSnapshot, visited - newSnapshot.Keys);
          es := es + [Event(file, Deleted)];
          assert visited + {file} - newSnapshot.Keys == visited - newSnapshot.Keys + {file};
        } else {
          assert visited + {file} - newSnapshot.Keys == visited - newSnapshot.Keys;
        }
        left, visited := left - {file}, visited + {file};
      }
      assert visited == oldSnapshot.Keys;
    }
  }

  lemma ReportsSkip(es: seq<Event>, file: string, prev: Snapshot, next: Snapshot, files: set<string>)
    requires Reports(es, prev, next, files) && Change(prev, next, file) == None
    ensures Reports(es, prev, next, files + {file})
  {}

  lemma ReportsJoin(es: seq<Event>, more: seq<Event>, prev: Snapshot, next: Snapshot)
    requires Reports(es, prev, next, next.Keys) && Reports(more, prev, next, prev.Keys - next.Keys)
    ensures Reports(es + more, prev, next, prev.Keys + next.Keys)
  {
    forall f | f in prev.Keys + next.Keys && Change(prev, next, f).Some? ensures f in PathsOf(es + more) {
      var e :| (e in es || e in more) && e.path == f;
      assert e in es + more;
    }
    forall i, j | 0 <= i < |es| && 0 <= j < |more| ensures es[i].path != more[j].path {
      assert es[i] in es && more[j] in more;
    }
  }

  // ---------- Runs ----------

  /** A step of the watcher; a poll step carries the events it reported, whose order the source leaves open. */
  datatype Step =
    | Watch(path: string, snapshot: Snapshot)
    | Unwatch(path: string)
    | Poll(path: string, seen: Option<Snapshot>, es: seq<Event>)

  /** A poll that fails empties a watched path; one that succeeds replaces, or brings back, its snapshot. */
  function Polled(watches: map<string, Snapshot>, path: string, seen: Option<Snapshot>): map<string, Snapshot> {
    if seen.None? && path !in watches then watches else watches[path := Seen(seen)]
  }

  function Refreshed(watches: map<string, Snapshot>, done: set<string>, snapshot: string -> Option<Snapshot>)
    : map<string, Snapshot>
  {
    map path | path in watches :: if path in done then Seen(snapshot(path)) else watches[path]
  }

  ghost predicate IsTurn(t: Step, watches: map<string, Snapshot>, snapshot: string -> Option<Snapshot>) {
    && t.Poll? && t.path in watches && t.seen == snapshot(t.path)
    && PollReports(t.es, watches[t.path], t.seen)
  }

  /** One turn for each path of `done`, each reporting that path's changes. */
  ghost predicate AreTurns(turns: seq<Step>, watches: map<string, Snapshot>, done: set<string>,
                           snapshot: string -> Option<Snapshot>) {
    && (forall t :: t in turns ==> t.path in done && IsTurn(t, watches, snapshot))
    && (forall i, j :: 0 <= i < j < |turns| ==> turns[i].path != turns[j].path)
    && (forall path :: path in done ==> exists t :: t in turns && t.path == path)
  }

  lemma TurnsMore(turns: seq<Step>, t: Step, watches: map<string, Snapshot>, done: set<string>,
                  snapshot: string -> Option<Snapshot>)
    requires AreTurns(turns, watches, done, snapshot) && IsTurn(t, watches, snapshot) && t.path !in done
    ensures AreTurns(turns + [t], watches, done + {t.path}, snapshot)
    ensures EventsOf(turns + [t]) == EventsOf(turns) + t.es
  {
    hide IsTurn;
    var more := turns + [t];
    assert more[..|turns|] == turns && t.Poll? by {
      assert IsTurn(t, watches, snapshot);
      IsTurnIsPoll(t, watches, snapshot);
    }
    assert forall i :: 0 <= i < |turns| ==> turns[i] in turns;
    forall path | path in done + {t.path} ensures exists u :: u in more && u.path == path {
      if path != t.path {
        var u :| u in turns && u.path == path;
        assert u in more;
      } else {
        assert t in more;
      }
    }
  }

  lemma RefreshedMore(watches: map<string, Snapshot>, done: set<string>, path: string,
                      snapshot: string -> Option<Snapshot>)
    requires path in watches && path !in done
    ensures Polled(Refreshed(watches, done, snapshot), path, snapshot(path)) == Refreshed(watches, done + {path}, snapshot)
    ensures SnapshotOf(Refreshed(watches, done, snapshot), path) == SnapshotOf(watches, path)
  {
    assert path in Refreshed(watches, done, snapshot);
  }

  lemma NoTurns(watches: map<string, Snapshot>, snapshot: string -> Option<Snapshot>)
    ensures Refreshed(watches, {}, snapshot) == watches && AreTurns([], watches, {}, snapshot) && EventsOf([]) == []
  {}

  lemma TurnIs(watches: map<string, Snapshot>, path: string, snapshot: string -> Option<Snapshot>, es: seq<Event>)
    requires path in watches && PollReports(es, SnapshotOf(watches, path), snapshot(path))
    ensures IsTurn(Step.Poll(path, snapshot(path), es), watches, snapshot)
  {}

  lemma IsTurnIsPoll(t: Step, watches: map<string, Snapshot>, snapshot: string -> Option<Snapshot>)
    requires IsTurn(t, watches, snapshot)
    ensures t.Poll?
  {}

  function EventsOf(turns: seq<Step>): seq<Event> {
    if turns == [] then []
    else
      var last := turns[|turns| - 1];
      EventsOf(turns[..|turns| - 1]) + if last.Poll? then last.es else []
  }

  function Apply(watches: map<string, Snapshot>, s: Step): map<string, Snapshot> {
    match s
    case Watch(path, snapshot) => watches[path := snapshot]
    case Unwatch(path) => watches - {path}
    case Poll(path, seen, _) => Polled(watches, path, seen)
  }

  function Run(steps: seq<Step>): map<string, Snapshot> {
    if steps == [] then map[] else Apply(Run(steps[..|steps| - 1]), steps[|steps| - 1])
  }

  /** Every poll reported what it had to. */
  ghost predicate IsRun(steps: seq<Step>) {
    steps == [] ||
    var before, last := steps[..|steps| - 1], steps[|steps| - 1];
    && IsRun(before)
    && (last.Poll? ==> PollReports(last.es, SnapshotOf(Run(before), last.path), last.seen))
  }

  lemma TurnsBefore(turns: seq<Step>, watches: map<string, Snapshot>, done: set<string>,
                    snapshot: string -> Option<Snapshot>)
    requires AreTurns(turns, watches, done, snapshot) && turns != []
    ensures var before, last := turns[..|turns| - 1], turns[|turns| - 1];
            && IsTurn(last, watches, snapshot) && last.path in done
            && AreTurns(before, watches, done - {last.path}, snapshot)
  {
    hide IsTurn;
    var before, last := turns[..|turns| - 1], turns[|turns| - 1];
    assert turns == before + [last] && last in turns;
    assert forall i :: 0 <= i < |before| ==> before[i] == turns[i];
    forall path | path in done - {last.path} ensures exists t :: t in before && t.path == path {
      var t :| t in turns && t.path == path;
      assert t in before;
    }
  }

  lemma NoneDone(watches: map<string, Snapshot>, done: set<string>, snapshot: string -> Option<Snapshot>)
    requires AreTurns([], watches, done, snapshot)
    ensures done == {} && Refreshed(watches, done, snapshot) == watches
  {}

  lemma OneMoreTurn(steps: seq<Step>, t: Step, watches: map<string, Snapshot>, done: set<string>,
                    snapshot: string -> Option<Snapshot>)
    requires IsRun(steps) && Run(steps) == Refreshed(watches, done, snapshot)
    requires IsTurn(t, watches, snapshot) && t.path !in done
    ensures IsRun(steps + [t]) && Run(steps + [t]) == Refreshed(watches, done + {t.path}, snapshot)
  {
    hide PollReports, Refreshed, Polled;
    assert (steps + [t])[..|steps|] == steps;
    RefreshedMore(watches, done, t.path, snapshot);
  }

  /** The turns of a whole poll, in whatever order, go on with any run and give the state the poll leaves behind. */
  lemma {:induction false} PollExtendsRun(steps: seq<Step>, turns: seq<Step>, done: set<string>,
                                          snapshot: string -> Option<Snapshot>)
    requires IsRun(steps) && AreTurns(turns, Run(steps), done, snapshot)
    ensures IsRun(steps + turns) && Run(steps + turns) == Refreshed(Run(steps), done, snapshot)
    decreases |turns|
  {
    hide *;
    var watches := Run(steps);
    if turns == [] {
      NoneDone(watches, done, snapshot);
      assert steps + turns == steps;
    } else {
      var before, last := turns[..|turns| - 1], turns[|turns| - 1];
      TurnsBefore(turns, watches, done, snapshot);
      PollExtendsRun(steps, before, done - {last.path}, snapshot);
      OneMoreTurn(steps + before, last, watches, done - {last.path}, snapshot);
      assert done - {last.path} + {last.path} == done;
      assert steps + turns == steps + before + [last];
    }
  }

  // ---------- Replay ----------

  /**
   What a listener holds after one event: it reads the time of a file that was created or modified, and drops one that
   was deleted. None when the event does not fit what it holds, or tells it nothing new.
   */
  function Hear(held: Snapshot, e: Event, now: Snapshot): Option<Snapshot> {
    match e.kind
    case Created => if e.path in held || e.path !in now then None else Some(held[e.path := now[e.path]])
    case Deleted => if e.path !in held || e.path in now then None else Some(held - {e.path})
    case Modified =>
      if e.path !in held || e.path !in now || held[e.path] == now[e.path] then None else Some(held[e.path := now[e.path]])
  }

  function HearAll(held: Snapshot, es: seq<Event>, now: Snapshot): Option<Snapshot> {
    if es == [] then Some(held)
    else
      var before := HearAll(held, es[..|es| - 1], now);
      if before.Some? then Hear(before.value, es[|es| - 1], now) else None
  }

  /** What is held while `es` is being heard: the files already reported are as in the new snapshot. */
  ghost function Between(prev: Snapshot, next: Snapshot, es: seq<Event>): Snapshot {
    map f | f in prev.Keys + next.Keys && f in (if f in PathsOf(es) then next.Keys else prev.Keys) ::
      if f in PathsOf(es) then next[f] else prev[f]
  }

  lemma HearOne(prev: Snapshot, next: Snapshot, heard: seq<Event>, e: Event)
    requires e.path !in PathsOf(heard) && Change(prev, next, e.path) == Some(e.kind)
    ensures Hear(Between(prev, next, heard), e, next) == Some(Between(prev, next, heard + [e]))
  {
    PathsMore(heard, e);
    hide PathsOf;
    var b, a := Between(prev, next, heard), Between(prev, next, heard + [e]);
    assert e.path in b <==> e.path in prev;
    assert e.path in a <==> e.path in next;
    assert forall f :: f != e.path ==> (f in a <==> f in b) && (f in a ==> a[f] == b[f]);
    match e.kind
    case Created => assert a == b[e.path := next[e.path]];
    case Deleted => assert a == b - {e.path};
    case Modified => assert a == b[e.path := next[e.path]];
  }

  /** The file is in both snapshots with one time, or in neither. */
  predicate Same(prev: Snapshot, next: Snapshot, file: string) {
    (file in prev <==> file in next) && (file in prev ==> prev[file] == next[file])
  }

  lemma NextReport(prev: Snapshot, seen: Option<Snapshot>, es: seq<Event>, n: nat)
    requires PollReports(es, prev, seen) && n < |es|
    ensures es[n].path !in PathsOf(es[..n]) && Change(prev, Seen(seen), es[n].path) == Some(es[n].kind)
  {
    hide Change;
    assert es[n] in es;
  }

  lemma Unreported(prev: Snapshot, seen: Option<Snapshot>, es: seq<Event>, f: string)
    requires PollReports(es, prev, seen) && f !in PathsOf(es)
    ensures Same(prev, Seen(seen), f)
  {}

  lemma {:induction false} HearPrefix(prev: Snapshot, seen: Option<Snapshot>, es: seq<Event>, n: nat)
    requires PollReports(es, prev, seen) && n <= |es|
    ensures HearAll(prev, es[..n], Seen(seen)) == Some(Between(prev, Seen(seen), es[..n]))
  {
    hide Change, Hear, PollReports;
    var next := Seen(seen);
    if n == 0 {
      assert Between(prev, next, []) == prev;
    } else {
      hide Between, PathsOf;
      HearPrefix(prev, seen, es, n - 1);
      var before, e := es[..n - 1], es[n - 1];
      assert es[..n][..n - 1] == before && es[..n] == before + [e];
      NextReport(prev, seen, es, n - 1);
      HearOne(prev, next, before, e);
    }
  }

  lemma PathsMore(es: seq<Event>, e: Event)
    ensures PathsOf(es + [e]) == PathsOf(es) + {e.path}
  {
    forall p | p in PathsOf(es) + {e.path} ensures p in PathsOf(es + [e]) {
      var x :| (x in es || x == e) && x.path == p;
      assert x in es + [e];
    }
  }

  /**
   The events of one poll, in whatever order they come, lead a listener that held the old files and times exactly to the
   new ones; each event fits what is held when it is heard, and tells something new.
   */
  lemma PollReplays(prev: Snapshot, seen: Option<Snapshot>, es: seq<Event>)
    requires PollReports(es, prev, seen)
    ensures HearAll(prev, es, Seen(seen)) == Some(Seen(seen))
  {
    hide PollReports, HearAll, PathsOf;
    HearPrefix(prev, seen, es, |es|);
    assert es[..|es|] == es;
    var next := Seen(seen);
    forall f | f !in PathsOf(es) ensures Same(prev, next, f) {
      Unreported(prev, seen, es, f);
    }
    assert Between(prev, next, es) == next;
  }

  lemma {:induction false} NothingFits(held: Snapshot, es: seq<Event>)
    requires HearAll(held, es, held).Some?
    ensures es == []
  {
    if es != [] {
      NothingFits(held, es[..|es| - 1]);
    }
  }

  /** A poll is silent exactly when nothing has changed. */
  lemma SilentExactly(prev: Snapshot, seen: Option<Snapshot>, es: seq<Event>)
    requires PollReports(es, prev, seen)
    ensures es == [] <==> Seen(seen) == prev
  {
    PollReplays(prev, seen, es);
    if Seen(seen) == prev {
      NothingFits(prev, es);
    }
  }

  /** What a listener to one path holds: told files and times when the watch starts, and following the events from there. */
  function Followed(steps: seq<Step>, path: string): Option<Snapshot> {
    if steps == [] then Some(map[])
    else
      var before, last := Followed(steps[..|steps| - 1], path), steps[|steps| - 1];
      if last.path != path then before
      else
        match last
        case Watch(_, snapshot) => Some(snapshot)
        case Unwatch(_) => Some(map[])
        case Poll(_, seen, es) => if before.Some? then HearAll(before.value, es, Seen(seen)) else None
  }

  /** After any run, following the events gives the current snapshot, files and times, for every path at once. */
  lemma {:induction false} EventsReplay(steps: seq<Step>, path: string)
    requires IsRun(steps)
    ensures Followed(steps, path) == Some(SnapshotOf(Run(steps), path))
  {
    if steps != [] {
      var before, last := steps[..|steps| - 1], steps[|steps| - 1];
      EventsReplay(before, path);
      if last.path != path {
        assert SnapshotOf(Run(steps), path) == SnapshotOf(Run(before), path);
      } else if last.Poll? {
        PollReplays(SnapshotOf(Run(before), path), last.seen, last.es);
      }
    }
  }

  /** In any run a poll reports a file exactly once if its entry changed since the path's last snapshot, else never. */
  lemma {:induction false} OneEventPerChange(steps: seq<Step>, n: nat, file: string)
    requires IsRun(steps) && n < |steps| && steps[n].Poll?
    ensures var s := steps[n]; var prev := SnapshotOf(Run(steps[..n]), s.path);
            |Select(s.es, (e: Event) => e.path == file)| == if Same(prev, Seen(s.seen), file) then 0 else 1
  {
    if n == |steps| - 1 {
      var s := steps[n];
      var prev := SnapshotOf(Run(steps[..n]), s.path);
      CountEvents(s.es, file);
      if file in PathsOf(s.es) {
        var e :| e in s.es && e.path == file;
      }
    } else {
      OneEventPerChange(steps[..|steps| - 1], n, file);
      assert steps[..|steps| - 1][..n] == steps[..n];
    }
  }

  function Select(es: seq<Event>, keep: Event -> bool): seq<Event> {
    if es == [] then []
    else
      var before := Select(es[..|es| - 1], keep);
      if keep(es[|es| - 1]) then before + [es[|es| - 1]] else before
  }

  lemma {:induction false} CountEvents(es: seq<Event>, file: string)
    requires OncePerPath(es)
    ensures |Select(es, (e: Event) => e.path == file)| == if file in PathsOf(es) then 1 else 0
  {
    if es != [] {
      var before, e := es[..|es| - 1], es[|es| - 1];
      CountEvents(before, file);
      PathsMore(before, e);
      assert es == before + [e];
      assert e.path !in PathsOf(before);
    }
  }
}
