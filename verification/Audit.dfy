/** The audit log: a bounded history with filtered, newest-first pages. */
module Audit {
  import opened Integers
  import opened Wrappers

  datatype Entry = Entry(timestamp: int, action: string, subject: string, role: string, status: int,
                         remoteIP: string, sandboxId: string)

  datatype QueryParams = QueryParams(limit: int64, offset: int64, action: string, subject: string)

  datatype QueryResult = QueryResult(entries: seq<Entry>, total: nat)

  /** strings.Contains */
  predicate Contains(s: string, part: string) {
    part <= s || (s != "" && Contains(s[1..], part))
  }

  predicate Matches(e: Entry, action: string, subject: string) {
    (action == "" || Contains(e.action, action)) && (subject == "" || e.subject == subject)
  }

  /** The matching entries, newest first. */
  function Newest(entries: seq<Entry>, action: string, subject: string): seq<Entry> {
    if entries == [] then []
    else if Matches(entries[|entries| - 1], action, subject) then
      [entries[|entries| - 1]] + Newest(entries[..|entries| - 1], action, subject)
    else Newest(entries[..|entries| - 1], action, subject)
  }

  /** The last min(n, capacity) of the entries added so far. */
  function Kept(history: seq<Entry>, capacity: nat): seq<Entry> {
    if |history| <= capacity then history else history[|history| - capacity..]
  }

  function Added(entries: seq<Entry>, capacity: nat, entry: Entry): seq<Entry> {
    (if |entries| >= capacity && entries != [] then entries[1..] else entries) + [entry]
  }

  function AddedAll(history: seq<Entry>, capacity: nat): seq<Entry> {
    if history == [] then []
    else Added(AddedAll(history[..|history| - 1], capacity), capacity, history[|history| - 1])
  }

  lemma AddedIs(entries: seq<Entry>, capacity: nat, entry: Entry)
    ensures |entries| >= capacity && entries != [] ==> Added(entries, capacity, entry) == entries[1..] + [entry]
    ensures |entries| < capacity ==> Added(entries, capacity, entry) == entries + [entry]
  {}

  /** However many entries are added, the store holds the last of them, as many as fit, in order. */
  lemma {:induction false} HoldsTheLast(history: seq<Entry>, capacity: nat)
    requires capacity >= 1 || history == []
    ensures AddedAll(history, capacity) == Kept(history, capacity)
  {
    if history != [] {
      var before, last := history[..|history| - 1], history[|history| - 1];
      HoldsTheLast(before, capacity);
      KeptMore(before, capacity, last);
      assert history == before + [last];
    }
  }

  lemma KeptMore(history: seq<Entry>, capacity: nat, entry: Entry)
    requires capacity >= 1
    ensures Added(Kept(history, capacity), capacity, entry) == Kept(history + [entry], capacity)
  {}

  /** The answer to a query; None is a slice out of range, which panics. */
  function Answer(entries: seq<Entry>, params: QueryParams): Option<QueryResult> {
    var found := Newest(entries, params.action, params.subject);
    var limit := if params.limit <= 0 then 50 else params.limit;
    if params.offset > |found| then Some(QueryResult([], |found|))
    else
      var sum := Wrap(params.offset + limit);
      var end := if sum > |found| then |found| else sum;
      if 0 <= params.offset <= end then Some(QueryResult(found[params.offset..end], |found|)) else None
  }

  class Store {
    var entries: seq<Entry>
    const maxSize: nat
    ghost var history: seq<Entry>

    ghost predicate Valid()
      reads this
    {
      entries == AddedAll(history, maxSize) && (maxSize == 0 ==> history == [])
    }

    constructor (maxSize: nat)
      ensures Valid() && history == [] && this.maxSize == maxSize
    {
      this.maxSize := maxSize;
      entries, history := [], [];
    }

    /** Dropping the oldest of no entries panics: a store without room takes none. */
    method Add(entry: Entry) returns (ok: bool)
      requires Valid()
      modifies this
      ensures Valid() && ok == (maxSize >= 1)
      ensures history == if ok then old(history) + [entry] else old(history)
      ensures entries == if ok then Added(old(entries), maxSize, entry) else old(entries)
    {
      hide Added;
      if |entries| >= maxSize {
        if |entries| < 1 {
          return false;
        }
        AddedIs(entries, maxSize, entry);
        entries := entries[1..];
      } else {
        AddedIs(entries, maxSize, entry);
      }
      entries := entries + [entry];
      assert (history + [entry])[..|history|] == history;
      history := history + [entry];
      return true;
    }

    method Query(params: QueryParams) returns (r: Option<QueryResult>)
      requires Valid()
      ensures r == Answer(Kept(history, maxSize), params)
    {
      HoldsTheLast(history, maxSize);
      var filtered := NewestFirst(params.action, params.subject);
      hide Newest, Kept, AddedAll;
      var total := |filtered|;
      var limit, offset := params.limit, params.offset;
      if limit <= 0 {
        limit := 50;
      }
      if offset > total {
        return Some(QueryResult([], total));
      }
      var end := Wrap(offset + limit);
      if end > total {
        end := total;
      }
      if !(0 <= offset <= end) {
        return None;
      }
      return Some(QueryResult(filtered[offset..end], total));
    }

    /** The filter loop of Query, from the newest entry down. */
    method NewestFirst(action: string, subject: string) returns (filtered: seq<Entry>)
      ensures filtered == Newest(entries, action, subject)
    {
      hide Contains, Newest;
      NewestOfNone(action, subject);
      filtered := [];
      var i := |entries|;
      assert entries[..i] == entries;
      while i > 0
        invariant 0 <= i <= |entries|
        invariant filtered + Newest(entries[..i], action, subject) == Newest(entries, action, subject)
      {
        NextNewest(entries, i, action, subject);
        FoundNext(filtered, entries[i - 1], Newest(entries[..i - 1], action, subject));
        i := i - 1;
        var e := entries[i];
        if action != "" && !Contains(e.action, action) {
          continue;
        }
        if subject != "" && e.subject != subject {
          continue;
        }
        filtered := filtered + [e];
      }
    }
  }

  lemma NewestOfNone(action: string, subject: string)
    ensures Newest([], action, subject) == []
  {}

  lemma FoundNext(found: seq<Entry>, e: Entry, rest: seq<Entry>)
    ensures found + ([e] + rest) == found + [e] + rest && found + ([] + rest) == found + rest
  {}

  lemma NextNewest(entries: seq<Entry>, i: nat, action: string, subject: string)
    requires 0 < i <= |entries|
    ensures Newest(entries[..i], action, subject) ==
            (if Matches(entries[i - 1], action, subject) then [entries[i - 1]] else []) +
            Newest(entries[..i - 1], action, subject)
  {
    hide Matches;
    assert entries[..i][..i - 1] == entries[..i - 1];
  }

  // ---------- What a query answers ----------

  predicate OccursAt(s: string, part: string, k: nat) {
    k + |part| <= |s| && s[k..k + |part|] == part
  }

  /** The part lies somewhere in the text. */
  ghost predicate Occurs(s: string, part: string) {
    exists k: nat :: OccursAt(s, part, k)
  }

  lemma OccursLater(s: string, part: string, k: nat)
    requires s != ""
    ensures OccursAt(s[1..], part, k) <==> OccursAt(s, part, k + 1)
  {
    if k + 1 + |part| <= |s| {
      assert s[1..][k..k + |part|] == s[k + 1..k + 1 + |part|];
    }
  }

  lemma OccursFirst(s: string, part: string)
    ensures OccursAt(s, part, 0) <==> part <= s
  {}

  lemma {:induction false} ContainsExactly(s: string, part: string)
    ensures Contains(s, part) <==> Occurs(s, part)
  {
    hide OccursAt;
    OccursFirst(s, part);
    if s == "" {
      forall k: nat | k > 0 ensures !OccursAt(s, part, k) {
        NotBeyond(s, part, k);
      }
    } else {
      ContainsExactly(s[1..], part);
      forall k: nat ensures OccursAt(s[1..], part, k) <==> OccursAt(s, part, k + 1) {
        OccursLater(s, part, k);
      }
      if k: nat :| OccursAt(s, part, k) && k > 0 {
        assert OccursAt(s[1..], part, k - 1);
      }
    }
  }

  lemma NotBeyond(s: string, part: string, k: nat)
    requires k > |s|
    ensures !OccursAt(s, part, k)
  {}

  lemma {:induction false} NewestHolds(entries: seq<Entry>, action: string, subject: string, e: Entry)
    ensures multiset(Newest(entries, action, subject))[e] ==
            if (action == "" || Occurs(e.action, action)) && (subject == "" || e.subject == subject) then multiset(entries)[e]
            else 0
  {
    ContainsExactly(e.action, action);
    assert Matches(e, action, subject) <==>
      (action == "" || Occurs(e.action, action)) && (subject == "" || e.subject == subject);
    hide Matches, Occurs;
    if entries != [] {
      var front, last := entries[..|entries| - 1], entries[|entries| - 1];
      NewestHolds(front, action, subject, e);
      assert entries == front + [last];
    }
  }

  /** The filter can be pushed into any split of the history: later entries come first. */
  lemma {:induction false} NewestAppend(older: seq<Entry>, newer: seq<Entry>, action: string, subject: string)
    ensures Newest(older + newer, action, subject) ==
            Newest(newer, action, subject) + Newest(older, action, subject)
  {
    hide Matches;
    if newer == [] {
      assert older + newer == older;
    } else {
      assert (older + newer)[..|older + newer| - 1] == older + newer[..|newer| - 1];
      NewestAppend(older, newer[..|newer| - 1], action, subject);
    }
  }

  /** A query panics exactly for a negative offset, or when offset and limit together leave 64 bits. */
  lemma PanicsExactly(entries: seq<Entry>, params: QueryParams)
    ensures var total := |Newest(entries, params.action, params.subject)|;
            var limit := if params.limit <= 0 then 50 else params.limit;
            Answer(entries, params).None? <==>
            params.offset < 0 || (params.offset <= total && params.offset + limit >= 0x8000_0000_0000_0000)
  {
    hide Newest;
  }

  /** No limit asked for is a limit of fifty. */
  lemma DefaultPage(entries: seq<Entry>, params: QueryParams)
    requires params.limit <= 0
    ensures Answer(entries, params) == Answer(entries, params.(limit := 50))
  {}

  /** The first `n` pages, one after the other. */
  function Pages(entries: seq<Entry>, limit: int64, n: nat, action: string, subject: string): Option<seq<Entry>>
    requires 0 < limit && n * limit < 0x8000_0000_0000_0000
  {
    if n == 0 then Some([])
    else
      PageBound(n, limit);
      var before := Pages(entries, limit, n - 1, action, subject);
      var page := Answer(entries, QueryParams(limit, (n - 1) * limit, action, subject));
      if before.Some? && page.Some? then Some(before.value + page.value.entries) else None
  }

  lemma PageBound(n: nat, limit: int64)
    requires n > 0 && 0 < limit && n * limit < 0x8000_0000_0000_0000
    ensures 0 <= (n - 1) * limit < 0x8000_0000_0000_0000 && (n - 1) * limit + limit == n * limit
  {}

  /** One page: the slice of the matching entries from the offset on. */
  lemma PageAt(entries: seq<Entry>, params: QueryParams)
    requires 0 < params.limit && 0 <= params.offset && params.offset + params.limit < 0x8000_0000_0000_0000
    ensures var found := Newest(entries, params.action, params.subject);
            var end := params.offset + params.limit;
            Answer(entries, params) ==
            Some(QueryResult(if params.offset > |found| then []
                             else if end > |found| then found[params.offset..] else found[params.offset..end], |found|))
  {
    hide Newest, Wrap;
    var found := Newest(entries, params.action, params.subject);
    WrapSmall(params.offset + params.limit);
    if params.offset <= |found| {
      assert found[params.offset..] == found[params.offset..|found|];
    }
  }

  /** The first `n` pages of any size put together are the first entries of the filtered history, newest first. */
  lemma {:induction false} PagesArePrefixes(entries: seq<Entry>, limit: int64, n: nat, action: string, subject: string)
    requires 0 < limit && n * limit < 0x8000_0000_0000_0000
    ensures var found := Newest(entries, action, subject);
            Pages(entries, limit, n, action, subject) == Some(if n * limit <= |found| then found[..n * limit] else found)
  {
    hide Newest, Answer;
    var found := Newest(entries, action, subject);
    if n > 0 {
      PageBound(n, limit);
      PagesArePrefixes(entries, limit, n - 1, action, subject);
      var at := (n - 1) * limit;
      PageAt(entries, QueryParams(limit, at, action, subject));
      PutTogether(found, at, limit);
    }
  }

  lemma PutTogether(found: seq<Entry>, at: nat, limit: nat)
    ensures at + limit <= |found| ==> found[..at] + found[at..at + limit] == found[..at + limit]
    ensures at <= |found| ==> found[..at] + found[at..] == found
    ensures found + [] == found
  {}

  function PageCount(total: nat, limit: nat): nat
    requires 0 < limit
  {
    (total + limit - 1) / limit
  }

  /**
   For any filter and any positive limit, the pages at 0, limit, 2 * limit, ... put together are all matching entries,
   newest first, without gap or repetition.
   */
  lemma PagesAreTheHistory(entries: seq<Entry>, limit: int64, action: string, subject: string)
    requires 0 < limit && |Newest(entries, action, subject)| <= 0x4000_0000_0000_0000
    ensures var found := Newest(entries, action, subject);
            var n := PageCount(|found|, limit);
            n * limit < 0x8000_0000_0000_0000 && Pages(entries, limit, n, action, subject) == Some(found)
  {
    hide Newest, Pages;
    var found := Newest(entries, action, subject);
    CountBound(|found|, limit);
    PagesArePrefixes(entries, limit, PageCount(|found|, limit), action, subject);
    assert found[..|found|] == found;
  }

  lemma CountBound(total: nat, limit: nat)
    requires 0 < limit < 0x8000_0000_0000_0000 && total <= 0x4000_0000_0000_0000
    ensures total <= PageCount(total, limit) * limit < 0x8000_0000_0000_0000
  {
    var n := PageCount(total, limit);
    DivideBounds(total + limit - 1, limit);
    if limit > total {
      if n >= 2 {
        Monotone(2, n, limit);
        assert false;
      }
      Monotone(n, 1, limit);
    }
  }

  lemma DivideBounds(x: nat, d: nat)
    requires 0 < d
    ensures x / d * d <= x < x / d * d + d
  {}

  lemma Monotone(m: nat, n: nat, limit: nat)
    requires m <= n
    ensures m * limit <= n * limit
  {
    assert n * limit == m * limit + (n - m) * limit;
  }

  /** `after` is the new entries and then `before`, less its oldest entry at most. */
  predicate IsShifted(before: seq<Entry>, after: seq<Entry>, added: seq<Entry>) {
    after == added + before || (before != [] && after == added + before[..|before| - 1])
  }

  /** An entry added between two queries moves every page by one place at most: nothing already there is passed over. */
  lemma AddShiftsByOne(history: seq<Entry>, capacity: nat, entry: Entry, action: string, subject: string)
    requires capacity >= 1
    ensures var before := Newest(Kept(history, capacity), action, subject);
            var after := Newest(Kept(history + [entry], capacity), action, subject);
            IsShifted(before, after, if Matches(entry, action, subject) then [entry] else [])
  {
    hide Matches, Kept;
    var kept := Kept(history, capacity);
    KeptMore(history, capacity, entry);
    KeptSize(history, capacity);
    var rest := if |kept| >= capacity then kept[1..] else kept;
    assert Kept(history + [entry], capacity) == rest + [entry];
    NewestMore(rest, entry, action, subject);
    if |kept| >= capacity {
      OldestLeaves(kept, action, subject);
    }
  }

  lemma KeptSize(history: seq<Entry>, capacity: nat)
    ensures |Kept(history, capacity)| <= capacity
  {}

  lemma NewestMore(entries: seq<Entry>, entry: Entry, action: string, subject: string)
    ensures Newest(entries + [entry], action, subject) ==
            (if Matches(entry, action, subject) then [entry] else []) + Newest(entries, action, subject)
  {
    hide Matches;
    assert (entries + [entry])[..|entries|] == entries;
  }

  /** The oldest entry is the last of the newest-first list, if it matches. */
  lemma OldestLeaves(kept: seq<Entry>, action: string, subject: string)
    requires kept != []
    ensures var all, rest := Newest(kept, action, subject), Newest(kept[1..], action, subject);
            rest == all || (all != [] && rest == all[..|all| - 1])
  {
    hide Matches;
    assert kept == kept[..1] + kept[1..];
    assert kept[..1][..0] == [];
    NewestAppend(kept[..1], kept[1..], action, subject);
  }
}
