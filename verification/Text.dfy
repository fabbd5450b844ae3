/** The string operations of Go's standard library that the agent relies on, with the facts proved from them. */
module Text {
  // ---------- White space ----------

  /** Go's unicode.IsSpace. */
  predicate IsSpace(c: char) {
    c == ' ' || '\t' <= c <= '\r' || c == '\U{85}' || c == '\U{A0}' || c == '\U{1680}' ||
    '\U{2000}' <= c <= '\U{200a}' || c == '\U{2028}' || c == '\U{2029}' || c == '\U{202f}' ||
    c == '\U{205f}' || c == '\U{3000}'
  }

  /** Among the first 256 characters: tab, newline, vertical tab, form feed, return, space, next line, no-break space. */
  lemma LatinSpaces(c: char)
    requires c as int < 0x100
    ensures IsSpace(c) <==> c as int in {0x09, 0x0a, 0x0b, 0x0c, 0x0d, 0x20, 0x85, 0xa0}
  {}

  function TrimLeft(s: string): string {
    if s != "" && IsSpace(s[0]) then TrimLeft(s[1..]) else s
  }

  function TrimRight(s: string): string {
    if s != "" && IsSpace(s[|s| - 1]) then TrimRight(s[..|s| - 1]) else s
  }

  /** strings.TrimSpace */
  function Trim(s: string): string {
    TrimRight(TrimLeft(s))
  }

  predicate IsTrimmed(s: string) {
    s == "" || (!IsSpace(s[0]) && !IsSpace(s[|s| - 1]))
  }

  lemma {:induction false} TrimRightKeepsStart(s: string)
    ensures TrimRight(s) <= s && (TrimRight(s) != "" ==> !IsSpace(TrimRight(s)[|TrimRight(s)| - 1]))
  {
    if s != "" && IsSpace(s[|s| - 1]) {
      TrimRightKeepsStart(s[..|s| - 1]);
    }
  }

  lemma {:induction false} TrimLeftStart(s: string)
    ensures TrimLeft(s) != "" ==> !IsSpace(TrimLeft(s)[0])
    ensures forall c :: c in TrimLeft(s) ==> c in s
  {
    if s != "" && IsSpace(s[0]) {
      TrimLeftStart(s[1..]);
    }
  }

  /** Trimming yields a trimmed string, invents no character, and leaves a trimmed string alone. */
  lemma TrimFacts(s: string)
    ensures IsTrimmed(Trim(s))
    ensures forall c :: c in Trim(s) ==> c in s
    ensures Trim(s) == s <==> IsTrimmed(s)
  {
    TrimLeftStart(s);
    TrimRightKeepsStart(TrimLeft(s));
  }

  // ---------- Split and Join ----------

  /** strings.Split on a one-character separator. */
  function Split(s: string, c: char): (parts: seq<string>)
    ensures |parts| >= 1
  {
    if s == "" then [""]
    else
      var rest := Split(s[1..], c);
      if s[0] == c then [""] + rest else [[s[0]] + rest[0]] + rest[1..]
  }

  /** strings.Join with a one-character separator. */
  function Join(parts: seq<string>, c: char): string {
    if parts == [] then ""
    else if |parts| == 1 then parts[0]
    else parts[0] + [c] + Join(parts[1..], c)
  }

  lemma {:induction false} SplitAtSeparator(a: string, c: char, b: string)
    ensures Split(a + [c] + b, c) == Split(a, c) + Split(b, c)
  {
    var s := a + [c] + b;
    if a == "" {
      assert s[1..] == b;
    } else {
      assert s[1..] == a[1..] + [c] + b;
      SplitAtSeparator(a[1..], c, b);
    }
  }

  lemma {:induction false} SplitWithoutSeparator(s: string, c: char)
    requires c !in s
    ensures Split(s, c) == [s]
  {
    if s != "" {
      SplitWithoutSeparator(s[1..], c);
      assert [s[0]] + s[1..] == s;
    }
  }

  /** Splitting undoes joining when no part holds the separator. */
  lemma {:induction false} SplitJoin(parts: seq<string>, c: char)
    requires parts != [] && forall p :: p in parts ==> c !in p
    ensures Split(Join(parts, c), c) == parts
  {
    SplitWithoutSeparator(parts[0], c);
    if |parts| > 1 {
      SplitJoin(parts[1..], c);
      SplitAtSeparator(parts[0], c, Join(parts[1..], c));
      assert [parts[0]] + parts[1..] == parts;
    }
  }

  lemma {:induction false} SplitParts(s: string, c: char)
    ensures forall p :: p in Split(s, c) ==> c !in p
  {
    if s != "" {
      SplitParts(s[1..], c);
      var rest := Split(s[1..], c);
      assert rest[0] in rest;
    }
  }

  lemma {:induction false} JoinSplit(s: string, c: char)
    ensures Join(Split(s, c), c) == s
  {
    if s != "" {
      JoinSplit(s[1..], c);
      var rest := Split(s[1..], c);
      if s[0] == c {
        assert ([""] + rest)[1..] == rest;
      } else {
        assert ([[s[0]] + rest[0]] + rest[1..])[1..] == rest[1..];
      }
    }
  }

  /** Joining is injective on non-empty lists whose parts do not hold the separator. */
  lemma JoinInjective(a: seq<string>, b: seq<string>, c: char)
    requires a != [] && b != [] && Join(a, c) == Join(b, c)
    requires (forall p :: p in a ==> c !in p) && (forall p :: p in b ==> c !in p)
    ensures a == b
  {
    SplitJoin(a, c);
    SplitJoin(b, c);
  }

  // ---------- Order ----------

  /** The order of sort.Strings, strict. */
  predicate Less(a: string, b: string) {
    b != "" && (a == "" || a[0] < b[0] || (a[0] == b[0] && Less(a[1..], b[1..])))
  }

  /** At their first difference the texts have these characters, or the first ends there. */
  predicate DifferAt(a: string, b: string, k: nat) {
    k <= |a| && k < |b| && a[..k] == b[..k] && (k == |a| || a[k] < b[k])
  }

  /** Dictionary order: a proper prefix, or the smaller character at the first difference. */
  lemma {:induction false} LessExactly(a: string, b: string)
    ensures Less(a, b) <==> exists k: nat :: DifferAt(a, b, k)
  {
    if a != "" && b != "" && a[0] == b[0] {
      LessExactly(a[1..], b[1..]);
      if k: nat :| DifferAt(a, b, k) {
        assert a[1..][..k - 1] == a[..k][1..] && b[1..][..k - 1] == b[..k][1..];
        assert DifferAt(a[1..], b[1..], k - 1);
      }
      if k: nat :| DifferAt(a[1..], b[1..], k) {
        assert a[..k + 1] == [a[0]] + a[1..][..k] && b[..k + 1] == [b[0]] + b[1..][..k];
        assert DifferAt(a, b, k + 1);
      }
    } else if a == "" || b == "" || a[0] < b[0] {
      assert b != "" ==> DifferAt(a, b, 0);
    } else {
      forall k: nat ensures !DifferAt(a, b, k) {
        NotAfterwards(a, b, k);
      }
    }
  }

  lemma NotAfterwards(a: string, b: string, k: nat)
    requires a != "" && b != "" && a[0] > b[0]
    ensures !DifferAt(a, b, k)
  {
    if 0 < k <= |a| && k < |b| {
      assert a[..k][0] == a[0] && b[..k][0] == b[0];
    }
  }

  lemma {:induction false} LessIsTotal(a: string, b: string)
    ensures Less(a, b) || Less(b, a) || a == b
    ensures !(Less(a, b) && Less(b, a))
  {
    if a != "" && b != "" {
      LessIsTotal(a[1..], b[1..]);
      assert a == [a[0]] + a[1..] && b == [b[0]] + b[1..];
    }
  }

  lemma {:induction false} LessIsTransitive(a: string, b: string, c: string)
    requires Less(a, b) && Less(b, c)
    ensures Less(a, c)
  {
    if a != "" && a[0] == b[0] == c[0] {
      LessIsTransitive(a[1..], b[1..], c[1..]);
    }
  }

  predicate Sorted(xs: seq<string>) {
    forall i, j :: 0 <= i < j < |xs| ==> !Less(xs[j], xs[i])
  }

  predicate StrictlySorted(xs: seq<string>) {
    forall i, j :: 0 <= i < j < |xs| ==> Less(xs[i], xs[j])
  }

  function Insert(x: string, xs: seq<string>): (r: seq<string>)
    ensures multiset(r) == multiset(xs) + multiset{x}
  {
    if xs == [] || Less(x, xs[0]) then [x] + xs
    else
      assert xs == [xs[0]] + xs[1..];
      [xs[0]] + Insert(x, xs[1..])
  }

  /** sort.Strings */
  function Sort(xs: seq<string>): (r: seq<string>)
    ensures multiset(r) == multiset(xs)
  {
    if xs == [] then []
    else
      assert xs == [xs[0]] + xs[1..];
      Insert(xs[0], Sort(xs[1..]))
  }

  lemma {:induction false} InsertKeepsSorted(x: string, xs: seq<string>)
    requires Sorted(xs)
    ensures Sorted(Insert(x, xs))
  {
    if xs == [] || Less(x, xs[0]) {
      forall j | 0 <= j < |xs| ensures !Less(xs[j], x) {
        LessIsTotal(xs[0], xs[j]);
        if Less(xs[j], x) {
          LessIsTransitive(xs[j], x, xs[0]);
        }
      }
    } else {
      InsertKeepsSorted(x, xs[1..]);
      var r := Insert(x, xs[1..]);
      forall y | y in r ensures !Less(y, xs[0]) {
        assert y in multiset(r);
        assert y == x || y in xs[1..];
      }
    }
  }

  lemma {:induction false} SortSorts(xs: seq<string>)
    ensures Sorted(Sort(xs))
  {
    if xs != [] {
      SortSorts(xs[1..]);
      InsertKeepsSorted(xs[0], Sort(xs[1..]));
    }
  }

  function Elements(xs: seq<string>): set<string> {
    set x | x in xs
  }

  lemma ElementsEmpty(xs: seq<string>)
    ensures Elements(xs) == {} <==> xs == []
  {
    if xs != [] {
      assert xs[0] in Elements(xs);
    }
  }

  lemma ElementsAppend(xs: seq<string>, x: string)
    ensures Elements(xs + [x]) == Elements(xs) + {x}
  {
    assert forall y :: y in xs + [x] <==> y in xs || y == x;
  }

  predicate NoRepeats(xs: seq<string>) {
    forall i, j :: 0 <= i < j < |xs| ==> xs[i] != xs[j]
  }

  /** `xs` is the one list of the members of `s` in strictly increasing order. */
  ghost predicate Lists(xs: seq<string>, s: set<string>) {
    StrictlySorted(xs) && Elements(xs) == s
  }

  lemma {:induction false} ListIsUnique(xs: seq<string>, ys: seq<string>, s: set<string>)
    requires Lists(xs, s) && Lists(ys, s)
    ensures xs == ys
    decreases |xs|
  {
    ElementsEmpty(xs);
    ElementsEmpty(ys);
    if xs != [] {
      SameFirst(xs, ys, s);
      var rest := s - {xs[0]};
      TailLists(xs, s);
      TailLists(ys, s);
      ListIsUnique(xs[1..], ys[1..], rest);
      assert xs == [xs[0]] + xs[1..] && ys == [ys[0]] + ys[1..];
    }
  }

  lemma SameFirst(xs: seq<string>, ys: seq<string>, s: set<string>)
    requires Lists(xs, s) && Lists(ys, s) && xs != [] && ys != []
    ensures xs[0] == ys[0]
  {
    assert xs[0] in s && ys[0] in s;
    assert xs[0] in ys && ys[0] in xs;
    LessIsTotal(xs[0], ys[0]);
  }

  lemma TailLists(xs: seq<string>, s: set<string>)
    requires Lists(xs, s) && xs != []
    ensures Lists(xs[1..], s - {xs[0]})
  {
    LessIsTotal(xs[0], xs[0]);
    assert forall x :: x in xs <==> x == xs[0] || x in xs[1..];
  }

  /** Sorting a list without repetitions lists its elements. */
  lemma SortLists(xs: seq<string>)
    requires NoRepeats(xs)
    ensures Lists(Sort(xs), Elements(xs))
  {
    SortSorts(xs);
    var r := Sort(xs);
    assert forall x :: x in r <==> x in multiset(r);
    assert forall x :: x in xs <==> x in multiset(xs);
    forall i, j | 0 <= i < j < |r| ensures Less(r[i], r[j]) {
      LessIsTotal(r[i], r[j]);
      if r[i] == r[j] {
        CountTwice(r, i, j);
        CountOnce(xs, r[i]);
      }
    }
  }

  lemma CountTwice(xs: seq<string>, i: nat, j: nat)
    requires i < j < |xs| && xs[i] == xs[j]
    ensures multiset(xs)[xs[i]] >= 2
  {
    assert xs == xs[..i] + [xs[i]] + xs[i + 1..j] + [xs[j]] + xs[j + 1..];
  }

  lemma {:induction false} CountOnce(xs: seq<string>, x: string)
    requires NoRepeats(xs)
    ensures multiset(xs)[x] <= 1
  {
    if xs != [] {
      CountOnce(xs[1..], x);
      assert xs == [xs[0]] + xs[1..];
      if xs[0] == x {
        assert x !in xs[1..];
      }
    }
  }
}
