/**
 The workspace paths of the sidecar: how a requested path is joined to the root, and the walk to the nearest
 existing ancestor. Symbolic links and existence are an oracle.
 */
module Paths {
  import opened Wrappers
  import opened Text

  // ---------- Lexical paths (path/filepath on Unix) ----------

  predicate IsAbsolute(path: string) {
    path != "" && path[0] == '/'
  }

  /** A path element that stays as it is when the path is cleaned. */
  predicate IsName(c: string) {
    c != "" && c != "." && c != ".." && '/' !in c
  }

  predicate AreNames(cs: seq<string>) {
    forall c :: c in cs ==> IsName(c)
  }

  /** The elements left of a rooted path: empty and "." go, ".." takes the element before it along. */
  function Reduce(parts: seq<string>): seq<string> {
    if parts == [] then []
    else
      var before, last := Reduce(parts[..|parts| - 1]), parts[|parts| - 1];
      if last == "" || last == "." then before
      else if last == ".." then (if before == [] then [] else before[..|before| - 1])
      else before + [last]
  }

  function Components(path: string): seq<string> {
    Reduce(Split(path, '/'))
  }

  function Path(cs: seq<string>): string {
    "/" + Join(cs, '/')
  }

  /** filepath.Clean of an absolute path. */
  function Clean(path: string): string {
    Path(Components(path))
  }

  /** filepath.Dir of a clean absolute path. */
  function Dir(path: string): string {
    var cs := Components(path);
    if cs == [] then "/" else Path(cs[..|cs| - 1])
  }

  /** filepath.Join(root, filepath.Clean("/" + path)) */
  function Resolve(root: string, path: string): string {
    Clean(root + "/" + Clean("/" + path))
  }

  lemma {:induction false} ReduceNames(parts: seq<string>)
    requires forall p :: p in parts ==> '/' !in p
    ensures AreNames(Reduce(parts))
  {
    if parts != [] {
      ReduceNames(parts[..|parts| - 1]);
    }
  }

  lemma ComponentsAreNames(path: string)
    ensures AreNames(Components(path))
  {
    SplitParts(path, '/');
    ReduceNames(Split(path, '/'));
  }

  lemma {:induction false} ReduceAppend(a: seq<string>, b: seq<string>)
    requires AreNames(b)
    ensures Reduce(a + b) == Reduce(a) + b
  {
    if b == [] {
      assert a + b == a;
    } else {
      assert b[|b| - 1] in b;
      assert (a + b)[..|a + b| - 1] == a + b[..|b| - 1];
      ReduceAppend(a, b[..|b| - 1]);
    }
  }

  lemma SplitPath(cs: seq<string>)
    requires AreNames(cs)
    ensures Split(Path(cs), '/') == if cs == [] then ["", ""] else [""] + cs
  {
    SplitAtSeparator("", '/', Join(cs, '/'));
    assert Path(cs) == "" + ['/'] + Join(cs, '/');
    if cs != [] {
      assert forall c :: c in cs ==> IsName(c) && '/' !in c;
      SplitJoin(cs, '/');
    }
  }

  lemma ComponentsOfPath(cs: seq<string>)
    requires AreNames(cs)
    ensures Components(Path(cs)) == cs
  {
    hide Reduce;
    SplitPath(cs);
    NothingReduced();
    ReduceRooted([], cs);
    assert [] + cs == cs && [] + (if cs == [] then ["", ""] else [""] + cs) == if cs == [] then ["", ""] else [""] + cs;
  }

  lemma NothingReduced()
    ensures Reduce([]) == []
  {}

  lemma ReduceEmpty(parts: seq<string>)
    ensures Reduce(parts + [""]) == Reduce(parts)
  {
    assert (parts + [""])[..|parts|] == parts;
  }

  /** A rooted path of names after some parts adds those names. */
  lemma ReduceRooted(parts: seq<string>, cs: seq<string>)
    requires AreNames(cs)
    ensures Reduce(parts + (if cs == [] then ["", ""] else [""] + cs)) == Reduce(parts) + cs
  {
    hide Reduce;
    ReduceEmpty(parts);
    if cs == [] {
      ReduceEmpty(parts + [""]);
      assert parts + ["", ""] == (parts + [""]) + [""];
    } else {
      assert parts + ([""] + cs) == (parts + [""]) + cs;
      ReduceAppend(parts + [""], cs);
    }
  }

  /** The elements of a resolved path are the root's followed by those of the request, cleaned on its own. */
  lemma ResolveAppends(root: string, path: string)
    ensures Components(Resolve(root, path)) == Components(root) + Components("/" + path)
    ensures AreNames(Components(root)) && AreNames(Components("/" + path))
  {
    hide Split, Join, IsName, Reduce;
    var r, c := Components(root), Components("/" + path);
    ComponentsAreNames(root);
    ComponentsAreNames("/" + path);
    SplitPath(c);
    SplitAtSeparator(root, '/', Path(c));
    ReduceRooted(Split(root, '/'), c);
    assert Components(root + "/" + Path(c)) == r + c;
    ComponentsOfPath(r + c);
  }

  // ---------- What the elements of a path mean ----------

  lemma ReduceMore(parts: seq<string>, n: string)
    ensures Reduce(parts + [n]) ==
            if n == "" || n == "." then Reduce(parts)
            else if n == ".." then Parent(Reduce(parts))
            else Reduce(parts) + [n]
  {
    assert (parts + [n])[..|parts|] == parts;
  }

  /** The root is its own parent. */
  function Parent(cs: seq<string>): seq<string> {
    if cs == [] then [] else cs[..|cs| - 1]
  }

  /** One more element: a name leads into it, ".." to the parent, and "." and nothing lead nowhere. */
  lemma OneMoreElement(path: string, n: string)
    requires '/' !in n
    ensures IsName(n) ==> Components(path + "/" + n) == Components(path) + [n]
    ensures n == ".." ==> Components(path + "/" + n) == Parent(Components(path))
    ensures n == "" || n == "." ==> Components(path + "/" + n) == Components(path)
  {
    hide Split, Reduce;
    assert path + "/" + n == path + ['/'] + n;
    SplitAtSeparator(path, '/', n);
    SplitWithoutSeparator(n, '/');
    ReduceMore(Split(path, '/'), n);
  }

  lemma {:induction false} ReduceOn(a: seq<string>, b: seq<string>, more: seq<string>)
    requires Reduce(a) == Reduce(b)
    ensures Reduce(a + more) == Reduce(b + more)
  {
    hide *;
    if more == [] {
      assert a + more == a && b + more == b;
    } else {
      var before, last := more[..|more| - 1], more[|more| - 1];
      ReduceOn(a, b, before);
      ReduceMore(a + before, last);
      ReduceMore(b + before, last);
      assert a + more == a + before + [last] && b + more == b + before + [last];
    }
  }

  /** Two ways to one place go on alike. */
  lemma GoesOnAlike(a: string, b: string, rest: string)
    requires Components(a) == Components(b)
    ensures Components(a + "/" + rest) == Components(b + "/" + rest)
  {
    hide Split, Reduce;
    assert a + "/" + rest == a + ['/'] + rest && b + "/" + rest == b + ['/'] + rest;
    SplitAtSeparator(a, '/', rest);
    SplitAtSeparator(b, '/', rest);
    ReduceOn(Split(a, '/'), Split(b, '/'), Split(rest, '/'));
  }

  /**
   ".." takes the name before it along wherever it stands, and takes nothing at the root; "." and empty elements change
   nothing; and a request with such elements resolves like the one without them.
   */
  lemma DotsMeanSteps(root: string, path: string, n: string, rest: string)
    requires IsName(n)
    ensures Components("/") == [] && Components("/..") == []
    ensures Components(path + "/" + n + "/..") == Components(path)
    ensures Components(path + "/" + n + "/.." + "/" + rest) == Components(path + "/" + rest)
    ensures Components(path + "/." + "/" + rest) == Components(path + "/" + rest)
    ensures Components(path + "/" + "/" + rest) == Components(path + "/" + rest)
    ensures Resolve(root, path + "/" + n + "/.." + "/" + rest) == Resolve(root, path + "/" + rest)
  {
    hide *;
    AtTheRoot();
    Back(path, n);
    Stay(path);
    GoesOnAlike(path + "/" + n + "/..", path, rest);
    GoesOnAlike(path + "/.", path, rest);
    GoesOnAlike(path + "/", path, rest);
    ResolvesAlike(root, path, n, rest);
  }

  lemma ResolvesAlike(root: string, path: string, n: string, rest: string)
    requires IsName(n)
    ensures Resolve(root, path + "/" + n + "/.." + "/" + rest) == Resolve(root, path + "/" + rest)
  {
    hide Components, IsName;
    Back("/" + path, n);
    GoesOnAlike("/" + path + "/" + n + "/..", "/" + path, rest);
    assert "/" + (path + "/" + n + "/.." + "/" + rest) == "/" + path + "/" + n + "/.." + "/" + rest;
    assert "/" + (path + "/" + rest) == "/" + path + "/" + rest;
  }

  lemma Back(path: string, n: string)
    requires IsName(n)
    ensures Components(path + "/" + n + "/..") == Components(path)
  {
    hide Components;
    OneMoreElement(path, n);
    OneMoreElement(path + "/" + n, "..");
    assert path + "/" + n + "/" + ".." == path + "/" + n + "/..";
  }

  lemma Stay(path: string)
    ensures Components(path + "/.") == Components(path) && Components(path + "/") == Components(path)
  {
    hide Components;
    OneMoreElement(path, "");
    OneMoreElement(path, ".");
    assert path + "/" + "" == path + "/" && path + "/" + "." == path + "/.";
  }

  lemma AtTheRoot()
    ensures Components("/") == [] && Components("/..") == []
  {
    OneMoreElement("", "");
    OneMoreElement("", "..");
    assert "" + "/" + "" == "/" && "" + "/" + ".." == "/..";
    assert Split("", '/') == [""] && [""][..0] == [];
  }

  lemma {:induction false} JoinPrefix(a: seq<string>, b: seq<string>, c: char)
    ensures Join(a, c) <= Join(a + b, c)
  {
    if |a| == 0 {
    } else if |a| == 1 {
      assert (a + b)[0] == a[0];
    } else {
      assert (a + b)[1..] == a[1..] + b;
      JoinPrefix(a[1..], b, c);
    }
  }

  /**
   For a clean root, every request whatsoever resolves to the root or below it: its text starts with the root,
   its elements are the root's and then names, none of them "..".
   */
  lemma Confined(root: string, path: string)
    requires IsAbsolute(root) && Clean(root) == root
    ensures root <= Resolve(root, path)
    ensures Components(root) <= Components(Resolve(root, path)) && ".." !in Components(Resolve(root, path))
    ensures WatcherResolve(root, path) == Ok(Resolve(root, path))
  {
    hide Reduce, Join, Components;
    ResolveAppends(root, path);
    var r, c := Components(root), Components("/" + path);
    ComponentsAreNames(root + "/" + Clean("/" + path));
    ComponentsOfPath(Components(root + "/" + Clean("/" + path)));
    assert Resolve(root, path) == Path(r + c);
    JoinPrefix(r, c, '/');
    assert AreNames(r + c);
  }

  // ---------- When the first check can fail ----------

  function Weight(parts: seq<string>): nat {
    if parts == [] then 0 else Weight(parts[..|parts| - 1]) + |parts[|parts| - 1]| + 1
  }

  lemma {:induction false} ReduceWeighsLess(parts: seq<string>)
    ensures Weight(Reduce(parts)) <= Weight(parts)
  {
    if parts != [] {
      ReduceWeighsLess(parts[..|parts| - 1]);
    }
  }

  lemma {:induction false} WeightFirst(parts: seq<string>)
    requires parts != []
    ensures Weight(parts) == |parts[0]| + 1 + Weight(parts[1..])
  {
    if |parts| > 1 {
      WeightFirst(parts[..|parts| - 1]);
      assert parts[1..][..|parts| - 2] == parts[..|parts| - 1][1..];
    }
  }

  lemma {:induction false} JoinWeight(parts: seq<string>, c: char)
    ensures parts != [] ==> |Join(parts, c)| + 1 == Weight(parts)
  {
    if parts != [] {
      WeightFirst(parts);
      JoinWeight(parts[1..], c);
    }
  }

  lemma CleanIsNoLonger(path: string)
    requires IsAbsolute(path)
    ensures |Clean(path)| <= |path|
  {
    hide Split, Reduce;
    var parts := Split(path[1..], '/');
    assert path == "" + ['/'] + path[1..];
    SplitAtSeparator("", '/', path[1..]);
    assert Split("", '/') == [""] by { SplitWithoutSeparator("", '/'); }
    ReduceHead(parts);
    ReduceWeighsLess(parts);
    JoinSplit(path[1..], '/');
    JoinWeight(parts, '/');
    JoinWeight(Reduce(parts), '/');
  }

  lemma {:induction false} ReduceHead(parts: seq<string>)
    ensures Reduce([""] + parts) == Reduce(parts)
  {
    if parts == [] {
      assert [""] + parts == [""];
      assert [""][..0] == [];
    } else {
      assert ([""] + parts)[..|parts|] == [""] + parts[..|parts| - 1];
      ReduceHead(parts[..|parts| - 1]);
    }
  }

  /** The first prefix check passes for every request exactly when the root is a clean path. */
  lemma FirstCheckNeedsCleanRoot(root: string)
    requires IsAbsolute(root)
    ensures (forall path :: root <= Resolve(root, path)) <==> Clean(root) == root
    ensures (forall path :: WatcherResolve(root, path).Ok?) <==> Clean(root) == root
  {
    if Clean(root) == root {
      forall path ensures root <= Resolve(root, path) {
        Confined(root, path);
      }
    }
    assert forall path :: WatcherResolve(root, path).Ok? <==> root <= Resolve(root, path);
    if forall path :: root <= Resolve(root, path) {
      assert root <= Resolve(root, "");
      RootItself(root);
      CleanIsNoLonger(root);
    }
  }

  lemma RootItself(root: string)
    ensures Resolve(root, "") == Clean(root)
  {
    hide Join, Split, Reduce;
    ResolveAppends(root, "");
    ComponentsOfPath([]);
    JoinNothing();
    assert "/" + "" == Path([]);
    assert AreNames([]);
    assert Components("/" + "") == [];
    assert Components(Resolve(root, "")) == Components(root) + [] == Components(root);
    var whole := root + "/" + Clean("/" + "");
    ComponentsAreNames(whole);
    ComponentsOfPath(Components(whole));
  }

  lemma JoinNothing()
    ensures Join([], '/') == ""
  {}

  // ---------- The walk ----------

  /** What the file system says of a path: the real path it leads to, nothing there, or another error. */
  datatype Eval = Real(path: string) | NotExist | Failed

  datatype Error = Escapes | EscapesViaSymlink | ResolveFailed | AncestorFailed

  /** The ancestors looked at for a path with elements `cs`: deepest first, ending before the root and before "/". */
  function Ancestors(cs: seq<string>, root: string): seq<string> {
    if cs == [] then []
    else
      var up := cs[..|cs| - 1];
      if up == [] || Path(up) == root then [] else [Path(up)] + Ancestors(up, root)
  }

  /** The first of the paths that is not missing, or their number. */
  ghost predicate FirstPresent(paths: seq<string>, eval: string -> Eval, n: nat) {
    n <= |paths| && (forall i :: 0 <= i < n ==> eval(paths[i]).NotExist?) && (n < |paths| ==> !eval(paths[n]).NotExist?)
  }

  /** The watcher's own check. */
  function WatcherResolve(root: string, path: string): Result<string, Error> {
    var resolved := Resolve(root, path);
    if root <= resolved then Ok(resolved) else Err(Escapes)
  }

  /**
   The handler's check. For a target that does not exist the deepest ancestor that does decides, and none of
   those above it is looked at.
   */
  method ResolvePath(root: string, path: string, eval: string -> Eval) returns (r: Result<string, Error>)
    requires IsAbsolute(root)
    ensures !(root <= Resolve(root, path)) ==> r == Err(Escapes)
    ensures root <= Resolve(root, path) ==>
            var resolved := Resolve(root, path);
            match eval(resolved)
            case Real(actual) => r == if root <= actual then Ok(actual) else Err(EscapesViaSymlink)
            case Failed => r == Err(ResolveFailed)
            case NotExist =>
              var above := Ancestors(Components(resolved), root);
              exists n: nat :: FirstPresent(above, eval, n) &&
                r == if n == |above| then Ok(resolved)
                     else match eval(above[n])
                          case Real(actual) => if root <= actual then Ok(resolved) else Err(EscapesViaSymlink)
                          case _ => Err(AncestorFailed)
  {
    hide Components, Path, Clean, Ancestors;
    var resolved := Resolve(root, path);
    if !(root <= resolved) {
      return Err(Escapes);
    }
    match eval(resolved)
    case Failed => return Err(ResolveFailed);
    case Real(actual) => return if root <= actual then Ok(actual) else Err(EscapesViaSymlink);
    case NotExist =>
      ghost var above := Ancestors(Components(resolved), root);
      ghost var n := 0;
      var ancestor := resolved;
      while true
        invariant n <= |above| && above[n..] == Ancestors(Components(ancestor), root)
        invariant forall i :: 0 <= i < n ==> eval(above[i]).NotExist?
        decreases |Components(ancestor)|
      {
        AncestorStep(ancestor, root);
        ancestor := Dir(ancestor);
        if ancestor == root || ancestor == "/" {
          assert FirstPresent(above, eval, n);
          return Ok(resolved);
        }
        assert above[n] == above[n..][0] && above[n + 1..] == above[n..][1..];
        match eval(ancestor)
        case Real(actual) =>
          assert FirstPresent(above, eval, n);
          return if root <= actual then Ok(resolved) else Err(EscapesViaSymlink);
        case Failed =>
          assert FirstPresent(above, eval, n);
          return Err(AncestorFailed);
        case NotExist =>
          n := n + 1;
      }
  }

  /** One turn of the walk takes the first ancestor off the list, and the path gets shorter until "/" ends it. */
  lemma AncestorStep(path: string, root: string)
    ensures Dir(path) == "/" || Dir(path) == root ==> Ancestors(Components(path), root) == []
    ensures Dir(path) != "/" && Dir(path) != root ==>
            Ancestors(Components(path), root) == [Dir(path)] + Ancestors(Components(Dir(path)), root) &&
            |Components(Dir(path))| < |Components(path)|
  {
    hide Reduce, Split;
    var cs := Components(path);
    ComponentsAreNames(path);
    if cs != [] {
      var up := cs[..|cs| - 1];
      ComponentsOfPath(up);
      ComponentsOfPath([]);
      assert Path([]) == "/";
    }
  }

  /**
   Below a clean root the walk looks at exactly the proper ancestors of the target that lie strictly below the root,
   deepest first.
   */
  lemma {:induction false} WalkStaysBelowRoot(cs: seq<string>, rs: seq<string>)
    requires AreNames(cs) && rs <= cs && |rs| < |cs|
    ensures var above := Ancestors(cs, Path(rs));
            |above| == |cs| - |rs| - 1 && forall i :: 0 <= i < |above| ==> above[i] == Path(cs[..|cs| - 1 - i])
  {
    hide Path, AreNames;
    var up := cs[..|cs| - 1];
    PathsDiffer(up, rs, cs);
    if up != rs {
      NamesOfPrefix(cs, |cs| - 1);
      WalkStaysBelowRoot(up, rs);
      var above := Ancestors(up, Path(rs));
      forall i | 0 <= i < |above| ensures above[i] == Path(cs[..|cs| - 2 - i]) {
        assert up[..|up| - 1 - i] == cs[..|cs| - 2 - i];
      }
    }
  }

  lemma NamesOfPrefix(cs: seq<string>, n: nat)
    requires AreNames(cs) && n <= |cs|
    ensures AreNames(cs[..n])
  {}

  lemma PathsDiffer(up: seq<string>, rs: seq<string>, cs: seq<string>)
    requires AreNames(cs) && up <= cs && rs <= cs
    ensures Path(up) == Path(rs) <==> up == rs
  {
    ComponentsOfPath(up);
    ComponentsOfPath(rs);
  }

  /** For a clean root, what the walk looks at for any request below the root lies within the root. */
  lemma WalkIsConfined(root: string, path: string, i: nat)
    requires IsAbsolute(root) && Clean(root) == root && Components("/" + path) != []
    ensures var cs := Components(Resolve(root, path)); var above := Ancestors(cs, root);
            i < |above| ==> |cs| - 1 - i > |Components(root)| && above[i] == Path(cs[..|cs| - 1 - i]) && root <= above[i]
  {
    hide Reduce, Split, Join, Ancestors;
    ResolveAppends(root, path);
    var rs, cs := Components(root), Components(Resolve(root, path));
    ComponentsAreNames(Resolve(root, path));
    WalkStaysBelowRoot(cs, rs);
    var above := Ancestors(cs, root);
    if i < |above| {
      var a := cs[..|cs| - 1 - i];
      assert a == rs + a[|rs|..];
      JoinPrefix(rs, a[|rs|..], '/');
    }
  }

  predicate AllWithin(root: string, paths: seq<string>) {
    forall p :: p in paths ==> root <= p
  }

  /**
   The walk stays within a clean root exactly when the request names something below the root; a request for a
   missing root itself has its walk pass the root and look above it, unless the root sits directly under "/".
   */
  lemma WalkIsConfinedIff(root: string, path: string)
    requires IsAbsolute(root) && Clean(root) == root
    ensures AllWithin(root, Ancestors(Components(Resolve(root, path)), root)) <==>
            Components("/" + path) != [] || |Components(root)| <= 1
  {
    hide Reduce, Split, Join, IsName;
    ResolveAppends(root, path);
    var rs, cs := Components(root), Components(Resolve(root, path));
    var above := Ancestors(cs, root);
    if Components("/" + path) != [] {
      forall a | a in above ensures root <= a {
        var i: nat :| i < |above| && above[i] == a;
        WalkIsConfined(root, path, i);
      }
    } else if |rs| <= 1 {
      assert cs == rs && above == [];
    } else {
      assert cs == rs;
      var up := cs[..|cs| - 1];
      JoinPrefix(up, [cs[|cs| - 1]], '/');
      assert up + [cs[|cs| - 1]] == cs;
      PathsDiffer(up, rs, cs);
      assert Path(up) <= Path(cs) == root && Path(up) != root;
      var nearest := above[0];
      assert nearest == Path(up) && nearest in above && !(root <= nearest);
    }
  }

  // ---------- What the prefix test means ----------

  /** The path is the root or below it, element by element. */
  predicate IsWithin(root: string, path: string) {
    Components(root) <= Components(path)
  }

  lemma {:induction false} JoinAppend(a: seq<string>, b: seq<string>, c: char)
    requires a != [] && b != []
    ensures Join(a + b, c) == Join(a, c) + [c] + Join(b, c)
  {
    if |a| == 1 {
      assert (a + b)[1..] == b;
    } else {
      assert (a + b)[1..] == a[1..] + b;
      JoinAppend(a[1..], b, c);
    }
  }

  lemma WithinHasPrefix(rs: seq<string>, cs: seq<string>)
    requires rs <= cs
    ensures Path(rs) <= Path(cs)
    ensures rs != [] && rs != cs ==> |Path(rs)| < |Path(cs)| && Path(cs)[|Path(rs)|] == '/'
  {
    hide Join;
    var rest := cs[|rs|..];
    assert cs == rs + rest;
    if rs == [] {
      JoinNothing();
    } else if rest != [] {
      JoinAppend(rs, rest, '/');
      assert Path(cs) == Path(rs) + ['/'] + Join(rest, '/');
    } else {
      assert cs == rs;
    }
  }

  lemma PathIsNotEmpty(cs: seq<string>)
    ensures |Path(cs)| >= 1
  {
    hide Join;
  }

  lemma NothingIsRoot()
    ensures Path([]) == "/"
  {
    JoinNothing();
  }

  lemma PrefixWithout(first: string, cs: seq<string>, rs: seq<string>, rest: seq<string>)
    requires [first] + cs == [first] + rs + rest
    ensures rs <= cs
  {
    assert cs == ([first] + cs)[1..] && rs + rest == ([first] + rs + rest)[1..];
  }

  lemma PrefixIsWithin(rs: seq<string>, cs: seq<string>)
    requires AreNames(rs) && AreNames(cs) && rs != []
    requires Path(rs) <= Path(cs) && |Path(rs)| < |Path(cs)| && Path(cs)[|Path(rs)|] == '/'
    ensures rs <= cs
  {
    hide Join, Split, AreNames, Path;
    var root, path := Path(rs), Path(cs);
    var rest := path[|root| + 1..];
    assert path == root + ['/'] + rest;
    SplitAtSeparator(root, '/', rest);
    SplitPath(rs);
    SplitPath(cs);
    PathIsNotEmpty(rs);
    NothingIsRoot();
    assert cs != [];
    PrefixWithout("", cs, rs, Split(rest, '/'));
  }

  /**
   The text prefix the checks test means "the root or below it" exactly when nothing or a slash follows the prefix, or
   the root is "/": a clean path that goes on in the same element passes the test and lies beside the root.
   */
  lemma PrefixMeansWithin(root: string, actual: string)
    requires IsAbsolute(root) && Clean(root) == root && IsAbsolute(actual) && Clean(actual) == actual
    ensures IsWithin(root, actual) <==>
            root <= actual && (root == "/" || actual == root || actual[|root|] == '/')
  {
    hide Components, Join, Split, AreNames;
    var rs, cs := Components(root), Components(actual);
    ComponentsAreNames(root);
    ComponentsAreNames(actual);
    if rs <= cs {
      WithinHasPrefix(rs, cs);
      if rs == [] {
        JoinNothing();
      }
    }
    if root <= actual && actual != root && root != "/" && actual[|root|] == '/' {
      if rs == [] {
        JoinNothing();
      } else {
        PrefixIsWithin(rs, cs);
      }
    }
    if root == "/" {
      RootHasNoElements();
    }
  }

  lemma RootHasNoElements()
    ensures Components("/") == []
  {
    hide Split, Reduce;
    JoinNothing();
    assert AreNames([]) && Path([]) == "/";
    ComponentsOfPath([]);
  }
}
