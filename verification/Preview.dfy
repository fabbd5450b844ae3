/** Preview addresses: the URL the agent prints for a sandbox port, and the host dispatch that reads it back. */
module Preview {
  import opened Wrappers
  import opened Annotations
  import opened Integers

  // ---------- Go's string searches ----------

  /** strings.LastIndex for one character; -1 when it does not occur. */
  function LastIndex(s: string, c: char): (i: int)
    ensures -1 <= i < |s| && (i == -1 <==> c !in s)
    ensures i >= 0 ==> s[i] == c && c !in s[i + 1..]
  {
    if s == "" then -1
    else if s[|s| - 1] == c then |s| - 1
    else
      assert s == s[..|s| - 1] + [s[|s| - 1]];
      LastIndex(s[..|s| - 1], c)
  }

  predicate HasSuffix(s: string, t: string) {
    |t| <= |s| && s[|s| - |t|..] == t
  }

  lemma LastIndexAt(a: string, c: char, b: string)
    requires c !in b
    ensures LastIndex(a + [c] + b, c) == |a|
  {
    hide LastIndex;
    var s := a + [c] + b;
    assert s[|a|] == c && c in s;
    IsLast(s, |a|, c, b);
  }

  lemma LiesAfter(s: string, i: int, n: int)
    ensures 0 <= i < n < |s| ==> s[n] in s[i + 1..]
  {
    if 0 <= i < n < |s| {
      assert s[i + 1..][n - i - 1] == s[n];
    }
  }

  lemma IsLast(s: string, n: nat, c: char, b: string)
    requires n < |s| && s[n] == c && s[n + 1..] == b && c !in b && c in s
    ensures LastIndex(s, c) == n
  {
    hide LastIndex;
    var i := LastIndex(s, c);
    LiesAfter(s, i, n);
    LiesAfter(s, n, i);
  }

  // ---------- The router ----------

  function StripPort(host: string): string {
    var idx := LastIndex(host, ':');
    if idx != -1 then host[..idx] else host
  }

  datatype Router = Router(previewDomain: string, domainHost: string)

  function NewRouter(previewDomain: string): Router {
    Router(previewDomain, StripPort(previewDomain))
  }

  function PreviewURL(r: Router, id: string, port: int64): string {
    var scheme := if HasSuffix(r.domainHost, ".localhost") then "http" else "https";
    scheme + "://sbx-" + id + "-" + Itoa(port) + "." + r.previewDomain
  }

  datatype Target = Target(sandboxId: string, port: string)

  datatype Refusal = BadFormat | MissingId | PortNotNumeric | PortOutOfRange

  function ParseSubdomain(subdomain: string): Result<Target, Refusal> {
    if !("sbx-" <= subdomain) then Err(BadFormat)
    else
      var rest := subdomain[|"sbx-"|..];
      var lastDash := LastIndex(rest, '-');
      if lastDash == -1 then Err(BadFormat)
      else
        var id, port := rest[..lastDash], rest[lastDash + 1..];
        if id == "" then Err(MissingId)
        else
          var n := Atoi(port);
          if n.None? then Err(PortNotNumeric)
          else if n.value < 1 || n.value > 65535 then Err(PortOutOfRange)
          else Ok(Target(id, port))
  }

  /** Where a request goes: to the API, to a 404 or 400 from the preview handler, or to a sandbox port. */
  datatype Served = Api | NotPreview | Refused(why: Refusal) | To(target: Target)

  /** The preview handler up to the sandbox lookup. */
  function PreviewHandler(r: Router, requestHost: string): Served {
    var host, suffix := StripPort(requestHost), "." + r.domainHost;
    if !HasSuffix(host, suffix) then NotPreview
    else
      match ParseSubdomain(host[..|host| - |suffix|])
      case Err(why) => Refused(why)
      case Ok(target) => To(target)
  }

  function ServerHandler(r: Router, requestHost: string): Served {
    if HasSuffix(StripPort(requestHost), "." + r.domainHost) then PreviewHandler(r, requestHost) else Api
  }

  /** The text after the scheme, which a client sends as the Host header. */
  function HostOf(url: string): string {
    if "http://" <= url then url[7..] else if "https://" <= url then url[8..] else url
  }

  // ---------- Parsing ----------

  predicate IsPort(port: string) {
    '-' !in port && Atoi(port).Some? && 1 <= Atoi(port).value <= 65535
  }

  lemma ParsesWellFormed(id: string, port: string)
    requires id != "" && IsPort(port)
    ensures ParseSubdomain("sbx-" + id + "-" + port) == Ok(Target(id, port))
  {
    hide Atoi, LastIndex;
    var s, rest := "sbx-" + id + "-" + port, id + ['-'] + port;
    assert s == "sbx-" + rest;
    assert "sbx-" <= s && s[4..] == rest;
    LastIndexAt(id, '-', port);
    assert rest[..|id|] == id && rest[|id| + 1..] == port;
  }

  lemma SplitAtDash(subdomain: string, i: nat)
    requires "sbx-" <= subdomain && i < |subdomain[4..]| && subdomain[4..][i] == '-'
    ensures subdomain == "sbx-" + subdomain[4..][..i] + "-" + subdomain[4..][i + 1..]
  {
    var rest := subdomain[4..];
    assert subdomain == "sbx-" + rest;
    assert rest == rest[..i] + "-" + rest[i + 1..];
  }

  lemma ParsedIsWellFormed(subdomain: string)
    requires ParseSubdomain(subdomain).Ok?
    ensures var t := ParseSubdomain(subdomain).value;
            subdomain == "sbx-" + t.sandboxId + "-" + t.port && t.sandboxId != "" && IsPort(t.port)
  {
    hide Atoi, LastIndex;
    var i := LastIndex(subdomain[4..], '-');
    var t := Target(subdomain[4..][..i], subdomain[4..][i + 1..]);
    assert ParseSubdomain(subdomain) == Ok(t) && IsPort(t.port);
    hide ParseSubdomain, IsPort;
    SplitAtDash(subdomain, i);
  }

  /** The accepted subdomains are exactly sbx-{id}-{port} with an id and a port in range; the id may hold dashes. */
  lemma ParsesExactly(subdomain: string, t: Target)
    ensures ParseSubdomain(subdomain) == Ok(t) <==>
            subdomain == "sbx-" + t.sandboxId + "-" + t.port && t.sandboxId != "" && IsPort(t.port)
  {
    hide ParseSubdomain, IsPort;
    if ParseSubdomain(subdomain) == Ok(t) {
      ParsedIsWellFormed(subdomain);
    }
    if t.sandboxId != "" && IsPort(t.port) {
      ParsesWellFormed(t.sandboxId, t.port);
    }
  }

  lemma StripAfter(a: string, d: string)
    ensures ':' in d || ':' !in a ==> StripPort(a + d) == a + StripPort(d)
    ensures ':' !in d && ':' in a ==> |StripPort(a + d)| < |a| && StripPort(a + d) <= a
  {
    hide LastIndex;
    if ':' in d {
      var i := LastIndex(d, ':');
      assert d == d[..i] + [':'] + d[i + 1..];
      assert a + d == (a + d[..i]) + [':'] + d[i + 1..];
      LastIndexAt(a + d[..i], ':', d[i + 1..]);
    } else if ':' in a {
      var i := LastIndex(a, ':');
      assert a == a[..i] + [':'] + a[i + 1..];
      assert a + d == a[..i] + [':'] + (a[i + 1..] + d);
      LastIndexAt(a[..i], ':', a[i + 1..] + d);
    }
  }

  lemma DigitsAreNoColons(port: int64)
    ensures ':' !in Itoa(port) && ('-' in Itoa(port) <==> port < 0)
  {
    hide Atoi;
    AtoiItoa(port);
    var k: int := port;
    DigitsFacts(if k < 0 then -k else k);
    if k < 0 {
      assert Itoa(port)[0] == '-';
    }
  }

  lemma PortTextIsPort(port: int64)
    ensures IsPort(Itoa(port)) <==> 1 <= port <= 65535
  {
    hide Atoi, Itoa;
    AtoiItoa(port);
    DigitsAreNoColons(port);
  }

  function Subdomain(id: string, port: int64): string {
    "sbx-" + id + "-" + Itoa(port)
  }

  lemma SchemeAndRest(r: Router, id: string, port: int64)
    ensures PreviewURL(r, id, port) == (if HasSuffix(r.domainHost, ".localhost") then "http://" else "https://") +
            ("sbx-" + id + "-" + Itoa(port) + "." + r.previewDomain)
  {
    hide Itoa, HasSuffix;
    var rest := id + "-" + Itoa(port) + "." + r.previewDomain;
    assert "://sbx-" + id + "-" + Itoa(port) + "." + r.previewDomain == "://sbx-" + rest;
    assert "sbx-" + id + "-" + Itoa(port) + "." + r.previewDomain == "sbx-" + rest;
  }

  lemma HostAfterScheme(rest: string)
    ensures HostOf("http://" + rest) == rest && "http://" <= "http://" + rest
    ensures HostOf("https://" + rest) == rest && !("http://" <= "https://" + rest)
  {
    assert ("https://" + rest)[4] == 's';
  }

  lemma HostOfUrl(r: Router, id: string, port: int64)
    ensures HostOf(PreviewURL(r, id, port)) == (Subdomain(id, port) + ".") + r.previewDomain
    ensures "http://" <= PreviewURL(r, id, port) <==> HasSuffix(r.domainHost, ".localhost")
  {
    hide Itoa, HasSuffix;
    var rest := "sbx-" + id + "-" + Itoa(port) + "." + r.previewDomain;
    SchemeAndRest(r, id, port);
    HostAfterScheme(rest);
    hide PreviewURL, HostOf;
    assert rest == (Subdomain(id, port) + ".") + r.previewDomain;
  }

  /**
   The host of a printed preview URL is served from the sandbox and port it was printed for exactly when
   there is an id, the port is in range, and a colon in the id is not mistaken for the start of a port.
   */
  lemma PreviewRoundTrip(domain: string, id: string, port: int64)
    ensures var r := NewRouter(domain);
            ServerHandler(r, HostOf(PreviewURL(r, id, port))) == To(Target(id, Itoa(port))) <==>
            id != "" && 1 <= port <= 65535 && (':' in domain || ':' !in id)
  {
    hide Itoa, Atoi, ParseSubdomain, PreviewURL, HostOf, LastIndex, StripPort;
    var r := NewRouter(domain);
    HostOfUrl(r, id, port);
    DigitsAreNoColons(port);
    var front := Subdomain(id, port) + ".";
    StripAfter(front, domain);
    assert ':' in front <==> ':' in id;
    var host, suffix := StripPort(front + domain), "." + r.domainHost;
    var t := Target(id, Itoa(port));
    if ':' in domain || ':' !in id {
      assert host == Subdomain(id, port) + suffix;
      assert HasSuffix(host, suffix) && host[..|host| - |suffix|] == Subdomain(id, port);
      ParsesExactly(Subdomain(id, port), t);
      PortTextIsPort(port);
    } else if HasSuffix(host, suffix) {
      ParsesExactly(host[..|host| - |suffix|], t);
      assert |host| <= |Subdomain(id, port)|;
    }
  }

  /** Two routable pairs with the same preview URL are the same pair. */
  lemma PreviewURLsAreDistinct(domain: string, id1: string, port1: int64, id2: string, port2: int64)
    requires id1 != "" && 1 <= port1 <= 65535 && (':' in domain || ':' !in id1)
    requires id2 != "" && 1 <= port2 <= 65535 && (':' in domain || ':' !in id2)
    requires PreviewURL(NewRouter(domain), id1, port1) == PreviewURL(NewRouter(domain), id2, port2)
    ensures id1 == id2 && port1 == port2
  {
    hide Itoa, Atoi, PreviewURL, ServerHandler, HostOf;
    PreviewRoundTrip(domain, id1, port1);
    PreviewRoundTrip(domain, id2, port2);
    AtoiItoa(port1);
    AtoiItoa(port2);
  }

  /** What the server hands to the preview handler is never refused there as a foreign domain; the rest is the API's. */
  lemma DispatchAgrees(r: Router, requestHost: string)
    ensures ServerHandler(r, requestHost) != NotPreview
    ensures ServerHandler(r, requestHost) == Api <==> PreviewHandler(r, requestHost) == NotPreview
    ensures forall t :: ServerHandler(r, requestHost) == To(t) <==>
            StripPort(requestHost) == "sbx-" + t.sandboxId + "-" + t.port + "." + r.domainHost &&
            t.sandboxId != "" && IsPort(t.port)
  {
    hide Atoi, StripPort, ParseSubdomain, IsPort;
    var host, suffix := StripPort(requestHost), "." + r.domainHost;
    forall t
      ensures ServerHandler(r, requestHost) == To(t) <==>
              host == "sbx-" + t.sandboxId + "-" + t.port + "." + r.domainHost && t.sandboxId != "" && IsPort(t.port)
    {
      var sub := "sbx-" + t.sandboxId + "-" + t.port;
      assert sub + "." + r.domainHost == sub + suffix;
      if host == sub + suffix {
        assert HasSuffix(host, suffix) && host[..|host| - |suffix|] == sub;
        ParsesExactly(sub, t);
      } else if HasSuffix(host, suffix) {
        ParsesExactly(host[..|host| - |suffix|], t);
        assert host == host[..|host| - |suffix|] + suffix;
      }
    }
  }
}
