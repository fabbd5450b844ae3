/** What the API makes of a request to create a sandbox before anything is registered: checks, defaults, lifetime. */
module Requests {
  import opened Wrappers
  import opened Annotations
  import opened Integers
  import opened PoolKeys
  import opened Preview
  import opened Recovery
  import opened Text

  /** `seconds` is the timeout asked for; zero or less asks for none. */
  datatype Request = Request(template: string, seconds: int64, ports: seq<int64>, gui: bool, env: map<string, string>,
                             metadata: map<string, string>, capabilities: seq<string>)

  const CAPABILITIES := {"sudo", "git-ssh", "browser"}

  predicate PortsAcceptable(ports: seq<int64>) {
    && (forall i :: 0 <= i < |ports| ==> 1 <= ports[i] <= 65535)
    && (forall i, j :: 0 <= i < j < |ports| ==> ports[i] != ports[j])
  }

  predicate MetadataAcceptable(metadata: map<string, string>) {
    |metadata| <= 20 && forall k :: k in metadata ==> |k| <= 128 && |metadata[k]| <= 1024
  }

  predicate Acceptable(req: Request) {
    PortsAcceptable(req.ports) && MetadataAcceptable(req.metadata) && forall c :: c in req.capabilities ==> c in CAPABILITIES
  }

  /** The same capabilities without repetition: the list itself if it repeats none, else in any order. */
  ghost predicate Deduplicates(caps: seq<string>, deduped: seq<string>) {
    Elements(deduped) == Elements(caps) && NoRepeats(deduped) && (NoRepeats(caps) ==> deduped == caps)
  }

  /** The request as it goes on. */
  ghost predicate Accepts(req: Request, a: Request) {
    && Deduplicates(req.capabilities, a.capabilities)
    && a == Request(if req.template == "" then "base" else req.template, req.seconds, req.ports,
                    req.gui || "browser" in req.capabilities, req.env, req.metadata, a.capabilities)
  }

  /** The time to live in nanoseconds; the product is one of 64 bits. */
  function Lifetime(seconds: int64, defaultTimeout: int64, maxTimeout: int64): int64 {
    if seconds > 0 then
      var timeout := Wrap(seconds * 1_000_000_000);
      if timeout > maxTimeout then maxTimeout else timeout
    else defaultTimeout
  }

  // ---------- The handler's checks ----------

  method CheckPorts(ports: seq<int64>) returns (ok: bool)
    ensures ok <==> PortsAcceptable(ports)
  {
    var seen: set<int64> := {};
    for i := 0 to |ports|
      invariant PortsAcceptable(ports[..i]) && forall p :: p in seen <==> p in ports[..i]
    {
      if ports[i] < 1 || ports[i] > 65535 {
        return false;
      }
      if ports[i] in seen {
        var k :| 0 <= k < i && ports[k] == ports[i];
        return false;
      }
      seen := seen + {ports[i]};
      assert ports[..i + 1] == ports[..i] + [ports[i]];
    }
    assert ports[..|ports|] == ports;
    return true;
  }

  method CheckMetadata(metadata: map<string, string>) returns (ok: bool)
    ensures ok <==> |metadata| <= 20 && forall k :: k in metadata ==> |k| <= 128 && |metadata[k]| <= 1024
    ensures ok <==> MetadataAcceptable(metadata)
  {
    if |metadata| > 20 {
      return false;
    }
    var todo := metadata.Keys;
    while todo != {}
      invariant todo <= metadata.Keys
      invariant forall k :: k in metadata && k !in todo ==> |k| <= 128 && |metadata[k]| <= 1024
    {
      var k :| k in todo;
      if |k| > 128 || |metadata[k]| > 1024 {
        return false;
      }
      todo := todo - {k};
    }
    return true;
  }

  lemma OneMoreElement(caps: seq<string>, c: string)
    ensures NoRepeats(caps + [c]) <==> NoRepeats(caps) && c !in Elements(caps)
  {
    var more := caps + [c];
    assert forall i :: 0 <= i < |caps| ==> caps[i] == more[i];
    assert more[|caps|] == c;
  }

  /** The keys of a Go map come in any order, so a list with repetitions is put in any order. */
  method CheckCapabilities(caps: seq<string>) returns (r: Option<seq<string>>)
    ensures r.Some? <==> forall c :: c in caps ==> c in CAPABILITIES
    ensures r.Some? ==> Deduplicates(caps, r.value)
    ensures r.Some? ==> (forall c :: c in r.value <==> c in caps) && NoRepeats(r.value)
  {
    hide CAPABILITIES, NoRepeats, Elements;
    var seen: set<string> := {};
    NothingSeen();
    for i := 0 to |caps|
      invariant seen == Elements(caps[..i]) && |seen| <= i && (|seen| == i <==> NoRepeats(caps[..i]))
      invariant forall c :: c in caps[..i] ==> c in CAPABILITIES
    {
      if caps[i] !in CAPABILITIES {
        return None;
      }
      assert caps[..i + 1] == caps[..i] + [caps[i]];
      ElementsAppend(caps[..i], caps[i]);
      OneMoreElement(caps[..i], caps[i]);
      seen := seen + {caps[i]};
    }
    assert caps[..|caps|] == caps;
    if |seen| == |caps| {
      return Some(caps);
    }
    var deduped, todo := [], seen;
    while todo != {}
      invariant Elements(deduped) + todo == seen && Elements(deduped) !! todo && NoRepeats(deduped)
      decreases |todo|
    {
      var c :| c in todo;
      ElementsAppend(deduped, c);
      OneMoreElement(deduped, c);
      deduped, todo := deduped + [c], todo - {c};
    }
    SameMembers(deduped, caps);
    return Some(deduped);
  }

  lemma SameMembers(a: seq<string>, b: seq<string>)
    requires Elements(a) == Elements(b)
    ensures forall c :: c in a <==> c in b
  {
    assert forall c :: c in a <==> c in Elements(a);
    assert forall c :: c in b <==> c in Elements(b);
  }

  lemma NothingSeen()
    ensures Elements([]) == {} && NoRepeats([])
  {}

  method Accept(req: Request) returns (r: Option<Request>)
    ensures r.Some? <==> Acceptable(req)
    ensures r.Some? ==> Accepts(req, r.value)
  {
    hide PortsAcceptable, MetadataAcceptable, Deduplicates, CAPABILITIES;
    var ports := CheckPorts(req.ports);
    if !ports {
      return None;
    }
    var metadata := CheckMetadata(req.metadata);
    if !metadata {
      return None;
    }
    var caps := CheckCapabilities(req.capabilities);
    if caps.None? {
      return None;
    }
    var template := if req.template == "" then "base" else req.template;
    return Some(req.(template := template, gui := req.gui || "browser" in req.capabilities, capabilities := caps.value));
  }

  // ---------- What an accepted request is good for ----------

  /** The three names, and a request that goes on as it was but for an empty template, a browser's GUI and repetitions. */
  lemma AcceptedExactly(req: Request, a: Request)
    ensures Acceptable(req) <==>
            && PortsAcceptable(req.ports) && MetadataAcceptable(req.metadata)
            && forall c :: c in req.capabilities ==> c == "sudo" || c == "git-ssh" || c == "browser"
    ensures Accepts(req, a) ==>
              && a.template == (if req.template == "" then "base" else req.template)
              && a.gui == (req.gui || "browser" in req.capabilities)
              && a.ports == req.ports && a.env == req.env && a.metadata == req.metadata && a.seconds == req.seconds
              && NoRepeats(a.capabilities) && forall c :: c in a.capabilities <==> c in req.capabilities
  {
    if Accepts(req, a) {
      SameMembers(a.capabilities, req.capabilities);
    }
  }

  lemma SameElementsSameKey(template: string, a: seq<string>, b: seq<string>)
    requires Elements(a) == Elements(b)
    ensures PoolKeyFor(template, a) == PoolKeyFor(template, b)
  {
    hide Normal;
    SameMembers(a, b);
    assert CapSet(a) == CapSet(b);
    NormalLists(a);
    NormalLists(b);
    ListIsUnique(Normal(a), Normal(b), CapSet(a));
  }

  /**
   Whatever order the capabilities come out in, the request claims from the one pool, its capabilities survive a restart,
   and the preview URL of each of its ports is served from that port.
   */
  lemma AcceptedIsServed(req: Request, a: Request, domain: string, id: string, port: int64)
    requires Acceptable(req) && Accepts(req, a) && port in a.ports && id != "" && ':' !in id
    ensures PoolKeyFor(a.template, a.capabilities) == PoolKeyFor(a.template, req.capabilities)
    ensures CapabilitiesSurvive(a.capabilities)
    ensures IsServed(domain, id, port)
  {
    hide PoolKeyFor, CapabilitiesSurvive, IsServed;
    SameElementsSameKey(a.template, a.capabilities, req.capabilities);
    forall c | c in a.capabilities ensures c in ["sudo", "git-ssh", "browser"] {
      assert c in Elements(req.capabilities);
    }
    AcceptedCapabilitiesSurvive(a.capabilities);
    ServedExactly(domain, id, port);
  }

  /** The ports the API accepts are exactly those whose printed preview URLs are served from them, each listed once. */
  lemma AcceptablePortsExactly(ports: seq<int64>, domain: string, id: string)
    requires id != "" && ':' !in id
    ensures PortsAcceptable(ports) <==>
            && (forall i :: 0 <= i < |ports| ==> IsServed(domain, id, ports[i]))
            && (forall i, j :: 0 <= i < j < |ports| ==> ports[i] != ports[j])
  {
    hide IsServed;
    forall i | 0 <= i < |ports| ensures IsServed(domain, id, ports[i]) <==> 1 <= ports[i] <= 65535 {
      ServedExactly(domain, id, ports[i]);
    }
  }

  /** The host of the URL printed for the port leads to that port of the sandbox. */
  predicate IsServed(domain: string, id: string, port: int64) {
    var r := NewRouter(domain);
    ServerHandler(r, HostOf(PreviewURL(r, id, port))) == To(Target(id, Itoa(port)))
  }

  lemma ServedExactly(domain: string, id: string, port: int64)
    requires id != "" && ':' !in id
    ensures IsServed(domain, id, port) <==> 1 <= port <= 65535
  {
    hide ServerHandler, HostOf, PreviewURL, NewRouter, Itoa;
    PreviewRoundTrip(domain, id, port);
  }

  /**
   A sandbox lives as long as was asked, up to the maximum, exactly when the product does not wrap around or lands at
   the maximum or beyond.
   */
  lemma LivesAsAskedExactly(seconds: int64, defaultTimeout: int64, maxTimeout: int64)
    requires seconds > 0 && maxTimeout >= 0
    ensures var asked := seconds * 1_000_000_000;
            Lifetime(seconds, defaultTimeout, maxTimeout) == (if asked > maxTimeout then maxTimeout else asked) <==>
            asked < 0x8000_0000_0000_0000 || Wrap(asked) >= maxTimeout
    ensures forall none: int64 :: none <= 0 ==> Lifetime(none, defaultTimeout, maxTimeout) == defaultTimeout
  {
    var asked := seconds * 1_000_000_000;
    if asked < 0x8000_0000_0000_0000 {
      WrapSmall(asked);
    }
  }

  /** A little over 292 years are asked for, and the sandbox has expired before it is created. */
  lemma CanExpireAtOnce(defaultTimeout: int64, maxTimeout: int64)
    requires maxTimeout >= 0
    ensures Lifetime(9_223_372_037, defaultTimeout, maxTimeout) < 0
  {
    assert Wrap(9_223_372_037_000_000_000) == 9_223_372_037_000_000_000 - 0x1_0000_0000_0000_0000;
  }
}
