/**
 The state of a sandbox as pod annotations: decimal and comma-separated lists are printed and parsed here;
 JSON objects and RFC 3339 times go through the library and are parameters.
 */
module Annotations {
  import opened Integers
  import opened Wrappers
  import opened Text

  // ---------- Decimal numbers ----------

  predicate IsDigit(c: char) {
    '0' <= c <= '9'
  }

  function Digits(n: nat): string {
    if n < 10 then ['0' + n as char] else Digits(n / 10) + ['0' + (n % 10) as char]
  }

  /** strconv.Itoa */
  function Itoa(n: int): string {
    if n < 0 then "-" + Digits(-n) else Digits(n)
  }

  predicate AllDigits(s: string) {
    forall c :: c in s ==> IsDigit(c)
  }

  function Magnitude(s: string): nat
    requires AllDigits(s)
  {
    if s == "" then 0
    else
      assert s[|s| - 1] in s;
      var digit: nat := s[|s| - 1] as int - '0' as int;
      Magnitude(s[..|s| - 1]) * 10 + digit
  }

  /** strconv.Atoi: an optional sign and digits, within 64 bits. */
  function Atoi(s: string): Option<int64> {
    var signed := s != "" && (s[0] == '-' || s[0] == '+');
    var digits := if signed then s[1..] else s;
    if digits == "" || !AllDigits(digits) then None
    else
      var m: int := Magnitude(digits);
      var n := if signed && s[0] == '-' then -m else m;
      if -0x8000_0000_0000_0000 <= n < 0x8000_0000_0000_0000 then Some(n) else None
  }

  lemma {:induction false} DigitsFacts(n: nat)
    ensures Digits(n) != "" && AllDigits(Digits(n))
    ensures Magnitude(Digits(n)) == n
  {
    if n >= 10 {
      DigitsFacts(n / 10);
      var s := Digits(n);
      assert s[..|s| - 1] == Digits(n / 10);
    } else {
      assert Digits(n)[..0] == "";
    }
  }

  /** Parsing undoes printing, for every 64-bit number; what is printed is digits after an optional minus. */
  lemma AtoiItoa(n: int64)
    ensures Atoi(Itoa(n)) == Some(n)
    ensures Itoa(n) != "" && forall c :: c in Itoa(n) ==> IsDigit(c) || c == '-'
  {
    var k: int := n;
    var m: nat := if k < 0 then -k else k;
    DigitsFacts(m);
    assert Digits(m)[0] in Digits(m);
    if n < 0 {
      assert ("-" + Digits(m))[1..] == Digits(m);
    }
  }

  lemma PrintedNumber(n: int64)
    ensures Survives(Itoa(n)) && Atoi(Trim(Itoa(n))) == Some(n)
  {
    AtoiItoa(n);
    hide Atoi, Itoa, Trim;
    var s := Itoa(n);
    assert s[0] in s && s[|s| - 1] in s;
    TrimFacts(s);
  }

  // ---------- Lists ----------

  predicate Survives(c: string) {
    c != "" && IsTrimmed(c) && ',' !in c
  }

  function PrintAll(ports: seq<int64>): seq<string> {
    if ports == [] then [] else PrintAll(ports[..|ports| - 1]) + [Itoa(ports[|ports| - 1])]
  }

  /** The entries that parse, in order; the others are dropped. */
  function ParseAll(parts: seq<string>): seq<int64> {
    if parts == [] then []
    else
      var before, n := ParseAll(parts[..|parts| - 1]), Atoi(Trim(parts[|parts| - 1]));
      if n.Some? then before + [n.value] else before
  }

  function TrimAll(parts: seq<string>): seq<string> {
    if parts == [] then []
    else
      var before, c := TrimAll(parts[..|parts| - 1]), Trim(parts[|parts| - 1]);
      if c != "" then before + [c] else before
  }

  lemma {:induction false} PrintedParts(ports: seq<int64>)
    ensures |PrintAll(ports)| == |ports|
    ensures forall p :: p in PrintAll(ports) ==> Survives(p)
    ensures ParseAll(PrintAll(ports)) == ports
  {
    hide Itoa, Atoi, Trim, Survives;
    if ports != [] {
      var before := ports[..|ports| - 1];
      PrintedParts(before);
      PrintedNumber(ports[|ports| - 1]);
      assert PrintAll(ports)[..|before|] == PrintAll(before);
    }
  }

  /** A comma-separated list of numbers, printed and parsed again, is the same list. */
  lemma PortsRoundTrip(ports: seq<int64>)
    requires ports != []
    ensures Join(PrintAll(ports), ',') != ""
    ensures ParseAll(Split(Join(PrintAll(ports), ','), ',')) == ports
  {
    hide PrintAll, ParseAll, Split, Join;
    PrintedParts(ports);
    assert forall p :: p in PrintAll(ports) ==> Survives(p) && ',' !in p;
    assert PrintAll(ports)[0] in PrintAll(ports);
    SplitJoin(PrintAll(ports), ',');
    NonEmptyJoin(PrintAll(ports), ',');
  }

  lemma NonEmptyJoin(parts: seq<string>, c: char)
    requires parts != [] && (|parts| == 1 ==> parts[0] != "")
    ensures Join(parts, c) != ""
  {}

  /** Entries that are not numbers vanish and leave the others as they were. */
  lemma MalformedPortsAreDropped(good: seq<int64>, bad: string, more: seq<int64>)
    requires ',' !in bad && Atoi(Trim(bad)) == None
    ensures ParseAll(Split(Join(PrintAll(good) + [bad] + PrintAll(more), ','), ',')) == good + more
  {
    var parts := PrintAll(good) + [bad] + PrintAll(more);
    hide PrintAll, Atoi, Trim, Split, Join, IsTrimmed;
    PrintedParts(good);
    PrintedParts(more);
    SplitJoin(parts, ',');
    ParseAppend(PrintAll(good) + [bad], PrintAll(more));
    assert (PrintAll(good) + [bad])[..|good|] == PrintAll(good);
  }

  lemma {:induction false} ParseAppend(a: seq<string>, b: seq<string>)
    ensures ParseAll(a + b) == ParseAll(a) + ParseAll(b)
  {
    if b == [] {
      assert a + b == a;
    } else {
      assert (a + b)[..|a + b| - 1] == a + b[..|b| - 1];
      ParseAppend(a, b[..|b| - 1]);
    }
  }

  lemma {:induction false} TrimAllFacts(parts: seq<string>)
    requires forall p :: p in parts ==> ',' !in p
    ensures forall c :: c in TrimAll(parts) ==> Survives(c)
    ensures (forall p :: p in parts ==> Survives(p)) ==> TrimAll(parts) == parts
  {
    if parts != [] {
      var last := parts[|parts| - 1];
      TrimAllFacts(parts[..|parts| - 1]);
      TrimFacts(last);
      assert last in parts;
    }
  }

  /** A capability list survives exactly when none of its entries is empty, padded or split by a comma. */
  lemma CapabilitiesRoundTrip(caps: seq<string>)
    requires caps != []
    ensures TrimAll(Split(Join(caps, ','), ',')) == caps <==> forall c :: c in caps ==> Survives(c)
  {
    var parts := Split(Join(caps, ','), ',');
    SplitParts(Join(caps, ','), ',');
    TrimAllFacts(parts);
    if forall c :: c in caps ==> Survives(c) {
      SplitJoin(caps, ',');
    }
  }

  // ---------- Annotations ----------

  const METADATA := "xgen.io/metadata"
  const ENV := "xgen.io/env"
  const PORTS := "xgen.io/ports"
  const GUI := "xgen.io/gui"
  const CAPABILITIES := "xgen.io/capabilities"
  const CREATED_AT := "xgen.io/created-at"
  const EXPIRES_AT := "xgen.io/expires-at"

  /** JSON objects of strings, and times; a time of 0 is Go's zero time. */
  datatype Library = Library(json: map<string, string> -> Option<string>, unjson: string -> map<string, string>,
                             stamp: int -> string, unstamp: string -> Option<int>)

  /** What the library promises: objects and times come back, and are never printed as nothing. */
  ghost predicate Promises(lib: Library) {
    && (forall m :: lib.json(m).Some? && lib.json(m).value != "" && lib.unjson(lib.json(m).value) == m)
    && (forall t :: lib.stamp(t) != "" && lib.unstamp(lib.stamp(t)) == Some(t))
  }

  datatype Ann = Ann(metadata: map<string, string>, env: map<string, string>, ports: seq<int64>, gui: bool,
                     capabilities: seq<string>, createdAt: int, expiresAt: int)

  const ZERO := Ann(map[], map[], [], false, [], 0, 0)

  predicate IsZero(a: Ann) {
    |a.metadata| == 0 && |a.env| == 0 && |a.ports| == 0 && !a.gui && |a.capabilities| == 0 &&
    a.createdAt == 0 && a.expiresAt == 0
  }

  const KEYS := {METADATA, ENV, PORTS, GUI, CAPABILITIES, CREATED_AT, EXPIRES_AT}

  /** The map holds `text` under the key when there is something to keep, and no such key otherwise. */
  predicate Keeps(out: map<string, string>, key: string, wanted: bool, text: Option<string>) {
    if wanted && text.Some? then key in out && out[key] == text.value else key !in out
  }

  predicate Encodes(lib: Library, a: Ann, out: map<string, string>) {
    && out.Keys <= KEYS
    && Keeps(out, METADATA, |a.metadata| > 0, lib.json(a.metadata))
    && Keeps(out, ENV, |a.env| > 0, lib.json(a.env))
    && Keeps(out, PORTS, |a.ports| > 0, Some(Join(PrintAll(a.ports), ',')))
    && Keeps(out, GUI, a.gui, Some("true"))
    && Keeps(out, CAPABILITIES, |a.capabilities| > 0, Some(Join(a.capabilities, ',')))
    && Keeps(out, CREATED_AT, a.createdAt != 0, Some(lib.stamp(a.createdAt)))
    && Keeps(out, EXPIRES_AT, a.expiresAt != 0, Some(lib.stamp(a.expiresAt)))
  }

  method EncodePorts(ports: seq<int64>) returns (parts: seq<string>)
    ensures parts == PrintAll(ports)
  {
    hide Itoa;
    parts := [];
    for i := 0 to |ports|
      invariant parts == PrintAll(ports[..i])
    {
      assert ports[..i + 1][..i] == ports[..i];
      parts := parts + [Itoa(ports[i])];
    }
    assert ports[..|ports|] == ports;
  }

  /** The map after writing `text` under the key, if there is something to keep. */
  ghost function Written(m: map<string, string>, key: string, wanted: bool, text: Option<string>): map<string, string> {
    if wanted && text.Some? then m[key := text.value] else m
  }

  /** The maps agree on every other key. */
  ghost predicate Spares(m: map<string, string>, n: map<string, string>, keys: set<string>) {
    forall k {:trigger k in n} :: k !in keys ==> (k in m <==> k in n) && (k in m ==> m[k] == n[k])
  }

  /** The text fields after the two maps: ports, flag and capabilities. */
  ghost function WithLists(a: Ann, m: map<string, string>): map<string, string> {
    Written(Written(Written(m,
      PORTS, |a.ports| > 0, Some(Join(PrintAll(a.ports), ','))),
      GUI, a.gui, Some("true")),
      CAPABILITIES, |a.capabilities| > 0, Some(Join(a.capabilities, ',')))
  }

  ghost function WithTimes(lib: Library, a: Ann, m: map<string, string>): map<string, string> {
    Written(Written(m,
      CREATED_AT, a.createdAt != 0, Some(lib.stamp(a.createdAt))),
      EXPIRES_AT, a.expiresAt != 0, Some(lib.stamp(a.expiresAt)))
  }

  ghost function WithMaps(lib: Library, a: Ann): map<string, string> {
    Written(Written(map[], METADATA, |a.metadata| > 0, lib.json(a.metadata)), ENV, |a.env| > 0, lib.json(a.env))
  }

  lemma KeepsOn(m: map<string, string>, n: map<string, string>, keys: set<string>, key: string, wanted: bool,
                text: Option<string>)
    requires Spares(m, n, keys) && key !in keys && Keeps(m, key, wanted, text)
    ensures Keeps(n, key, wanted, text)
  {}

  lemma WritesMaps(lib: Library, a: Ann)
    ensures Keeps(WithMaps(lib, a), METADATA, |a.metadata| > 0, lib.json(a.metadata))
    ensures Keeps(WithMaps(lib, a), ENV, |a.env| > 0, lib.json(a.env))
    ensures Spares(map[], WithMaps(lib, a), {METADATA, ENV})
  {
    KeysDiffer();
    hide METADATA, ENV;
  }

  lemma WritesLists(a: Ann, m: map<string, string>)
    requires m.Keys <= {METADATA, ENV}
    ensures Keeps(WithLists(a, m), PORTS, |a.ports| > 0, Some(Join(PrintAll(a.ports), ',')))
    ensures Keeps(WithLists(a, m), GUI, a.gui, Some("true"))
    ensures Keeps(WithLists(a, m), CAPABILITIES, |a.capabilities| > 0, Some(Join(a.capabilities, ',')))
    ensures Spares(m, WithLists(a, m), {PORTS, GUI, CAPABILITIES})
  {
    KeysDiffer();
    hide Join, PrintAll, METADATA, ENV, PORTS, GUI, CAPABILITIES;
  }

  lemma WritesTimes(lib: Library, a: Ann, m: map<string, string>)
    requires m.Keys <= {METADATA, ENV, PORTS, GUI, CAPABILITIES}
    ensures Keeps(WithTimes(lib, a, m), CREATED_AT, a.createdAt != 0, Some(lib.stamp(a.createdAt)))
    ensures Keeps(WithTimes(lib, a, m), EXPIRES_AT, a.expiresAt != 0, Some(lib.stamp(a.expiresAt)))
    ensures Spares(m, WithTimes(lib, a, m), {CREATED_AT, EXPIRES_AT})
  {
    KeysDiffer();
    hide METADATA, ENV, PORTS, GUI, CAPABILITIES, CREATED_AT, EXPIRES_AT;
  }

  lemma WritesOnlyKeys(lib: Library, a: Ann)
    ensures WithMaps(lib, a).Keys <= {METADATA, ENV}
    ensures WithLists(a, WithMaps(lib, a)).Keys <= {METADATA, ENV, PORTS, GUI, CAPABILITIES}
    ensures WithTimes(lib, a, WithLists(a, WithMaps(lib, a))).Keys <= KEYS
  {
    hide Join, PrintAll, METADATA, ENV, PORTS, GUI, CAPABILITIES, CREATED_AT, EXPIRES_AT;
  }

  /** The later writes leave the two maps alone. */
  lemma MapsStay(lib: Library, a: Ann)
    ensures Keeps(WithTimes(lib, a, WithLists(a, WithMaps(lib, a))), METADATA, |a.metadata| > 0, lib.json(a.metadata))
    ensures Keeps(WithTimes(lib, a, WithLists(a, WithMaps(lib, a))), ENV, |a.env| > 0, lib.json(a.env))
  {
    hide Join, PrintAll, Keeps, Spares, Written, WithMaps, WithLists, WithTimes;
    hide METADATA, ENV, PORTS, GUI, CAPABILITIES, CREATED_AT, EXPIRES_AT;
    WritesOnlyKeys(lib, a);
    KeysDiffer();
    var m, lists, times := WithMaps(lib, a), {PORTS, GUI, CAPABILITIES}, {CREATED_AT, EXPIRES_AT};
    WritesMaps(lib, a);
    WritesLists(a, m);
    var n := WithLists(a, m);
    WritesTimes(lib, a, n);
    var out := WithTimes(lib, a, n);
    KeepsOn(m, n, lists, METADATA, |a.metadata| > 0, lib.json(a.metadata));
    KeepsOn(m, n, lists, ENV, |a.env| > 0, lib.json(a.env));
    KeepsOn(n, out, times, METADATA, |a.metadata| > 0, lib.json(a.metadata));
    KeepsOn(n, out, times, ENV, |a.env| > 0, lib.json(a.env));
  }

  /** Writes under seven keys encode the struct. */
  lemma WritesEncode(lib: Library, a: Ann)
    ensures Encodes(lib, a, WithTimes(lib, a, WithLists(a, WithMaps(lib, a))))
  {
    MapsStay(lib, a);
    hide Join, PrintAll, Keeps, Spares, Written, WithMaps, WithLists, WithTimes;
    hide METADATA, ENV, PORTS, GUI, CAPABILITIES, CREATED_AT, EXPIRES_AT;
    WritesOnlyKeys(lib, a);
    KeysDiffer();
    var times := {CREATED_AT, EXPIRES_AT};
    WritesLists(a, WithMaps(lib, a));
    var n := WithLists(a, WithMaps(lib, a));
    WritesTimes(lib, a, n);
    var out := WithTimes(lib, a, n);
    KeepsOn(n, out, times, PORTS, |a.ports| > 0, Some(Join(PrintAll(a.ports), ',')));
    KeepsOn(n, out, times, GUI, a.gui, Some("true"));
    KeepsOn(n, out, times, CAPABILITIES, |a.capabilities| > 0, Some(Join(a.capabilities, ',')));
  }

  method Encode(lib: Library, a: Ann) returns (r: Option<map<string, string>>)
    ensures r.None? <==> (|a.metadata| > 0 && lib.json(a.metadata).None?) || (|a.env| > 0 && lib.json(a.env).None?)
    ensures r.Some? ==> Encodes(lib, a, r.value)
  {
    WritesEncode(lib, a);
    hide Encodes, Join, PrintAll, METADATA, ENV, PORTS, GUI, CAPABILITIES, CREATED_AT, EXPIRES_AT;
    var out: map<string, string> := map[];
    if |a.metadata| > 0 {
      var b := lib.json(a.metadata);
      if b.None? {
        return None;
      }
      out := out[METADATA := b.value];
    }
    if |a.env| > 0 {
      var b := lib.json(a.env);
      if b.None? {
        return None;
      }
      out := out[ENV := b.value];
    }
    assert out == WithMaps(lib, a);
    if |a.ports| > 0 {
      var parts := EncodePorts(a.ports);
      out := out[PORTS := Join(parts, ',')];
    }
    if a.gui {
      out := out[GUI := "true"];
    }
    if |a.capabilities| > 0 {
      out := out[CAPABILITIES := Join(a.capabilities, ',')];
    }
    assert out == WithLists(a, WithMaps(lib, a));
    if a.createdAt != 0 {
      out := out[CREATED_AT := lib.stamp(a.createdAt)];
    }
    if a.expiresAt != 0 {
      out := out[EXPIRES_AT := lib.stamp(a.expiresAt)];
    }
    return Some(out);
  }

  /** strconv.ParseBool */
  function ParseBool(s: string): Option<bool> {
    if s in ["1", "t", "T", "TRUE", "true", "True"] then Some(true)
    else if s in ["0", "f", "F", "FALSE", "false", "False"] then Some(false)
    else None
  }

  /** The annotation's text; a missing one reads as the empty string. */
  function At(ann: map<string, string>, key: string): string {
    if key in ann then ann[key] else ""
  }

  function DecodeTime(lib: Library, s: string): int {
    if s != "" && lib.unstamp(s).Some? then lib.unstamp(s).value else 0
  }

  /** Each field on its own; whatever does not parse reads as absent. */
  function Decoded(lib: Library, ann: map<string, string>): Ann {
    Ann(
      if At(ann, METADATA) != "" then lib.unjson(At(ann, METADATA)) else map[],
      if At(ann, ENV) != "" then lib.unjson(At(ann, ENV)) else map[],
      if At(ann, PORTS) != "" then ParseAll(Split(At(ann, PORTS), ',')) else [],
      At(ann, GUI) != "" && ParseBool(At(ann, GUI)) == Some(true),
      if At(ann, CAPABILITIES) != "" then TrimAll(Split(At(ann, CAPABILITIES), ',')) else [],
      DecodeTime(lib, At(ann, CREATED_AT)),
      DecodeTime(lib, At(ann, EXPIRES_AT)))
  }

  method Decode(lib: Library, ann: map<string, string>) returns (out: Ann)
    ensures out == Decoded(lib, ann)
  {
    out := ZERO;
    if |ann| == 0 {
      return;
    }
    var s := At(ann, METADATA);
    if s != "" {
      out := out.(metadata := lib.unjson(s));
    }
    s := At(ann, ENV);
    if s != "" {
      out := out.(env := lib.unjson(s));
    }
    s := At(ann, PORTS);
    if s != "" {
      var ports := DecodePorts(Split(s, ','));
      out := out.(ports := ports);
    }
    s := At(ann, GUI);
    if s != "" {
      var b := ParseBool(s);
      if b.Some? {
        out := out.(gui := b.value);
      }
    }
    s := At(ann, CAPABILITIES);
    if s != "" {
      var caps := DecodeCapabilities(Split(s, ','));
      out := out.(capabilities := caps);
    }
    out := out.(createdAt := DecodeTime(lib, At(ann, CREATED_AT)), expiresAt := DecodeTime(lib, At(ann, EXPIRES_AT)));
  }

  /** The GUI flag is set by exactly the spellings of true; anything else, written or not, reads as unset. */
  lemma GuiExactly(lib: Library, ann: map<string, string>)
    ensures Decoded(lib, ann).gui <==> GUI in ann && ann[GUI] in {"1", "t", "T", "TRUE", "true", "True"}
  {
    hide Split, ParseAll, TrimAll, DecodeTime;
  }

  method DecodePorts(parts: seq<string>) returns (ports: seq<int64>)
    ensures ports == ParseAll(parts)
  {
    ports := [];
    for i := 0 to |parts|
      invariant ports == ParseAll(parts[..i])
    {
      assert parts[..i + 1][..i] == parts[..i];
      var n := Atoi(Trim(parts[i]));
      if n.Some? {
        ports := ports + [n.value];
      }
    }
    assert parts[..|parts|] == parts;
  }

  method DecodeCapabilities(parts: seq<string>) returns (caps: seq<string>)
    ensures caps == TrimAll(parts)
  {
    caps := [];
    for i := 0 to |parts|
      invariant caps == TrimAll(parts[..i])
    {
      assert parts[..i + 1][..i] == parts[..i];
      var c := Trim(parts[i]);
      if c != "" {
        caps := caps + [c];
      }
    }
    assert parts[..|parts|] == parts;
  }

  lemma KeysDiffer()
    ensures METADATA !in {ENV, PORTS, GUI, CAPABILITIES, CREATED_AT, EXPIRES_AT}
    ensures ENV !in {PORTS, GUI, CAPABILITIES, CREATED_AT, EXPIRES_AT}
    ensures PORTS !in {GUI, CAPABILITIES, CREATED_AT, EXPIRES_AT}
    ensures GUI !in {CAPABILITIES, CREATED_AT, EXPIRES_AT}
    ensures CAPABILITIES !in {CREATED_AT, EXPIRES_AT} && CREATED_AT != EXPIRES_AT
  {
    assert METADATA[8] == 'm' && ENV[8..10] == "en" && PORTS[8] == 'p' && GUI[8] == 'g';
    assert CAPABILITIES[8..10] == "ca" && CREATED_AT[8..10] == "cr" && EXPIRES_AT[8..10] == "ex";
  }

  /** Every field comes back, except that the capability list must be free of empty, padded or split entries. */
  lemma AnnotationsRoundTrip(lib: Library, a: Ann, out: map<string, string>)
    requires Promises(lib) && Encodes(lib, a, out)
    ensures Decoded(lib, out) == a <==> forall c :: c in a.capabilities ==> Survives(c)
    ensures Decoded(lib, out).(capabilities := a.capabilities) == a
  {
    hide Join, Split, PrintAll, ParseAll, TrimAll, Survives;
    KeysDiffer();
    var back := Decoded(lib, out);
    assert lib.json(a.metadata).Some? && lib.json(a.env).Some?;
    assert back.metadata == a.metadata && back.env == a.env;
    if a.ports != [] {
      PortsRoundTrip(a.ports);
    }
    assert back.ports == a.ports && back.gui == a.gui;
    assert lib.stamp(a.createdAt) != "" && lib.stamp(a.expiresAt) != "";
    assert back.createdAt == a.createdAt && back.expiresAt == a.expiresAt;
    CapabilitiesBack(lib, a, out);
  }

  lemma CapabilitiesBack(lib: Library, a: Ann, out: map<string, string>)
    requires Encodes(lib, a, out)
    ensures Decoded(lib, out).capabilities == a.capabilities <==> forall c :: c in a.capabilities ==> Survives(c)
  {
    KeysDiffer();
    if a.capabilities != [] {
      CapabilitiesRoundTrip(a.capabilities);
      assert out[CAPABILITIES] == Join(a.capabilities, ',');
      if Join(a.capabilities, ',') == "" {
        assert a.capabilities[0] == "" && a.capabilities[0] in a.capabilities;
      }
    }
  }

  /** Nothing is written exactly when there is nothing worth keeping. */
  lemma EncodesNothingIffZero(lib: Library, a: Ann, out: map<string, string>)
    requires Promises(lib) && Encodes(lib, a, out)
    ensures out == map[] <==> IsZero(a)
  {
    KeysDiffer();
    assert lib.json(a.metadata).Some? && lib.json(a.env).Some?;
    assert (METADATA in out) == (|a.metadata| > 0) && (ENV in out) == (|a.env| > 0) && (PORTS in out) == (|a.ports| > 0);
    assert (GUI in out) == a.gui && (CAPABILITIES in out) == (|a.capabilities| > 0);
    assert (CREATED_AT in out) == (a.createdAt != 0) && (EXPIRES_AT in out) == (a.expiresAt != 0);
  }
}
