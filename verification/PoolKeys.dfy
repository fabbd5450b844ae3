/**
 Which warm pool a pod belongs to: capability sets are brought to a normal form, joined with the
 template into a key, written to the pod as labels, and read back from them.
 */
module PoolKeys {
  import opened Text

  const CAP_LABEL := "xgen.io/cap-"
  const NAME_LABEL := "app.kubernetes.io/name"
  const ID_LABEL := "xgen.io/sandbox-id"
  const TEMPLATE_LABEL := "xgen.io/template"

  datatype PoolSpec = PoolSpec(template: string, capabilities: seq<string>)

  /** The capabilities a list stands for. */
  function CapSet(caps: seq<string>): set<string> {
    set c | c in caps && Trim(c) != "" :: Trim(c)
  }

  predicate IsNormal(caps: seq<string>) {
    StrictlySorted(caps) && forall c :: c in caps ==> c != "" && IsTrimmed(c)
  }

  function InsertOnce(x: string, xs: seq<string>): seq<string> {
    if x in xs then xs else Insert(x, xs)
  }

  /** The normal form of a capability list. */
  function Normal(caps: seq<string>): seq<string> {
    if caps == [] then []
    else
      var c := Trim(caps[0]);
      if c == "" then Normal(caps[1..]) else InsertOnce(c, Normal(caps[1..]))
  }

  lemma {:induction false} InsertOnceLists(x: string, xs: seq<string>, s: set<string>)
    requires Lists(xs, s)
    ensures Lists(InsertOnce(x, xs), s + {x})
  {
    if x !in xs {
      var r := Insert(x, xs);
      StrictIsSorted(xs);
      InsertKeepsSorted(x, xs);
      assert forall y :: y in r <==> y in multiset(r);
      assert forall y :: y in r <==> y == x || y in xs;
      SortedOnceIsStrict(r, x, xs);
    } else {
      assert x in Elements(xs);
    }
  }

  lemma StrictIsSorted(xs: seq<string>)
    requires StrictlySorted(xs)
    ensures Sorted(xs) && NoRepeats(xs)
  {
    forall i, j | 0 <= i < j < |xs| ensures !Less(xs[j], xs[i]) && xs[i] != xs[j] {
      LessIsTotal(xs[i], xs[j]);
      LessIsTotal(xs[i], xs[i]);
    }
  }

  lemma SortedOnceIsStrict(r: seq<string>, x: string, xs: seq<string>)
    requires Sorted(r) && multiset(r) == multiset(xs) + multiset{x} && x !in xs && NoRepeats(xs)
    ensures StrictlySorted(r)
  {
    assert x !in multiset(xs);
    forall i, j | 0 <= i < j < |r| ensures Less(r[i], r[j]) {
      LessIsTotal(r[i], r[j]);
      if r[i] == r[j] {
        CountTwice(r, i, j);
        CountOnce(xs, r[i]);
      }
    }
  }

  /** The normal form lists exactly the set, whatever the order and the repetitions of the caller's list. */
  lemma {:induction false} NormalLists(caps: seq<string>)
    ensures Lists(Normal(caps), CapSet(caps))
  {
    if caps == [] {
      assert CapSet(caps) == {};
    } else {
      var c, rest := Trim(caps[0]), caps[1..];
      NormalLists(rest);
      assert forall x :: x in caps <==> x == caps[0] || x in rest;
      if c == "" {
        assert CapSet(caps) == CapSet(rest);
      } else {
        assert CapSet(caps) == CapSet(rest) + {c};
        InsertOnceLists(c, Normal(rest), CapSet(rest));
      }
    }
  }

  lemma NormalIsNormal(caps: seq<string>)
    ensures IsNormal(Normal(caps))
  {
    NormalLists(caps);
    forall c | c in Normal(caps) ensures c != "" && IsTrimmed(c) {
      assert c in CapSet(caps);
      var x :| x in caps && Trim(x) != "" && c == Trim(x);
      TrimFacts(x);
    }
  }

  /** Lists in normal form are left alone; in particular normalising twice changes nothing. */
  lemma NormalFixesNormal(caps: seq<string>)
    ensures Normal(caps) == caps <==> IsNormal(caps)
    ensures Normal(Normal(caps)) == Normal(caps)
  {
    NormalIsNormal(caps);
    NormalIsNormal(Normal(caps));
    if IsNormal(caps) {
      NormalUnchanged(caps);
    }
    NormalUnchanged(Normal(caps));
  }

  lemma NormalUnchanged(caps: seq<string>)
    requires IsNormal(caps)
    ensures Normal(caps) == caps && CapSet(caps) == Elements(caps)
  {
    forall c | c in caps ensures Trim(c) == c {
      TrimFacts(c);
    }
    assert CapSet(caps) == Elements(caps);
    NormalLists(caps);
    ListIsUnique(Normal(caps), caps, Elements(caps));
  }

  method NormalizeCapabilities(caps: seq<string>) returns (out: seq<string>)
    ensures out == Normal(caps)
  {
    if |caps| == 0 {
      return [];
    }
    var seen: set<string> := {};
    out := [];
    for i := 0 to |caps|
      invariant NoRepeats(out) && seen == Elements(out) == CapSet(caps[..i])
    {
      var c := Trim(caps[i]);
      assert forall x :: x in caps[..i + 1] <==> x in caps[..i] || x == caps[i];
      if c == "" || c in seen {
        assert CapSet(caps[..i + 1]) == CapSet(caps[..i]);
        continue;
      }
      assert CapSet(caps[..i + 1]) == CapSet(caps[..i]) + {c};
      seen := seen + {c};
      out := out + [c];
    }
    assert caps[..|caps|] == caps;
    SortLists(out);
    NormalLists(caps);
    ListIsUnique(Sort(out), Normal(caps), CapSet(caps));
    out := Sort(out);
  }

  // ---------- Keys ----------

  function Key(spec: PoolSpec): string {
    if spec.capabilities == [] then spec.template else spec.template + "/" + Join(spec.capabilities, ',')
  }

  function PoolKeyFor(template: string, caps: seq<string>): string {
    Key(PoolSpec(template, Normal(caps)))
  }

  lemma {:induction false} SlashSplits(t1: string, r1: string, t2: string, r2: string)
    requires '/' !in t1 && '/' !in t2 && t1 + "/" + r1 == t2 + "/" + r2
    ensures t1 == t2 && r1 == r2
  {
    var s := t1 + "/" + r1;
    assert s[|t1|] == '/' && s[|t2|] == '/';
    assert forall k :: 0 <= k < |t1| ==> s[k] == t1[k] && t1[k] in t1;
    assert forall k :: 0 <= k < |t2| ==> s[k] == t2[k] && t2[k] in t2;
    assert s[..|t1|] == t1 && s[..|t2|] == t2;
    assert s[|t1| + 1..] == r1 && s[|t2| + 1..] == r2;
  }

  lemma KeyHasSlash(spec: PoolSpec)
    requires '/' !in spec.template
    ensures '/' in Key(spec) <==> spec.capabilities != []
  {
    if spec.capabilities != [] {
      assert Key(spec)[|spec.template|] == '/';
    }
  }

  /** Two pods share a pool exactly when they have the same template and the same set of capabilities. */
  lemma KeysAreCanonical(t1: string, caps1: seq<string>, t2: string, caps2: seq<string>)
    requires '/' !in t1 && '/' !in t2
    requires (forall c :: c in caps1 ==> ',' !in c) && (forall c :: c in caps2 ==> ',' !in c)
    ensures PoolKeyFor(t1, caps1) == PoolKeyFor(t2, caps2) <==> t1 == t2 && CapSet(caps1) == CapSet(caps2)
  {
    var n1, n2 := Normal(caps1), Normal(caps2);
    hide Normal, CapSet, Join;
    NormalLists(caps1);
    NormalLists(caps2);
    if t1 == t2 && CapSet(caps1) == CapSet(caps2) {
      ListIsUnique(n1, n2, CapSet(caps1));
    }
    if PoolKeyFor(t1, caps1) == PoolKeyFor(t2, caps2) {
      NotInNormal(caps1, ',');
      NotInNormal(caps2, ',');
      KeyHasSlash(PoolSpec(t1, n1));
      KeyHasSlash(PoolSpec(t2, n2));
      if n1 != [] && n2 != [] {
        SlashSplits(t1, Join(n1, ','), t2, Join(n2, ','));
        JoinInjective(n1, n2, ',');
      }
    }
  }

  lemma NotInNormal(caps: seq<string>, ch: char)
    requires forall c :: c in caps ==> ch !in c
    ensures forall c :: c in Normal(caps) ==> ch !in c
  {
    hide Normal, Trim;
    NormalLists(caps);
    forall c | c in Normal(caps) ensures ch !in c {
      assert c in CapSet(caps);
      var x :| x in caps && Trim(x) != "" && c == Trim(x);
      TrimFacts(x);
    }
  }

  lemma {:induction false} NotInJoin(parts: seq<string>, separator: char, ch: char)
    requires ch != separator && forall p :: p in parts ==> ch !in p
    ensures ch !in Join(parts, separator)
  {
    if |parts| > 1 {
      NotInJoin(parts[1..], separator, ch);
    }
  }

  lemma LastSlashSplits(t1: string, r1: string, t2: string, r2: string)
    requires '/' !in r1 && '/' !in r2 && t1 + "/" + r1 == t2 + "/" + r2
    ensures t1 == t2 && r1 == r2
  {
    var s := t1 + "/" + r1;
    LiesInRest(t1, r1, |t2|);
    LiesInRest(t2, r2, |t1|);
    assert s[|t1|] == '/' && s[|t2|] == '/';
    assert s[..|t1|] == t1 && s[..|t2|] == t2;
    assert s[|t1| + 1..] == r1 && s[|t2| + 1..] == r2;
  }

  lemma LiesInRest(t: string, r: string, k: int)
    ensures var s := t + "/" + r; |t| < k < |s| ==> s[k] in r
  {
    if |t| < k < |t + "/" + r| {
      assert (t + "/" + r)[k] == r[k - |t| - 1];
    }
  }

  /** The first template reads like the key of the other's capability pool. */
  predicate ReadsLikeKey(t1: string, caps1: seq<string>, t2: string, caps2: seq<string>) {
    CapSet(caps1) == {} && CapSet(caps2) != {} && t1 == t2 + "/" + Join(Normal(caps2), ',')
  }

  /**
   For any templates at all, and capabilities that a label can carry, which hold neither ',' nor '/': two different pools
   share a key exactly when one has no capabilities and its template is the other's template, a slash, and the other's
   capabilities.
   */
  lemma KeysCollideExactly(t1: string, caps1: seq<string>, t2: string, caps2: seq<string>)
    requires (forall c :: c in caps1 ==> ',' !in c && '/' !in c) && (forall c :: c in caps2 ==> ',' !in c && '/' !in c)
    requires t1 != t2 || CapSet(caps1) != CapSet(caps2)
    ensures PoolKeyFor(t1, caps1) == PoolKeyFor(t2, caps2) <==>
            ReadsLikeKey(t1, caps1, t2, caps2) || ReadsLikeKey(t2, caps2, t1, caps1)
  {
    hide Normal, CapSet, Join;
    var n1, n2 := Normal(caps1), Normal(caps2);
    NormalLists(caps1);
    NormalLists(caps2);
    ElementsEmpty(n1);
    ElementsEmpty(n2);
    NotInNormal(caps1, ',');
    NotInNormal(caps2, ',');
    NotInNormal(caps1, '/');
    NotInNormal(caps2, '/');
    NotInJoin(n1, ',', '/');
    NotInJoin(n2, ',', '/');
    if PoolKeyFor(t1, caps1) == PoolKeyFor(t2, caps2) && n1 != [] && n2 != [] {
      LastSlashSplits(t1, Join(n1, ','), t2, Join(n2, ','));
      JoinInjective(n1, n2, ',');
    }
  }

  /** A slash in a template makes two pools share a key. */
  lemma SlashCollides(t: string, c: string)
    requires c != "" && IsTrimmed(c)
    ensures PoolKeyFor(t + "/" + c, []) == PoolKeyFor(t, [c])
  {
    NormalUnchanged([c]);
  }

  /** So would a comma in a capability, which neither a label nor the agent's configuration lets through. */
  lemma CommaCollides(t: string, a: string, b: string)
    requires a != "" && IsTrimmed(a) && b != "" && IsTrimmed(b) && Less(a, b)
    ensures PoolKeyFor(t, [a + "," + b]) == PoolKeyFor(t, [a, b]) && CapSet([a + "," + b]) != CapSet([a, b])
  {
    var ab := a + "," + b;
    assert ab[0] == a[0] && ab[|ab| - 1] == b[|b| - 1];
    NormalUnchanged([ab]);
    NormalUnchanged([a, b]);
    assert [a, b][1..] == [b] && Join([b], ',') == b;
    assert ab in Elements([ab]) && |ab| > |a| && |ab| > |b|;
    assert ab !in Elements([a, b]);
  }

  // ---------- Labels ----------

  /** The labels of a pod as CreatePod writes them. */
  function LabelsOf(id: string, template: string, caps: seq<string>): map<string, string> {
    if caps == [] then map[NAME_LABEL := "xgen-sandbox", ID_LABEL := id, TEMPLATE_LABEL := template]
    else LabelsOf(id, template, caps[..|caps| - 1])[CAP_LABEL + caps[|caps| - 1] := "true"]
  }

  method PodLabels(id: string, template: string, caps: seq<string>) returns (labels: map<string, string>)
    ensures labels == LabelsOf(id, template, caps)
  {
    labels := map[NAME_LABEL := "xgen-sandbox", ID_LABEL := id, TEMPLATE_LABEL := template];
    for i := 0 to |caps|
      invariant labels == LabelsOf(id, template, caps[..i])
    {
      assert caps[..i + 1][..i] == caps[..i];
      labels := labels[CAP_LABEL + caps[i] := "true"];
    }
    assert caps[..|caps|] == caps;
  }

  function CapsIn(keys: set<string>): set<string> {
    set key | key in keys && CAP_LABEL <= key :: key[|CAP_LABEL|..]
  }

  lemma CapsInMore(keys: set<string>, key: string)
    ensures CapsIn(keys + {key}) == if CAP_LABEL <= key then CapsIn(keys) + {key[|CAP_LABEL|..]} else CapsIn(keys)
    ensures CAP_LABEL <= key ==> (key[|CAP_LABEL|..] in CapsIn(keys) <==> key in keys)
  {
    if CAP_LABEL <= key && key[|CAP_LABEL|..] in CapsIn(keys) {
      var k :| k in keys && CAP_LABEL <= k && k[|CAP_LABEL|..] == key[|CAP_LABEL|..];
      assert k == CAP_LABEL + k[|CAP_LABEL|..] && key == CAP_LABEL + key[|CAP_LABEL|..];
    }
  }

  /** Reads the capabilities back, visiting the labels in any order. */
  method CapabilitiesFromLabels(labels: map<string, string>) returns (out: seq<string>)
    ensures Lists(out, CapsIn(labels.Keys))
  {
    out := [];
    var left := labels.Keys;
    ghost var visited: set<string> := {};
    while left != {}
      invariant visited + left == labels.Keys && visited !! left
      invariant NoRepeats(out) && Elements(out) == CapsIn(visited)
      decreases left
    {
      var key :| key in left;
      CapsInMore(visited, key);
      if CAP_LABEL <= key {
        var c := key[|CAP_LABEL|..];
        assert c in out <==> c in Elements(out);
        ElementsAppend(out, c);
        out := out + [c];
      }
      left, visited := left - {key}, visited + {key};
    }
    assert visited == labels.Keys;
    SortLists(out);
    out := Sort(out);
  }

  lemma {:induction false} LabelsCarryCaps(id: string, template: string, caps: seq<string>)
    ensures CapsIn(LabelsOf(id, template, caps).Keys) == Elements(caps)
    ensures TEMPLATE_LABEL in LabelsOf(id, template, caps) && LabelsOf(id, template, caps)[TEMPLATE_LABEL] == template
    ensures ID_LABEL in LabelsOf(id, template, caps) && LabelsOf(id, template, caps)[ID_LABEL] == id
  {
    assert NAME_LABEL[0] != CAP_LABEL[0] && ID_LABEL[8] != CAP_LABEL[8] && TEMPLATE_LABEL[8] != CAP_LABEL[8];
    if caps == [] {
      assert LabelsOf(id, template, caps).Keys == {NAME_LABEL, ID_LABEL, TEMPLATE_LABEL};
    } else {
      var before, c := caps[..|caps| - 1], caps[|caps| - 1];
      LabelsCarryCaps(id, template, before);
      var labels := LabelsOf(id, template, before);
      assert caps == before + [c] && (CAP_LABEL + c)[8] == CAP_LABEL[8];
      assert LabelsOf(id, template, caps).Keys == labels.Keys + {CAP_LABEL + c};
      CapsInMore(labels.Keys, CAP_LABEL + c);
      assert (CAP_LABEL + c)[|CAP_LABEL|..] == c;
      ElementsAppend(before, c);
    }
  }

  /** The labels say no more than that: the component's name, and "true" for each capability. */
  lemma {:induction false} LabelsSayNoMore(id: string, template: string, caps: seq<string>)
    ensures var labels := LabelsOf(id, template, caps);
            && (forall k :: k in labels && !(CAP_LABEL <= k) ==> k in {NAME_LABEL, ID_LABEL, TEMPLATE_LABEL})
            && (forall k :: k in labels && CAP_LABEL <= k ==> labels[k] == "true")
            && NAME_LABEL in labels && labels[NAME_LABEL] == "xgen-sandbox"
  {
    assert NAME_LABEL[0] != CAP_LABEL[0] && ID_LABEL[8] != CAP_LABEL[8] && TEMPLATE_LABEL[8] != CAP_LABEL[8];
    if caps != [] {
      LabelsSayNoMore(id, template, caps[..|caps| - 1]);
      assert CAP_LABEL <= CAP_LABEL + caps[|caps| - 1];
    }
  }

  /** A pod made for a normalised spec comes back, from its labels alone, to that spec's own pool. */
  lemma PodReturnsToItsPool(id: string, spec: PoolSpec, readBack: seq<string>)
    requires IsNormal(spec.capabilities)
    requires Lists(readBack, CapsIn(LabelsOf(id, spec.template, spec.capabilities).Keys))
    ensures readBack == spec.capabilities
    ensures var labels := LabelsOf(id, spec.template, spec.capabilities);
            TEMPLATE_LABEL in labels && PoolKeyFor(labels[TEMPLATE_LABEL], readBack) == Key(spec)
  {
    LabelsCarryCaps(id, spec.template, spec.capabilities);
    ListIsUnique(readBack, spec.capabilities, Elements(spec.capabilities));
    NormalUnchanged(spec.capabilities);
  }

  // ---------- The pools that are filled in advance ----------

  const DEFAULT_TEMPLATES := ["base", "nodejs", "python"]

  method Templates(sizes: map<string, int>) returns (templates: seq<string>)
    ensures DEFAULT_TEMPLATES <= templates && NoRepeats(templates)
    ensures Elements(templates) == Elements(DEFAULT_TEMPLATES) + sizes.Keys
    ensures StrictlySorted(templates[|DEFAULT_TEMPLATES|..])
  {
    var extra: seq<string> := [];
    var left := sizes.Keys;
    ghost var visited: set<string> := {};
    while left != {}
      invariant visited + left == sizes.Keys && visited !! left
      invariant NoRepeats(extra) && Elements(extra) == visited - Elements(DEFAULT_TEMPLATES)
      decreases left
    {
      var t :| t in left;
      assert t in Elements(DEFAULT_TEMPLATES) <==> t in DEFAULT_TEMPLATES;
      if t !in DEFAULT_TEMPLATES {
        assert t !in Elements(extra);
        ElementsAppend(extra, t);
        extra := extra + [t];
      }
      left, visited := left - {t}, visited + {t};
    }
    assert visited == sizes.Keys;
    SortLists(extra);
    DefaultsAndExtra(Sort(extra), sizes.Keys);
    templates := DEFAULT_TEMPLATES + Sort(extra);
  }

  lemma DefaultsAndExtra(extra: seq<string>, keys: set<string>)
    requires Lists(extra, keys - Elements(DEFAULT_TEMPLATES))
    ensures var templates := DEFAULT_TEMPLATES + extra;
            && NoRepeats(templates) && templates[|DEFAULT_TEMPLATES|..] == extra
            && Elements(templates) == Elements(DEFAULT_TEMPLATES) + keys
  {
    var templates := DEFAULT_TEMPLATES + extra;
    StrictIsSorted(extra);
    assert forall x :: x in templates <==> x in DEFAULT_TEMPLATES || x in extra;
    assert forall x :: x in extra <==> x in Elements(extra);
    assert forall x :: x in DEFAULT_TEMPLATES <==> x in Elements(DEFAULT_TEMPLATES);
    assert "base" != "nodejs" && "nodejs" != "python" && "base" != "python";
    forall i, j | 0 <= i < j < |templates| ensures templates[i] != templates[j] {
      if i < 3 <= j {
        assert templates[i] in DEFAULT_TEMPLATES && templates[j] in extra;
      }
    }
  }

  /** One empty-capability pool per template, and one for each listed capability. */
  method Specs(sizes: map<string, int>, capsToWarm: seq<string>) returns (specs: seq<PoolSpec>, templates: seq<string>)
    ensures DEFAULT_TEMPLATES <= templates && Elements(templates) == Elements(DEFAULT_TEMPLATES) + sizes.Keys
    ensures forall s :: s in specs <==>
              s.template in templates &&
              (s.capabilities == [] || exists c :: c in capsToWarm && Trim(c) != "" && s.capabilities == [Trim(c)])
    ensures forall s :: s in specs ==> IsNormal(s.capabilities)
  {
    templates := Templates(sizes);
    specs := [];
    for i := 0 to |templates|
      invariant forall s :: s in specs <==> s.template in templates[..i] && Warms(s.capabilities, capsToWarm)
    {
      var t := templates[i];
      ghost var before := specs;
      specs := specs + [PoolSpec(t, [])];
      for j := 0 to |capsToWarm|
        invariant forall s :: s in specs <==> s in before || (s.template == t && Warms(s.capabilities, capsToWarm[..j]))
      {
        var c := Trim(capsToWarm[j]);
        assert forall x :: x in capsToWarm[..j + 1] <==> x in capsToWarm[..j] || x == capsToWarm[j];
        if c == "" {
          continue;
        }
        specs := specs + [PoolSpec(t, [c])];
      }
      assert capsToWarm[..|capsToWarm|] == capsToWarm;
      assert forall x :: x in templates[..i + 1] <==> x in templates[..i] || x == t;
    }
    assert templates[..|templates|] == templates;
    forall s | s in specs ensures IsNormal(s.capabilities) {
      if s.capabilities != [] {
        var c :| c in capsToWarm && Trim(c) != "" && s.capabilities == [Trim(c)];
        TrimFacts(c);
      }
    }
  }

  ghost predicate Warms(capabilities: seq<string>, capsToWarm: seq<string>) {
    capabilities == [] || exists c :: c in capsToWarm && Trim(c) != "" && capabilities == [Trim(c)]
  }
}
