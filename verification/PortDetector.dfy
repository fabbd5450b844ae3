/** The port detector: every scan of the listening sockets is compared with the ports known so far. */
module PortDetector {
  import opened Integers

  datatype Event = Open(port: uint16) | Close(port: uint16)

  /** What one scan must announce: each newly listening port opened once, each port gone closed once, nothing else. */
  ghost predicate Announces(es: seq<Event>, ups: set<uint16>, downs: set<uint16>) {
    && (forall i, j :: 0 <= i < j < |es| ==> es[i] != es[j])
    && (forall p :: Open(p) in es <==> p in ups)
    && (forall p :: Close(p) in es <==> p in downs)
  }

  lemma AnnouncesMore(es: seq<Event>, e: Event, ups: set<uint16>, downs: set<uint16>)
    requires Announces(es, ups, downs) && e !in es
    ensures match e
            case Open(p) => Announces(es + [e], ups + {p}, downs)
            case Close(p) => Announces(es + [e], ups, downs + {p})
  {
    assert forall x :: x in es + [e] <==> x in es || x == e;
  }

  class Detector {
    var known: set<uint16>
    var announced: seq<Event>

    constructor ()
      ensures known == {} && announced == []
    {
      known, announced := {}, [];
    }

    /** `current` are the ports listening now; they are visited, and the known ones again, in any order. */
    method Scan(current: set<uint16>) returns (ghost es: seq<Event>)
      modifies this
      ensures known == current
      ensures announced == old(announced) + es
      ensures Announces(es, current - old(known), old(known) - current)
    {
      es := [];
      var left := current;
      while left != {}
        invariant left <= current
        invariant known == old(known) + (current - left)
        invariant announced == old(announced) + es
        invariant Announces(es, known - old(known), {})
      {
        hide Announces;
        var port :| port in left;
        if port !in known {
          OpenIsNew(es, port, known - old(known), {});
          AnnouncesMore(es, Open(port), known - old(known), {});
          assert known - old(known) + {port} == known + {port} - old(known);
          known, announced, es := known + {port}, announced + [Open(port)], es + [Open(port)];
        } else {
          assert known == known + {port};
        }
        left := left - {port};
      }
      left := known;
      while left != {}
        invariant left <= old(known) + current
        invariant known == current + (old(known) * left) && left <= known
        invariant forall p :: p in known - left ==> p in current
        invariant announced == old(announced) + es
        invariant Announces(es, current - old(known), old(known) - current - left)
      {
        hide Announces;
        var port :| port in left;
        ghost var gone := old(known) - current - left;
        if port !in current {
          CloseIsNew(es, port, current - old(known), gone);
          AnnouncesMore(es, Close(port), current - old(known), gone);
          assert gone + {port} == old(known) - current - (left - {port});
          known, announced, es := known - {port}, announced + [Close(port)], es + [Close(port)];
        } else {
          assert gone == old(known) - current - (left - {port});
        }
        left := left - {port};
      }
      assert known == current;
    }
  }

  lemma OpenIsNew(es: seq<Event>, p: uint16, ups: set<uint16>, downs: set<uint16>)
    requires Announces(es, ups, downs) && p !in ups
    ensures Open(p) !in es
  {}

  lemma CloseIsNew(es: seq<Event>, p: uint16, ups: set<uint16>, downs: set<uint16>)
    requires Announces(es, ups, downs) && p !in downs
    ensures Close(p) !in es
  {}

  // ---------- Runs ----------

  datatype Step = Step(current: set<uint16>, es: seq<Event>)

  function Known(scans: seq<Step>): set<uint16> {
    if scans == [] then {} else scans[|scans| - 1].current
  }

  ghost predicate IsRun(scans: seq<Step>) {
    scans == [] ||
    var before, last := scans[..|scans| - 1], scans[|scans| - 1];
    IsRun(before) && Announces(last.es, last.current - Known(before), Known(before) - last.current)
  }

  function About(port: uint16, es: seq<Event>): seq<Event> {
    if es == [] then []
    else
      var before := About(port, es[..|es| - 1]);
      if es[|es| - 1].port == port then before + [es[|es| - 1]] else before
  }

  /** What a listener hears about one port over all scans. */
  function Heard(port: uint16, scans: seq<Step>): seq<Event> {
    if scans == [] then [] else Heard(port, scans[..|scans| - 1]) + About(port, scans[|scans| - 1].es)
  }

  predicate Alternates(port: uint16, es: seq<Event>) {
    forall i :: 0 <= i < |es| ==> es[i] == if i % 2 == 0 then Open(port) else Close(port)
  }

  lemma {:induction false} AboutOnce(port: uint16, es: seq<Event>)
    requires forall i, j :: 0 <= i < j < |es| ==> es[i] != es[j]
    ensures Open(port) in es && Close(port) !in es ==> About(port, es) == [Open(port)]
    ensures Open(port) !in es && Close(port) in es ==> About(port, es) == [Close(port)]
    ensures Open(port) !in es && Close(port) !in es ==> About(port, es) == []
  {
    if es != [] {
      var before, e := es[..|es| - 1], es[|es| - 1];
      AboutOnce(port, before);
      assert es == before + [e];
      assert e !in before;
      assert forall x :: x in es <==> x in before || x == e;
    }
  }

  lemma AlternatesMore(port: uint16, es: seq<Event>)
    requires Alternates(port, es)
    ensures Alternates(port, es + [if |es| % 2 == 0 then Open(port) else Close(port)])
  {}

  /** One scan says at most one thing about a port: that it changed. */
  lemma AboutScan(port: uint16, es: seq<Event>, was: set<uint16>, now: set<uint16>)
    requires Announces(es, now - was, was - now)
    ensures About(port, es) == if port in now - was then [Open(port)] else if port in was - now then [Close(port)] else []
  {
    AboutOnce(port, es);
  }

  lemma NothingHeard(port: uint16)
    ensures Heard(port, []) == [] && Alternates(port, Heard(port, []))
  {}

  lemma HeardMore(scans: seq<Step>, port: uint16)
    requires IsRun(scans) && scans != []
    ensures var before, now := scans[..|scans| - 1], scans[|scans| - 1].current;
            Heard(port, scans) == Heard(port, before) +
            if port in now - Known(before) then [Open(port)] else if port in Known(before) - now then [Close(port)] else []
  {
    hide About, Announces;
    AboutScan(port, scans[|scans| - 1].es, Known(scans[..|scans| - 1]), scans[|scans| - 1].current);
  }

  /**
   Over any run of scans, every port is announced open, closed, open, ... in turn, and it was last announced open
   exactly when the last scan saw it listening.
   */
  lemma {:induction false} AnnouncementsAlternate(scans: seq<Step>, port: uint16)
    requires IsRun(scans)
    ensures Alternates(port, Heard(port, scans))
    ensures |Heard(port, scans)| % 2 == 1 <==> port in Known(scans)
  {
    hide Heard, Alternates, Announces;
    if scans == [] {
      NothingHeard(port);
    } else {
      var before := scans[..|scans| - 1];
      AnnouncementsAlternate(before, port);
      HeardMore(scans, port);
      var heard := Heard(port, before);
      AlternatesMore(port, heard);
      assert heard + [] == heard;
    }
  }
}
