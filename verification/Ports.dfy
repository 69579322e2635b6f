/** Collection of a container's ports (pkg/ports/publish.go): duplicates are dropped with two maps shared by the container and its sidecars. */
module Ports {

  datatype PortDef = PortDef(port: int, targetPort: int, hostname: string, protocol: string, dev: bool)

  // ---------- Reference: decide each port from the ports kept so far ----------

  /** Only a target port given: the public port takes its number. */
  function Numbered(p: PortDef): PortDef { if p.port == 0 then p.(port := p.targetPort) else p }

  predicate HostnameTaken(kept: seq<PortDef>, p: PortDef) {
    p.hostname != "" && exists a :: a in kept && a.hostname == p.hostname
  }

  predicate NumberTaken(kept: seq<PortDef>, p: PortDef) { exists a :: a in kept && a.port == p.port }

  predicate SameTarget(kept: seq<PortDef>, p: PortDef) {
    exists a :: a in kept && a.port == p.port && a.targetPort == p.targetPort
  }

  /** A port is kept when its hostname is new and its number is new or shared with another hostname on the same target. */
  predicate Keeps(kept: seq<PortDef>, p: PortDef, devMode: bool) {
    && (devMode || !p.dev)
    && !HostnameTaken(kept, p)
    && (NumberTaken(kept, Numbered(p)) ==> p.hostname != "" && SameTarget(kept, Numbered(p)))
  }

  function Collect(kept: seq<PortDef>, ports: seq<PortDef>, devMode: bool): seq<PortDef>
    decreases ports
  {
    if ports == [] then kept
    else Collect(if Keeps(kept, ports[0], devMode) then kept + [Numbered(ports[0])] else kept, ports[1..], devMode)
  }

  /** Collecting in two rounds with shared maps is collecting the concatenation. */
  lemma {:induction false} CollectConcat(kept: seq<PortDef>, a: seq<PortDef>, b: seq<PortDef>, devMode: bool)
    ensures Collect(Collect(kept, a, devMode), b, devMode) == Collect(kept, a + b, devMode)
    decreases a
  {
    if a == [] {
      assert a + b == b;
    } else {
      assert (a + b)[1..] == a[1..] + b;
      CollectConcat(if Keeps(kept, a[0], devMode) then kept + [Numbered(a[0])] else kept, a[1..], b, devMode);
    }
  }

  /** What the collected list promises. */
  ghost predicate Clean(ps: seq<PortDef>, devMode: bool) {
    && (forall i, j :: 0 <= i < j < |ps| && ps[i].hostname != "" ==> ps[i].hostname != ps[j].hostname)
    && (forall i, j :: 0 <= i < j < |ps| && ps[i].port == ps[j].port ==> ps[i].targetPort == ps[j].targetPort && ps[j].hostname != "")
    && (forall i :: 0 <= i < |ps| ==> (devMode || !ps[i].dev) && (ps[i].port == 0 ==> ps[i].targetPort == 0))
  }

  lemma CleanStep(kept: seq<PortDef>, p: PortDef, devMode: bool)
    requires Clean(kept, devMode) && Keeps(kept, p, devMode)
    ensures Clean(kept + [Numbered(p)], devMode)
  {
    var n := Numbered(p);
    var ps := kept + [n];
    forall i | 0 <= i < |kept|
      ensures kept[i].hostname != "" ==> kept[i].hostname != n.hostname
      ensures kept[i].port == n.port ==> kept[i].targetPort == n.targetPort && n.hostname != ""
    {
      assert kept[i] in kept;
      if kept[i].port == n.port {
        var a :| a in kept && a.port == n.port && a.targetPort == n.targetPort;
        var j :| 0 <= j < |kept| && kept[j] == a;
      }
    }
  }

  lemma {:induction false} CollectIsClean(kept: seq<PortDef>, ports: seq<PortDef>, devMode: bool)
    requires Clean(kept, devMode)
    ensures Clean(Collect(kept, ports, devMode), devMode) && kept <= Collect(kept, ports, devMode)
    decreases ports
  {
    if ports != [] {
      if Keeps(kept, ports[0], devMode) { CleanStep(kept, ports[0], devMode); }
      CollectIsClean(if Keeps(kept, ports[0], devMode) then kept + [Numbered(ports[0])] else kept, ports[1..], devMode);
    }
  }

  /** Collecting a clean list leaves it as it is; hence collecting twice is collecting once. */
  lemma {:induction false} CollectOfClean(kept: seq<PortDef>, ports: seq<PortDef>, devMode: bool)
    requires Clean(kept + ports, devMode)
    ensures Collect(kept, ports, devMode) == kept + ports
    decreases ports
  {
    if ports != [] {
      var all := kept + ports;
      var p := ports[0];
      assert all[|kept|] == p;
      assert forall i :: 0 <= i < |kept| ==> all[i] == kept[i];
      assert Keeps(kept, p, devMode);
      assert (kept + [p]) + ports[1..] == all;
      CollectOfClean(kept + [p], ports[1..], devMode);
    }
  }

  lemma CollectIdempotent(ports: seq<PortDef>, devMode: bool)
    ensures Collect([], Collect([], ports, devMode), devMode) == Collect([], ports, devMode)
  {
    CollectIsClean([], ports, devMode);
    assert [] + Collect([], ports, devMode) == Collect([], ports, devMode);
    CollectOfClean([], Collect([], ports, devMode), devMode);
  }

  /** Nothing is dropped without reason: a missing port is a dev port, or clashes with a collected one. */
  lemma {:induction false} DroppedForAReason(kept: seq<PortDef>, ports: seq<PortDef>, devMode: bool, p: PortDef)
    requires p in ports
    ensures var r := Collect(kept, ports, devMode);
            || Numbered(p) in r
            || (p.dev && !devMode)
            || HostnameTaken(r, p)
            || (NumberTaken(r, Numbered(p)) && (p.hostname == "" || exists a :: a in r && a.port == Numbered(p).port && a.targetPort != p.targetPort))
    decreases ports
  {
    var next := if Keeps(kept, ports[0], devMode) then kept + [Numbered(ports[0])] else kept;
    CollectGrows(next, ports[1..], devMode);
    if p == ports[0] {
      var r := Collect(kept, ports, devMode);
      assert forall a :: a in next ==> a in r;
      if Keeps(kept, p, devMode) { assert Numbered(p) in next; }
    } else {
      DroppedForAReason(next, ports[1..], devMode, p);
    }
  }

  // ---------- The same in terms of the listed ports ----------

  /** A collected port is a listed one; where that has no public number, the target's number is the public one. */
  predicate ComesFrom(q: PortDef, p: PortDef) {
    && q.targetPort == p.targetPort && q.hostname == p.hostname && q.protocol == p.protocol && q.dev == p.dev
    && (p.port == 0 ==> q.port == p.targetPort) && (p.port != 0 ==> q.port == p.port)
  }

  /** Every collected port comes from a listed one that is allowed in this mode, and has a number unless its target has none. */
  lemma {:induction false} CollectedPorts(kept: seq<PortDef>, ports: seq<PortDef>, devMode: bool, q: PortDef)
    requires q in Collect(kept, ports, devMode) && q !in kept
    ensures exists p :: p in ports && ComesFrom(q, p) && (devMode || !p.dev)
    ensures q.port == 0 ==> q.targetPort == 0
    decreases ports
  {
    var next := if Keeps(kept, ports[0], devMode) then kept + [Numbered(ports[0])] else kept;
    if q in next {
      assert ComesFrom(q, ports[0]);
    } else {
      CollectedPorts(next, ports[1..], devMode, q);
      var p :| p in ports[1..] && ComesFrom(q, p) && (devMode || !p.dev);
      assert p in ports;
    }
  }

  /** Two listed ports are rivals when they share a hostname or end up with the same public number. */
  predicate Rivals(p: PortDef, o: PortDef) {
    || (p.hostname != "" && p.hostname == o.hostname)
    || (if p.port == 0 then p.targetPort else p.port) == (if o.port == 0 then o.targetPort else o.port)
  }

  /** A listed port that is allowed in this mode and has no rival among the ports listed before it is collected. */
  lemma {:induction false} UnrivalledIsCollected(kept: seq<PortDef>, ports: seq<PortDef>, devMode: bool, i: nat)
    requires i < |ports| && (devMode || !ports[i].dev)
    requires (forall a :: a in kept ==> !Rivals(ports[i], a)) && forall j :: 0 <= j < i ==> !Rivals(ports[i], ports[j])
    requires forall a :: a in kept ==> a.port == 0 ==> a.targetPort == 0
    ensures exists q :: q in Collect(kept, ports, devMode) && ComesFrom(q, ports[i])
    decreases ports
  {
    var p, first := ports[i], ports[0];
    var next := if Keeps(kept, first, devMode) then kept + [Numbered(first)] else kept;
    if i == 0 {
      assert Keeps(kept, p, devMode);
      CollectGrows(next, ports[1..], devMode);
      assert Numbered(p) in next && ComesFrom(Numbered(p), p);
    } else {
      assert !Rivals(p, first);
      assert forall j :: 0 <= j < i - 1 ==> ports[1..][j] == ports[j + 1];
      UnrivalledIsCollected(next, ports[1..], devMode, i - 1);
    }
  }

  /** A listed port that is allowed in this mode and does not come out has lost to a rival that does. */
  lemma MissingHasRival(ports: seq<PortDef>, devMode: bool, p: PortDef)
    requires p in ports && (devMode || !p.dev)
    ensures (exists q :: q in Collect([], ports, devMode) && ComesFrom(q, p)) ||
            exists a :: a in Collect([], ports, devMode) && Rivals(p, a)
  {
    DroppedForAReason([], ports, devMode, p);
    var r := Collect([], ports, devMode);
    if Numbered(p) in r {
      assert ComesFrom(Numbered(p), p);
    } else if HostnameTaken(r, p) {
      var a :| a in r && a.hostname == p.hostname;
      assert Rivals(p, a);
    } else {
      var a :| a in r && a.port == Numbered(p).port;
      CollectedPorts([], ports, devMode, a);
      assert Rivals(p, a);
    }
  }

  lemma {:induction false} CollectGrows(kept: seq<PortDef>, ports: seq<PortDef>, devMode: bool)
    ensures forall a :: a in kept ==> a in Collect(kept, ports, devMode)
    decreases ports
  {
    if ports != [] {
      CollectGrows(if Keeps(kept, ports[0], devMode) then kept + [Numbered(ports[0])] else kept, ports[1..], devMode);
    }
  }

  // ---------- The two maps ----------

  /** The target ports of the kept ports with one public number, in order. */
  function TargetsOf(kept: seq<PortDef>, port: int): seq<int> {
    if kept == [] then [] else
      var last := kept[|kept| - 1];
      TargetsOf(kept[..|kept| - 1], port) + (if last.port == port then [last.targetPort] else [])
  }

  lemma {:induction false} TargetsMean(kept: seq<PortDef>, port: int)
    ensures TargetsOf(kept, port) != [] <==> exists a :: a in kept && a.port == port
    ensures forall t :: t in TargetsOf(kept, port) <==> exists a :: a in kept && a.port == port && a.targetPort == t
  {
    if kept != [] {
      var front, last := kept[..|kept| - 1], kept[|kept| - 1];
      TargetsMean(front, port);
      assert forall a :: a in kept <==> a in front || a == last;
    }
  }

  lemma TargetsAppend(kept: seq<PortDef>, p: PortDef, port: int)
    ensures TargetsOf(kept + [p], port) == if p.port == port then TargetsOf(kept, port) + [p.targetPort] else TargetsOf(kept, port)
  {
    assert (kept + [p])[..|kept|] == kept;
  }

  function HostnamesOf(kept: seq<PortDef>): set<string> {
    if kept == [] then {} else
      HostnamesOf(kept[..|kept| - 1]) + (if kept[|kept| - 1].hostname != "" then {kept[|kept| - 1].hostname} else {})
  }

  lemma {:induction false} HostnamesMean(kept: seq<PortDef>, h: string)
    ensures h in HostnamesOf(kept) <==> h != "" && exists a :: a in kept && a.hostname == h
  {
    if kept != [] {
      var front, last := kept[..|kept| - 1], kept[|kept| - 1];
      HostnamesMean(front, h);
      assert forall a :: a in kept <==> a in front || a == last;
    }
  }

  /** The two maps summarise the ports kept so far. */
  ghost predicate Summary(seen: map<int, seq<int>>, hostnames: set<string>, kept: seq<PortDef>) {
    && hostnames == HostnamesOf(kept)
    && forall n {:trigger TargetsOf(kept, n)} :: (if n in seen then seen[n] else []) == TargetsOf(kept, n) && (n in seen ==> seen[n] != [])
  }

  lemma SummaryStep(seen: map<int, seq<int>>, hostnames: set<string>, kept: seq<PortDef>, p: PortDef)
    requires Summary(seen, hostnames, kept)
    ensures Summary(seen[p.port := TargetsOf(kept, p.port) + [p.targetPort]],
                    if p.hostname != "" then hostnames + {p.hostname} else hostnames, kept + [p])
  {
    var seen' := seen[p.port := TargetsOf(kept, p.port) + [p.targetPort]];
    forall n ensures (if n in seen' then seen'[n] else []) == TargetsOf(kept + [p], n) && (n in seen' ==> seen'[n] != []) {
      TargetsAppend(kept, p, n);
      assert (if n in seen then seen[n] else []) == TargetsOf(kept, n);
    }
    assert (kept + [p])[..|kept|] == kept;
  }

  /** The tests on the maps are the tests on the kept ports. */
  lemma SummaryDecides(seen: map<int, seq<int>>, hostnames: set<string>, kept: seq<PortDef>, p: PortDef)
    requires Summary(seen, hostnames, kept)
    ensures HostnameTaken(kept, p) <==> p.hostname != "" && p.hostname in hostnames
    ensures NumberTaken(kept, p) <==> p.port in seen
    ensures p.port in seen ==> seen[p.port] == TargetsOf(kept, p.port) && (SameTarget(kept, p) <==> p.targetPort in seen[p.port])
    ensures p.port !in seen ==> TargetsOf(kept, p.port) == []
  {
    TargetsMean(kept, p.port);
    HostnamesMean(kept, p.hostname);
  }

  class Collector {
    var seen: map<int, seq<int>>
    var seenHostnames: set<string>
    ghost var kept: seq<PortDef>

    ghost predicate Valid()
      reads this
    {
      Summary(seen, seenHostnames, kept)
    }

    constructor ()
      ensures Valid() && kept == []
    {
      seen, seenHostnames, kept := map[], {}, [];
    }

    /** Keeps a port: appends its target under its number and records its hostname. */
    method Record(p: PortDef, targets: seq<int>)
      requires Valid() && targets == TargetsOf(kept, p.port)
      modifies this
      ensures Valid() && kept == old(kept) + [p]
    {
      SummaryStep(seen, seenHostnames, kept, p);
      seen := seen[p.port := targets + [p.targetPort]];
      if p.hostname != "" {
        seenHostnames := seenHostnames + {p.hostname};
      }
      kept := kept + [p];
    }

    /** One round of the loop: the port as kept, or nothing. */
    method CollectPort(given: PortDef, devMode: bool) returns (result: seq<PortDef>)
      requires Valid()
      modifies this
      ensures Valid() && kept == old(kept) + result
      ensures result == if Keeps(old(kept), given, devMode) then [Numbered(given)] else []
      ensures result != [] ==> |result| == 1 && ComesFrom(result[0], given)
    {
      var port := given;
      assert kept + [] == kept;
      if !devMode && port.dev {
        return [];
      }
      SummaryDecides(seen, seenHostnames, kept, given);
      if port.hostname != "" && port.hostname in seenHostnames {
        return [];
      }
      if port.port == 0 {
        port := port.(port := port.targetPort);
      }
      SummaryDecides(seen, seenHostnames, kept, port);
      if port.port in seen {
        if port.hostname != "" && port.targetPort in seen[port.port] {
          Record(port, seen[port.port]);
          return [port];
        }
        return [];
      }
      Record(port, []);
      return [port];
    }

    method CollectPorts(ports: seq<PortDef>, devMode: bool) returns (result: seq<PortDef>)
      requires Valid()
      modifies this
      ensures Valid() && kept == Collect(old(kept), ports, devMode) && kept == old(kept) + result
      ensures forall q :: q in result ==> exists p :: p in ports && ComesFrom(q, p)
    {
      result := [];
      assert ports[0..] == ports;
      for i := 0 to |ports|
        invariant Valid()
        invariant kept == old(kept) + result
        invariant forall q :: q in result ==> exists p :: p in ports && ComesFrom(q, p)
        invariant Collect(kept, ports[i..], devMode) == Collect(old(kept), ports, devMode)
      {
        assert ports[i..][1..] == ports[i + 1..];
        assert kept + [] == kept && ports[i] in ports;
        var one := CollectPort(ports[i], devMode);
        result := result + one;
      }
    }
  }

  function Concat(lists: seq<seq<PortDef>>): seq<PortDef> {
    if lists == [] then [] else lists[0] + Concat(lists[1..])
  }

  /** The sidecars' port lists come in the order of the sidecar names. */
  method CollectContainerPorts(ports: seq<PortDef>, sidecars: seq<seq<PortDef>>, devMode: bool) returns (result: seq<PortDef>)
    ensures result == Collect([], ports + Concat(sidecars), devMode)
    ensures Clean(result, devMode)
    ensures forall q :: q in result ==> exists p :: p in ports + Concat(sidecars) && ComesFrom(q, p) && (devMode || !p.dev)
  {
    var c := new Collector();
    result := c.CollectPorts(ports, devMode);
    assert [] + result == result;
    CollectConcat([], ports, Concat(sidecars), devMode);
    assert sidecars[0..] == sidecars;
    for i := 0 to |sidecars|
      invariant c.Valid() && c.kept == result
      invariant Collect(result, Concat(sidecars[i..]), devMode) == Collect([], ports + Concat(sidecars), devMode)
    {
      assert sidecars[i..][1..] == sidecars[i + 1..];
      CollectConcat(result, sidecars[i], Concat(sidecars[i + 1..]), devMode);
      var more := c.CollectPorts(sidecars[i], devMode);
      result := result + more;
    }
    CollectIsClean([], ports + Concat(sidecars), devMode);
    forall q | q in result ensures exists p :: p in ports + Concat(sidecars) && ComesFrom(q, p) && (devMode || !p.dev) {
      CollectedPorts([], ports + Concat(sidecars), devMode, q);
    }
  }
}
