// The listening-port baseline: reading the port list (velaops_ssh.c:342-378),
// learning it (velaops_main.c:907-939) and the drift against it
// (velaops_health.c:90-162).

module Ports {
  import opened Splitting
  import opened Csv
  import opened Decimal

  const MAX_PORTS := 32      // VELAOPS_MAX_PORTS
  const BASE_SIZE := 240     // g_base_ports
  const EPHEMERAL := 32768

  // What a snapshot may hold: distinct entries of 1 to 5 bytes without a comma.
  ghost predicate PortTable(ps: seq<string>) {
    && |ps| <= MAX_PORTS
    && (forall p :: p in ps ==> 0 < |p| < 6 && ',' !in p)
    && (forall i, j :: 0 <= i < j < |ps| ==> ps[i] != ps[j])
  }

  // One entry of the list is taken over if it is short, new and there is room.
  function Added(ps: seq<string>, entry: string): seq<string> {
    if 0 < |entry| < 6 && |ps| < MAX_PORTS && entry !in ps then ps + [entry] else ps
  }

  function AddedAll(ps: seq<string>, es: seq<string>): seq<string>
    decreases |es|
  {
    if es == [] then ps else AddedAll(Added(ps, es[0]), es[1..])
  }

  // The inner loop of parse_port_list.
  method IsDuplicate(ports: seq<string>, entry: string) returns (dup: bool)
    ensures dup <==> entry in ports
  {
    var i := 0;
    dup := false;
    while i < |ports| && !dup
      invariant 0 <= i <= |ports|
      invariant dup <==> entry in ports[..i]
    {
      dup := ports[i] == entry;
      i := i + 1;
    }
  }

  // parse_port_list
  method ParsePortList(val: string, start: seq<string>) returns (ports: seq<string>)
    requires PortTable(start)
    ensures ports == AddedAll(start, Entries(val)) && PortTable(ports)
  {
    ports := start;
    var p := val;
    while p != ""
      invariant PortTable(ports) && AddedAll(ports, Entries(p)) == AddedAll(start, Entries(val))
      decreases |p|
    {
      var entry := p[..Upto(',', p)];
      assert Entries(p)[1..] == Entries(Behind(',', p));
      if 0 < |entry| < 6 && |ports| < MAX_PORTS {
        var dup := IsDuplicate(ports, entry);
        if !dup {
          ports := ports + [entry];
        }
      }
      p := Behind(',', p);
    }
  }

  // ---------------------------------------------------------------- the baseline

  predicate Learnable(port: string) { 0 < Atoi(port) < EPHEMERAL }

  function Learned(ps: seq<string>): seq<string> {
    if ps == [] then []
    else
      var (front, last) := (ps[..|ps| - 1], ps[|ps| - 1]);
      if Learnable(last) then Learned(front) + [last] else Learned(front)
  }

  // Entries with commas between them.
  function Joined(ps: seq<string>): string {
    if ps == [] then ""
    else if |ps| == 1 then ps[0]
    else Joined(ps[..|ps| - 1]) + "," + ps[|ps| - 1]
  }

  lemma LearnedNext(ps: seq<string>, i: nat)
    requires i < |ps|
    ensures Learned(ps[..i + 1]) == if Learnable(ps[i]) then Learned(ps[..i]) + [ps[i]] else Learned(ps[..i])
  {
    assert ps[..i + 1][..i] == ps[..i];
  }

  lemma JoinedNext(ps: seq<string>, p: string)
    ensures Joined(ps + [p]) == Joined(ps) + (if ps == [] then "" else ",") + p
  {
    assert (ps + [p])[..|ps|] == ps;
  }

  // baseline_learn up to the string it stores: no learnable port is left out for
  // lack of room.
  method BaselineLearn(ports: seq<string>) returns (csv: string)
    requires PortTable(ports)
    ensures csv == Joined(Learned(ports)) && |csv| < BASE_SIZE
  {
    csv := "";
    var i := 0;
    while i < |ports|
      invariant 0 <= i <= |ports|
      invariant csv == Joined(Learned(ports[..i]))
      invariant |csv| <= 6 * i && (csv == "" <==> Learned(ports[..i]) == [])
    {
      var port := Atoi(ports[i]);
      assert ports[i] in ports;
      LearnedNext(ports, i);
      JoinedNext(Learned(ports[..i]), ports[i]);
      if !(port <= 0 || port >= EPHEMERAL || |csv| + |ports[i]| + 2 >= BASE_SIZE) {
        if |csv| > 0 {
          csv := csv + ",";
        }
        csv := csv + ports[i];
      }
      i := i + 1;
    }
    assert ports[..i] == ports;
  }

  // ---------------------------------------------------------------- drift

  // How many ports are neither ephemeral, ignored nor in the baseline.
  function NewPorts(ps: seq<string>, base: string, ignore: string): nat {
    if ps == [] then 0
    else
      NewPorts(ps[1..], base, ignore)
      + if Atoi(ps[0]) >= EPHEMERAL || Has(ignore, ps[0]) || Has(base, ps[0]) then 0 else 1
  }

  // How many baseline entries are neither ignored nor open.
  function LostPorts(es: seq<string>, ps: seq<string>, ignore: string): nat {
    if es == [] then 0
    else
      LostPorts(es[1..], ps, ignore)
      + if 0 < |es[0]| < 6 && !Has(ignore, es[0]) && es[0] !in ps then 1 else 0
  }

  // drift_ports
  method DriftPorts(ports: seq<string>, base: string, ignore: string) returns (portNew: nat, portLost: nat)
    ensures portNew == NewPorts(ports, base, ignore)
    ensures portLost == LostPorts(Entries(base), ports, ignore)
  {
    portNew, portLost := 0, 0;
    var i := 0;
    while i < |ports|
      invariant 0 <= i <= |ports|
      invariant portNew + NewPorts(ports[i..], base, ignore) == NewPorts(ports, base, ignore)
    {
      assert ports[i..][1..] == ports[i + 1..];
      var ignored := CsvHas(ignore, ports[i]);
      if !(Atoi(ports[i]) >= EPHEMERAL || ignored) {
        var known := CsvHas(base, ports[i]);
        if !known {
          portNew := portNew + 1;
        }
      }
      i := i + 1;
    }
    assert ports[i..] == [];
    var p := base;
    while p != ""
      invariant portLost + LostPorts(Entries(p), ports, ignore) == LostPorts(Entries(base), ports, ignore)
      decreases |p|
    {
      var entry := p[..Upto(',', p)];
      assert Entries(p)[1..] == Entries(Behind(',', p));
      if 0 < |entry| < 6 {
        var ignored := CsvHas(ignore, entry);
        if !ignored && entry !in ports {
          portLost := portLost + 1;
        }
      }
      p := Behind(',', p);
    }
  }

  // ---------------------------------------------------------------- learning means no drift

  lemma {:induction false} LearnedIs(ps: seq<string>)
    ensures forall p :: p in Learned(ps) <==> p in ps && 0 < Atoi(p) < 32768
    decreases |ps|
  {
    if ps != [] {
      LearnedIs(ps[..|ps| - 1]);
      assert forall p :: p in ps <==> p in ps[..|ps| - 1] || p == ps[|ps| - 1];
    }
  }

  lemma FrontHasNone(ps: seq<string>)
    requires ps != [] && forall p :: p in ps ==> p != "" && ',' !in p
    ensures NoneHas(',', ps[..|ps| - 1]) && ',' !in ps[|ps| - 1] && ps[|ps| - 1] != ""
  {
    assert ps[|ps| - 1] in ps && forall p :: p in ps[..|ps| - 1] ==> p in ps;
  }

  lemma {:induction false} EntriesOfJoined(ps: seq<string>)
    requires forall p :: p in ps ==> p != "" && ',' !in p
    ensures Entries(Joined(ps)) == ps
    decreases |ps|
  {
    if ps != [] {
      var n := |ps| - 1;
      JoinedIsTerminated(ps);
      FrontHasNone(ps);
      PartsUnended(',', ps[..n], ps[n]);
      assert ps[..n] + [ps[n]] == ps;
    }
  }

  lemma {:induction false} JoinedIsTerminated(ps: seq<string>)
    requires ps != []
    ensures Joined(ps) == Terminated(',', ps[..|ps| - 1]) + ps[|ps| - 1]
    decreases |ps|
  {
    var n := |ps| - 1;
    if n > 0 {
      JoinedIsTerminated(ps[..n]);
      AppendPart(',', ps[..n][..n - 1], ps[..n][n - 1]);
      assert ps[..n][..n - 1] + [ps[..n][n - 1]] == ps[..n];
    }
  }

  lemma {:induction false} NoneNew(ps: seq<string>, base: string, ignore: string)
    ensures NewPorts(ps, base, ignore) == 0
       <==> forall p :: p in ps ==> Atoi(p) >= EPHEMERAL || Has(ignore, p) || Has(base, p)
    decreases |ps|
  {
    if ps != [] {
      NoneNew(ps[1..], base, ignore);
      assert forall p :: p in ps <==> p == ps[0] || p in ps[1..];
    }
  }

  lemma {:induction false} NoneLost(es: seq<string>, ps: seq<string>, ignore: string)
    requires forall e :: e in es ==> e in ps
    ensures LostPorts(es, ps, ignore) == 0
    decreases |es|
  {
    if es != [] {
      assert es[0] in es;
      NoneLost(es[1..], ps, ignore);
    }
  }

  // Against its own baseline a snapshot has lost nothing, and has nothing new exactly
  // when every port that does not read as a positive number is ignored.
  lemma OwnBaseline(ps: seq<string>, ignore: string)
    requires PortTable(ps)
    ensures LostPorts(Entries(Joined(Learned(ps))), ps, ignore) == 0
    ensures NewPorts(ps, Joined(Learned(ps)), ignore) == 0 <==> forall p :: p in ps ==> Atoi(p) > 0 || Has(ignore, p)
  {
    LearnedIs(ps);
    EntriesOfJoined(Learned(ps));
    NoneLost(Learned(ps), ps, ignore);
    NoneNew(ps, Joined(Learned(ps)), ignore);
  }

  // ---------------------------------------------------------------- what the table holds

  predicate Short(entry: string) { 1 <= |entry| <= 5 }

  lemma {:induction false} IndexSkips(es: seq<string>, e: string)
    requires es != [] && e != es[0]
    ensures IndexOf(es, e) == 1 + IndexOf(es[1..], e)
  {
  }

  // Of the entries of a list the table takes the short ones, each once, in the order in
  // which they first occur, until it is full.
  ghost predicate Takes(start: seq<string>, es: seq<string>, ps: seq<string>) {
    && start <= ps && |ps| <= MAX_PORTS
    && (forall i :: |start| <= i < |ps| ==> ps[i] in es && Short(ps[i]) && ps[i] !in start)
    && (forall i, j :: |start| <= i < j < |ps| ==> IndexOf(es, ps[i]) < IndexOf(es, ps[j]))
    && (forall e :: e in es && Short(e) && e !in ps ==> |ps| == MAX_PORTS)
    && (forall e, i :: e in es && Short(e) && e !in ps && |start| <= i < |ps| ==> IndexOf(es, ps[i]) < IndexOf(es, e))
  }

  lemma {:induction false} TableTakes(start: seq<string>, es: seq<string>)
    requires |start| <= MAX_PORTS
    ensures Takes(start, es, AddedAll(start, es))
    decreases |es|
  {
    if es != [] {
      var ps := AddedAll(start, es);
      TableTakes(Added(start, es[0]), es[1..]);
      if Added(start, es[0]) == start {
        PassedOver(start, es, ps);
      } else {
        TakenOver(start, es, ps);
      }
    }
  }

  lemma PassedOver(start: seq<string>, es: seq<string>, ps: seq<string>)
    requires es != [] && |start| <= MAX_PORTS && Added(start, es[0]) == start && Takes(start, es[1..], ps)
    ensures Takes(start, es, ps)
  {
    NewIsOther(start, es[0], ps);
    forall e | e in es && e != es[0] ensures e in es[1..] && IndexOf(es, e) == 1 + IndexOf(es[1..], e) {
      IndexSkips(es, e);
    }
    forall i | |start| <= i < |ps| ensures ps[i] in es && ps[i] != es[0] { assert ps[i] in es[1..]; }
  }

  // An entry that is passed over is long, known or too late.
  lemma NewIsOther(start: seq<string>, entry: string, ps: seq<string>)
    requires |start| <= MAX_PORTS && start <= ps && |ps| <= MAX_PORTS && Added(start, entry) == start
    requires forall i :: |start| <= i < |ps| ==> Short(ps[i]) && ps[i] !in start
    ensures forall i :: |start| <= i < |ps| ==> ps[i] != entry
    ensures Short(entry) && entry !in ps ==> |ps| == |start| == MAX_PORTS
  {
    if Short(entry) && entry !in start && |start| < MAX_PORTS {
      Longer(start, entry);
      assert false;
    }
  }

  lemma Longer(start: seq<string>, entry: string)
    ensures start + [entry] != start
  {
    assert |start + [entry]| == |start| + 1;
  }

  lemma TakenOver(start: seq<string>, es: seq<string>, ps: seq<string>)
    requires es != [] && |start| < MAX_PORTS && Short(es[0]) && es[0] !in start && Takes(start + [es[0]], es[1..], ps)
    ensures Takes(start, es, ps)
  {
    var n := |start|;
    assert ps[n] == (start + [es[0]])[n] == es[0] && start <= ps;
    assert es[0] in start + [es[0]] && forall p :: p in start ==> p in start + [es[0]];
    assert IndexOf(es, es[0]) == 0;
    forall e | e in es && e != es[0] ensures e in es[1..] && IndexOf(es, e) == 1 + IndexOf(es[1..], e) {
      IndexSkips(es, e);
    }
    forall i | n < i < |ps| ensures ps[i] in es && ps[i] != es[0] && ps[i] !in start { assert ps[i] in es[1..]; }
    assert es[0] in ps;
  }

  // ---------------------------------------------------------------- what the drift counts

  // The positions of ports that are neither ephemeral, ignored nor in the baseline.
  ghost function NewAt(ps: seq<string>, base: string, ignore: string): set<int> {
    set i | 0 <= i < |ps| && Atoi(ps[i]) < 32768 && !Has(ignore, ps[i]) && !Has(base, ps[i])
  }

  // The positions of baseline entries a port can match that are neither ignored nor open.
  ghost function LostAt(es: seq<string>, ps: seq<string>, ignore: string): set<int> {
    set i | 0 <= i < |es| && Short(es[i]) && !Has(ignore, es[i]) && es[i] !in ps
  }

  lemma {:induction false} NewPortsBack(ps: seq<string>, p: string, base: string, ignore: string)
    ensures NewPorts(ps + [p], base, ignore) == NewPorts(ps, base, ignore) + NewPorts([p], base, ignore)
    decreases |ps|
  {
    if ps == [] {
      assert ps + [p] == [p];
    } else {
      assert (ps + [p])[1..] == ps[1..] + [p];
      NewPortsBack(ps[1..], p, base, ignore);
    }
  }

  lemma {:induction false} LostPortsBack(es: seq<string>, e: string, ps: seq<string>, ignore: string)
    ensures LostPorts(es + [e], ps, ignore) == LostPorts(es, ps, ignore) + LostPorts([e], ps, ignore)
    decreases |es|
  {
    if es == [] {
      assert es + [e] == [e];
    } else {
      assert (es + [e])[1..] == es[1..] + [e];
      LostPortsBack(es[1..], e, ps, ignore);
    }
  }

  lemma {:induction false} NewPortsCount(ps: seq<string>, base: string, ignore: string)
    ensures NewPorts(ps, base, ignore) == |NewAt(ps, base, ignore)|
    decreases |ps|
  {
    if ps != [] {
      var (n, front) := (|ps| - 1, ps[..|ps| - 1]);
      NewPortsCount(front, base, ignore);
      NewPortsBack(front, ps[n], base, ignore);
      assert front + [ps[n]] == ps && [ps[n]][1..] == [];
      var last := n in NewAt(ps, base, ignore);
      assert NewAt(ps, base, ignore) == NewAt(front, base, ignore) + if last then {n} else {};
    }
  }

  lemma {:induction false} LostPortsCount(es: seq<string>, ps: seq<string>, ignore: string)
    ensures LostPorts(es, ps, ignore) == |LostAt(es, ps, ignore)|
    decreases |es|
  {
    if es != [] {
      var (n, front) := (|es| - 1, es[..|es| - 1]);
      LostPortsCount(front, ps, ignore);
      LostPortsBack(front, es[n], ps, ignore);
      assert front + [es[n]] == es && [es[n]][1..] == [];
      var last := n in LostAt(es, ps, ignore);
      assert LostAt(es, ps, ignore) == LostAt(front, ps, ignore) + if last then {n} else {};
    }
  }
}
