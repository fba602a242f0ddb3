// When the alert goes on and off, told from what the rounds saw
// (velaops_main.c:2216-2325 and 2700-2769).

module AlarmHistory {
  import opened Common
  import opened Csv
  import opened Actions
  import opened Alarm
  import opened AlarmRuns

  // What counts: the observation of a round, or an action that was shown to help and
  // took the alert down.
  datatype Note = Saw(obs: Observation) | Cleared

  // ---------------------------------------------------------------- how an action ends

  // The exit code and the snapshot collected behind it show that the action helped: a
  // unit whose position is kept is now as asked, a process is not the busiest any more or
  // not hot; a command, or a unit that is not watched, is trusted.
  ghost predicate Proven(cfg: Config, a: Action, out: Outcome) {
    && Collects(cfg) && out.after.Some? && out.rc == 0
    && match a
       case Unit(verb, name) =>
         Kept(cfg, name, out.after.value) ==>
           (out.after.value.active[IndexOf(Entries(cfg.svcs), name)] <==> verb != "stop")
       case Kill(process) => out.after.value.top != process || !out.after.value.hot
       case _ => true
  }

  ghost predicate Kept(cfg: Config, name: string, after: After) {
    name in Entries(cfg.svcs) && IndexOf(Entries(cfg.svcs), name) < |after.active|
  }

  // An executed action ends Done exactly when it is shown to help, and Failed otherwise;
  // the alert goes down for a unit or a process that is Done.
  lemma ActionEnds(cfg: Config, s: State, out: Outcome)
    requires s.sel.kind != ActNone
    ensures var t := Executed(cfg, s, out);
            && t.phase == (if Proven(cfg, s.sel.Act(), out) then Done else Failed)
            && t.log == s.log + [Ran(s.sel.Act())] && !t.confirm && t.ui.page == ACTION_PAGE
            && t.watch.online == (Collects(cfg) && out.after.Some?) && t.watch.failStreak == s.watch.failStreak
            && t.sel == s.sel && t.ai == s.ai && t.buttons == s.buttons
            && if Proven(cfg, s.sel.Act(), out) && !s.sel.kind.ActExec? then
                 !t.ui.alert && !t.ui.showAlert && !t.ui.muted && t.latch.kind == ActNone && !t.latch.byAi
                   && t.watch.alertStreak == 0
               else
                 t.ui == s.ui.(page := ACTION_PAGE) && t.latch == s.latch && t.watch.alertStreak == s.watch.alertStreak
  {
  }

  // ---------------------------------------------------------------- the notes of a run

  ghost function NoteOf(cfg: Config, w: World, m: Move): seq<Note> {
    match m
    case Start(obs) => if w.ticking then [] else [Saw(if Collects(cfg) then obs else Offline)]
    case Tick(_, out) => if exists a :: Runs(cfg, w, m, a) && !a.Exec? && Proven(cfg, a, out) then [Cleared] else []
    case _ => []
  }

  ghost function Notes(cfg: Config, w: World, moves: seq<Move>): seq<Note>
    decreases |moves|
  {
    if moves == [] then [] else NoteOf(cfg, w, moves[0]) + Notes(cfg, Next(cfg, w, moves[0]), moves[1..])
  }

  function Rounds(ns: seq<Note>): seq<Observation> {
    if ns == [] then []
    else Rounds(ns[..|ns| - 1]) + if ns[|ns| - 1].Saw? then [ns[|ns| - 1].obs] else []
  }

  // The last n rounds found the server offline.
  ghost predicate OfflineLast(os: seq<Observation>, n: nat) {
    n <= |os| && forall i :: |os| - n <= i < |os| ==> os[i].Offline?
  }

  // The last round is bad: offline for the third time in a row or more, or critical, or
  // scoring too little.
  ghost predicate Bad(cfg: Config, os: seq<Observation>) {
    os != [] && match os[|os| - 1]
                case Offline => OfflineLast(os, 3)
                case Online(total, critical, _, _) => critical || total < cfg.alertScore
  }

  // What the last round calls for: bad and offline or critical, or bad right after
  // another bad one.
  ghost predicate Due(cfg: Config, ns: seq<Note>) {
    && ns != [] && ns[|ns| - 1].Saw? && Bad(cfg, Rounds(ns))
    && (var obs := ns[|ns| - 1].obs;
        obs.Offline? || obs.critical
        || (|ns| >= 2 && ns[|ns| - 2].Saw? && Bad(cfg, Rounds(ns[..|ns| - 1]))))
  }

  ghost predicate Recovers(cfg: Config, obs: Observation) {
    obs.Online? && !obs.critical && obs.total >= cfg.recoverScore
  }

  // ---------------------------------------------------------------- the streaks count these

  function OfflineRun(os: seq<Observation>): nat {
    if os == [] || os[|os| - 1].Online? then 0 else 1 + OfflineRun(os[..|os| - 1])
  }

  ghost function BadRun(cfg: Config, ns: seq<Note>): nat {
    if ns == [] || ns[|ns| - 1].Cleared? || !Bad(cfg, Rounds(ns)) then 0 else 1 + BadRun(cfg, ns[..|ns| - 1])
  }

  ghost predicate Counted(cfg: Config, s: State, ns: seq<Note>) {
    s.watch.failStreak == OfflineRun(Rounds(ns)) && s.watch.alertStreak == BadRun(cfg, ns)
  }

  lemma {:induction false} OfflineRunIs(os: seq<Observation>, n: nat)
    ensures OfflineRun(os) >= n <==> OfflineLast(os, n)
    decreases n
  {
    if os != [] && n > 0 {
      var front := os[..|os| - 1];
      OfflineRunIs(front, n - 1);
      assert forall i :: 0 <= i < |front| ==> os[i] == front[i];
    }
  }

  lemma RoundsNext(ns: seq<Note>, n: Note)
    ensures Rounds(ns + [n]) == Rounds(ns) + if n.Saw? then [n.obs] else []
    ensures (ns + [n])[..|ns|] == ns
  {
    assert (ns + [n])[..|ns|] == ns;
  }

  lemma OfflineNext(os: seq<Observation>, o: Observation)
    ensures OfflineRun(os + [o]) == if o.Online? then 0 else OfflineRun(os) + 1
  {
    assert (os + [o])[..|os|] == os;
  }

  // One round's bookkeeping.
  lemma EvaluatedCounts(cfg: Config, s: State, obs: Observation, ns: seq<Note>)
    requires Counted(cfg, s, ns)
    ensures Counted(cfg, Evaluated(cfg, s, obs), ns + [Saw(obs)])
    ensures !s.ui.alert ==> (EdgeDue(Evaluated(cfg, s, obs), obs) <==> Due(cfg, ns + [Saw(obs)]))
  {
    RoundsNext(ns, Saw(obs));
    OfflineNext(Rounds(ns), obs);
    OfflineRunIs(Rounds(ns) + [obs], 3);
    var os := Rounds(ns) + [obs];
    assert os[|os| - 1] == obs;
  }

  lemma RoundLeavesStreaks(cfg: Config, s: State, obs: Observation)
    ensures RoundSeen(cfg, s, obs).watch.failStreak == Evaluated(cfg, s, obs).watch.failStreak
    ensures RoundSeen(cfg, s, obs).watch.alertStreak == Evaluated(cfg, s, obs).watch.alertStreak
  {
  }

  // ---------------------------------------------------------------- ticks

  // A tick that runs nothing, or nothing that helped, leaves the streaks and the alert.
  lemma TickCounts(cfg: Config, w: World, m: Move)
    requires m.Tick? && w.ticking
    ensures var t := Next(cfg, w, m).s;
            && t.watch.failStreak == w.s.watch.failStreak
            && t.watch.alertStreak == (if NoteOf(cfg, w, m) == [] then w.s.watch.alertStreak else 0)
            && (t.ui.alert <==> w.s.ui.alert && NoteOf(cfg, w, m) == [])
  {
    var (s1, p1) := KeyTaken(w.s);
    var (s2, p2) := BootRead(s1, p1, m.down);
    ButtonsOnly(w.s, m.down);
    ButtonsLeave(w.s, m.down);
    if p2.LongPress? && Approvable(s2) && !BoxNeeded(s2, p2) {
      ActionEnds(cfg, s2, m.out);
      assert Runs(cfg, w, m, s2.sel.Act());
      OnlyAction(cfg, w, m, s2.sel.Act());
    } else {
      NothingRan(cfg, s2, p2, m.out);
      NoRunNoNote(cfg, w, m);
    }
  }

  lemma ButtonsLeave(s: State, down: bool)
    ensures var (s1, p1) := KeyTaken(s);
            var (s2, p2) := BootRead(s1, p1, down);
            s2.watch == s.watch && s2.ui.alert == s.ui.alert && s2.phase == s.phase && |s2.log| >= |s.log|
  {
  }

  lemma OnlyAction(cfg: Config, w: World, m: Move, a: Action)
    requires Runs(cfg, w, m, a)
    ensures forall b :: Runs(cfg, w, m, b) ==> b == a
  {
  }

  lemma NothingRan(cfg: Config, s: State, press: Press, out: Outcome)
    requires !(press.LongPress? && Approvable(s) && !BoxNeeded(s, press))
    ensures var t := Answered(cfg, s, press, out);
            && t.watch == s.watch && t.ui.alert == s.ui.alert
            && (t.log == s.log || t.log == s.log + [Prompt(s.sel.Act())])
  {
  }

  lemma NoRunNoNote(cfg: Config, w: World, m: Move)
    requires m.Tick? && w.ticking
    requires var (s1, p1) := KeyTaken(w.s);
             var (s2, p2) := BootRead(s1, p1, m.down);
             var t := Answered(cfg, s2, p2, m.out);
             && (s2.log == w.s.log || s2.log == w.s.log + [Pressed])
             && (t.log == s2.log || t.log == s2.log + [Prompt(s2.sel.Act())])
    ensures NoteOf(cfg, w, m) == []
  {
  }

  // ---------------------------------------------------------------- runs

  lemma TickMoveCounts(cfg: Config, w: World, m: Move, ns: seq<Note>)
    requires Counted(cfg, w.s, ns) && m.Tick? && w.ticking
    ensures Counted(cfg, Next(cfg, w, m).s, ns + NoteOf(cfg, w, m))
  {
    TickCounts(cfg, w, m);
    if NoteOf(cfg, w, m) == [] {
      assert ns + [] == ns;
    } else {
      assert NoteOf(cfg, w, m) == [Cleared];
      RoundsNext(ns, Cleared);
      assert (ns + [Cleared])[|ns|] == Cleared;
      assert Rounds(ns) + [] == Rounds(ns);
    }
  }

  lemma MoveCounts(cfg: Config, w: World, m: Move, ns: seq<Note>)
    requires Counted(cfg, w.s, ns)
    ensures Counted(cfg, Next(cfg, w, m).s, ns + NoteOf(cfg, w, m))
  {
    assert ns + [] == ns;
    match m
    case Start(obs) =>
      if !w.ticking {
        EvaluatedCounts(cfg, w.s, Collected(cfg, obs), ns);
        RoundLeavesStreaks(cfg, w.s, Collected(cfg, obs));
      }
    case Tick(_, _) =>
      if w.ticking { TickMoveCounts(cfg, w, m, ns); }
    case _ =>
  }

  lemma {:induction false} RunCounts(cfg: Config, w: World, moves: seq<Move>, ns: seq<Note>)
    requires Counted(cfg, w.s, ns)
    ensures Counted(cfg, Run(cfg, w, moves).s, ns + Notes(cfg, w, moves))
    decreases |moves|
  {
    if moves == [] {
      assert ns + [] == ns;
    } else {
      MoveCounts(cfg, w, moves[0], ns);
      RunCounts(cfg, Next(cfg, w, moves[0]), moves[1..], ns + NoteOf(cfg, w, moves[0]));
      Grouped(ns, NoteOf(cfg, w, moves[0]), Notes(cfg, Next(cfg, w, moves[0]), moves[1..]));
    }
  }

  // In every run a round that finds the alert off raises it exactly when what was seen so
  // far calls for it; and after a round the alert is on exactly if it was on or was raised
  // and the round does not show recovery.
  lemma AlertIff(cfg: Config, w: World, moves: seq<Move>, obs: Observation)
    requires Initial(w) && !Run(cfg, w, moves).ticking
    ensures var before := Run(cfg, w, moves);
            var after := Next(cfg, before, Start(obs));
            var seen := if Collects(cfg) then obs else Offline;
            var raised := !before.s.ui.alert && Due(cfg, Notes(cfg, w, moves) + [Saw(seen)]);
            && after.s.log == before.s.log + (if raised then [Edge] else [])
            && (after.s.ui.alert <==> (before.s.ui.alert || raised) && !Recovers(cfg, seen))
            && ((before.s.ui.alert || raised) && Recovers(cfg, seen) ==>
                  !after.s.ui.showAlert && !after.s.ui.muted && !after.s.confirm && after.s.phase == Idle)
            && (raised && !Recovers(cfg, seen) ==>
                  after.s.ui.showAlert && !after.s.ui.muted && after.s.ui.page == ACTION_PAGE
                    && after.s.phase == Waiting)
  {
    var before, ns := Run(cfg, w, moves), Notes(cfg, w, moves);
    RunCounts(cfg, w, moves, []);
    assert [] + ns == ns && before.s.log + [] == before.s.log;
    EvaluatedCounts(cfg, before.s, Collected(cfg, obs), ns);
    RoundAlert(cfg, before.s, Collected(cfg, obs));
  }

  // A round that shows recovery takes the alert down with all that belongs to it; one
  // that raises it and does not, shows it and offers what the server's state suggests.
  lemma RoundAlert(cfg: Config, s: State, obs: Observation)
    ensures var t := RoundSeen(cfg, s, obs);
            var raised := !s.ui.alert && EdgeDue(Evaluated(cfg, s, obs), obs);
            && t.log == (if raised then s.log + [Edge] else s.log)
            && (t.ui.alert <==> (s.ui.alert || raised) && !Recovers(cfg, obs))
            && ((s.ui.alert || raised) && Recovers(cfg, obs) ==>
                  !t.ui.showAlert && !t.ui.muted && !t.confirm && t.phase == Idle && t.latch.kind == ActNone
                    && !t.latch.byAi)
            && (raised && !Recovers(cfg, obs) ==>
                  t.ui.showAlert && !t.ui.muted && t.ui.page == ACTION_PAGE && !t.confirm && t.phase == Waiting)
  {
  }

  // Apart from rounds the alert only goes down, and just when an action has helped.
  lemma AlertFalls(cfg: Config, w: World, m: Move)
    requires !m.Start?
    ensures Next(cfg, w, m).s.ui.alert <==> w.s.ui.alert && (w.ticking ==> NoteOf(cfg, w, m) == [])
  {
    if m.Tick? && w.ticking { TickCounts(cfg, w, m); }
  }
}
