// What holds in every run of the alarm loop.

module AlarmRuns {
  import opened Common
  import opened Csv
  import opened Actions
  import opened Alarm

  // The loop between its steps: inside the ticks of a round or between rounds, and
  // whether the last round saw the server online.
  datatype World = World(s: State, ticking: bool, sawOnline: bool)

  // A round starts, ticks, ends; the key thread moves at any time.  The page and
  // screen a long press records are whatever the thread read while the loop was
  // changing them.
  datatype Move =
    | Start(obs: Observation)
    | Tick(down: bool, out: Outcome)
    | End(reply: Option<Ai>)
    | KeyDown
    | KeyShort(key: nat)
    | KeyLong(shown: bool, page: nat)

  ghost function Next(cfg: Config, w: World, m: Move): World {
    match m
    case Start(obs) => if w.ticking then w else World(RoundStarted(cfg, w.s, obs), true, Collected(cfg, obs).Online?)
    case Tick(down, out) => if w.ticking then w.(s := Ticked(cfg, w.s, down, out)) else w
    case End(reply) => if w.ticking then w.(s := RoundEnded(w.s, reply), ticking := false) else w
    case KeyDown => w.(s := KeyWentDown(w.s))
    case KeyShort(key) => w.(s := KeyTapped(w.s, key))
    case KeyLong(shown, page) => w.(s := KeyHeld(w.s, shown, page))
  }

  ghost function Run(cfg: Config, w: World, moves: seq<Move>): World
    decreases |moves|
  {
    if moves == [] then w else Run(cfg, Next(cfg, w, moves[0]), moves[1..])
  }

  ghost predicate Initial(w: World) { IsInitial(w.s) && !w.ticking }

  // ---------------------------------------------------------------- reading the log

  // There is an edge with no execution after it.
  predicate Armed(log: seq<Event>) {
    log != [] && (log[|log| - 1].Edge? || (!log[|log| - 1].Ran? && Armed(log[..|log| - 1])))
  }

  // Every execution finds the log armed.
  predicate Separated(log: seq<Event>) {
    log != [] ==> Separated(log[..|log| - 1]) && (log[|log| - 1].Ran? ==> Armed(log[..|log| - 1]))
  }

  function Served(log: seq<Event>): nat {
    if log == [] then 0
    else Served(log[..|log| - 1]) + if log[|log| - 1].Ran? || log[|log| - 1].Prompt? then 1 else 0
  }

  function Presses(log: seq<Event>): nat {
    if log == [] then 0 else Presses(log[..|log| - 1]) + if log[|log| - 1].Pressed? then 1 else 0
  }

  ghost predicate AllAllowed(cfg: Config, log: seq<Event>) {
    forall e :: e in log && (e.Ran? || e.Prompt?) ==> Allowed(cfg, e.action)
  }

  lemma Appended(cfg: Config, log: seq<Event>, e: Event)
    ensures Armed(log + [e]) <==> e.Edge? || (!e.Ran? && Armed(log))
    ensures Separated(log + [e]) <==> Separated(log) && (e.Ran? ==> Armed(log))
    ensures Served(log + [e]) == Served(log) + if e.Ran? || e.Prompt? then 1 else 0
    ensures Presses(log + [e]) == Presses(log) + if e.Pressed? then 1 else 0
    ensures AllAllowed(cfg, log + [e]) <==> AllAllowed(cfg, log) && (e.Ran? || e.Prompt? ==> Allowed(cfg, e.action))
  {
    assert (log + [e])[..|log|] == log;
    assert e in log + [e] && forall x :: x in log ==> x in log + [e];
  }

  // ---------------------------------------------------------------- invariant

  // Accepting the AI's choice now would not change what is selected.  It is accepted in
  // online rounds, of which there are none for lists the collector refuses.
  ghost predicate Settled(cfg: Config, s: State) {
    Collects(cfg) && AiChoice(cfg, s.ai).Some? ==> AiChoice(cfg, s.ai).value == s.sel.Act()
  }

  predicate Open(s: State) { s.ui.alert && s.phase.Waiting? }

  ghost predicate OfferOk(cfg: Config, s: State) {
    && (s.confirm ==> Open(s))
    && (Open(s) ==> s.latch == s.sel && Allowed(cfg, s.sel.Act()) && Armed(s.log))
  }

  ghost predicate LogOk(cfg: Config, s: State) {
    && Separated(s.log) && AllAllowed(cfg, s.log)
    && s.buttons.served <= s.buttons.counted
    && Served(s.log) + (s.buttons.counted - s.buttons.served) <= Presses(s.log)
  }

  ghost predicate Inv(cfg: Config, w: World) {
    && OfferOk(cfg, w.s) && LogOk(cfg, w.s)
    && (w.ticking && w.sawOnline && Open(w.s) ==> Settled(cfg, w.s))
  }

  lemma CandidateAllowed(cfg: Config, obs: Observation)
    requires obs.Online? ==> Collects(cfg)
    ensures Allowed(cfg, Candidate(cfg, obs).Act()) && !Candidate(cfg, obs).byAi
  {
  }

  // ---------------------------------------------------------------- steps keep it

  // The alert edge, for a selection that is allowed.
  lemma EdgeKeeps(cfg: Config, s: State, obs: Observation)
    requires OfferOk(cfg, s) && LogOk(cfg, s) && (obs.Online? ==> Collects(cfg))
    ensures var s1 := Evaluated(cfg, s, obs);
            var s2 := if EdgeDue(s1, obs) then Raised(s1) else s1;
            && LogOk(cfg, s2) && (s2.confirm ==> Open(s2))
            && (Open(s2) ==> Allowed(cfg, s2.latch.Act()) && Armed(s2.log))
            && (s2.watch.justAlert ==> s2.ui.alert && Armed(s2.log) && s2.latch == s2.sel && !s2.ai.valid
                                       && Allowed(cfg, s2.sel.Act()))
            && !s2.sel.byAi
  {
    CandidateAllowed(cfg, obs);
    Appended(cfg, s.log, Edge);
  }

  lemma StartKeeps(cfg: Config, w: World, obs: Observation)
    requires Inv(cfg, w) && !w.ticking
    ensures Inv(cfg, Next(cfg, w, Start(obs)))
  {
    EdgeKeeps(cfg, w.s, Collected(cfg, obs));
  }

  // The buttons: presses are counted before they are served.
  lemma ButtonsKeep(cfg: Config, s: State, down: bool)
    requires OfferOk(cfg, s) && LogOk(cfg, s)
    ensures var (s1, p1) := KeyTaken(s);
            var (s2, p2) := BootRead(s1, p1, down);
            && OfferOk(cfg, s2) && LogOk(cfg, s2)
            && s2.sel == s.sel && s2.ai == s.ai && s2.confirm == s.confirm && (Open(s2) <==> Open(s))
            && (p2.LongPress? ==> Served(s2.log) + 1 + (s2.buttons.counted - s2.buttons.served) <= Presses(s2.log))
  {
    Appended(cfg, s.log, Pressed);
  }

  lemma AnswerKeeps(cfg: Config, s: State, press: Press, out: Outcome)
    requires OfferOk(cfg, s) && LogOk(cfg, s)
    requires press.LongPress? ==> Served(s.log) + 1 + (s.buttons.counted - s.buttons.served) <= Presses(s.log)
    ensures var t := Answered(cfg, s, press, out);
            && OfferOk(cfg, t) && LogOk(cfg, t) && t.sel == s.sel && t.ai == s.ai && (Open(t) ==> Open(s))
  {
    Appended(cfg, s.log, Prompt(s.sel.Act()));
    Appended(cfg, s.log, Ran(s.sel.Act()));
  }

  lemma NextKeeps(cfg: Config, w: World, m: Move)
    requires Inv(cfg, w)
    ensures Inv(cfg, Next(cfg, w, m))
  {
    match m
    case Start(obs) => if !w.ticking { StartKeeps(cfg, w, obs); }
    case Tick(down, out) =>
      if w.ticking {
        ButtonsKeep(cfg, w.s, down);
        var (s1, p1) := KeyTaken(w.s);
        var (s2, p2) := BootRead(s1, p1, down);
        AnswerKeeps(cfg, s2, p2, out);
      }
    case KeyLong(_, _) => Appended(cfg, w.s.log, Pressed);
    case _ =>
  }

  lemma {:induction false} RunKeeps(cfg: Config, w: World, moves: seq<Move>)
    requires Inv(cfg, w)
    ensures Inv(cfg, Run(cfg, w, moves))
    decreases |moves|
  {
    if moves != [] {
      NextKeeps(cfg, w, moves[0]);
      RunKeeps(cfg, Next(cfg, w, moves[0]), moves[1..]);
    }
  }

  lemma Reached(cfg: Config, w: World, moves: seq<Move>)
    requires Initial(w)
    ensures Inv(cfg, Run(cfg, w, moves))
  {
    RunKeeps(cfg, w, moves);
  }

  // ---------------------------------------------------------------- what holds of every run

  // Two executions have a fresh alert edge between them.
  lemma EdgeBetweenExecutions(cfg: Config, w: World, moves: seq<Move>, i: nat, j: nat)
    requires Initial(w)
    requires var log := Run(cfg, w, moves).s.log; i < j < |log| && log[i].Ran? && log[j].Ran?
    ensures exists k :: i < k < j && Run(cfg, w, moves).s.log[k].Edge?
  {
    Reached(cfg, w, moves);
    SeparatedMeans(Run(cfg, w, moves).s.log, i, j);
  }

  lemma {:induction false} SeparatedMeans(log: seq<Event>, i: nat, j: nat)
    requires Separated(log) && i < j < |log| && log[i].Ran? && log[j].Ran?
    ensures exists k :: i < k < j && log[k].Edge?
    decreases |log|
  {
    var n := |log| - 1;
    if j < n {
      SeparatedMeans(log[..n], i, j);
      var k :| i < k < j && log[..n][k].Edge?;
      assert log[k].Edge?;
    } else {
      var k := ArmedMeans(log[..n], i);
      assert log[k].Edge?;
    }
  }

  lemma {:induction false} ArmedMeans(log: seq<Event>, i: nat) returns (k: nat)
    requires Armed(log) && i < |log| && log[i].Ran?
    ensures i < k < |log| && log[k].Edge?
    decreases |log|
  {
    var n := |log| - 1;
    if log[n].Edge? {
      k := n;
    } else {
      k := ArmedMeans(log[..n], i);
    }
  }

  // A round logs an edge exactly when it finds the alert off and an edge due.
  lemma EdgeIsFresh(cfg: Config, s: State, obs: Observation)
    ensures var seen := Collected(cfg, obs);
            var due := !s.ui.alert && EdgeDue(Evaluated(cfg, s, seen), seen);
            && RoundStarted(cfg, s, obs).log == (if due then s.log + [Edge] else s.log)
            && (RoundStarted(cfg, s, obs).ui.alert && !s.ui.alert ==> due)
  {
  }

  predicate Ends(log: seq<Event>, e: Event) { log != [] && log[|log| - 1] == e }

  // All a tick may add: a press, then what it did about it.
  ghost predicate TickLog(log: seq<Event>, a: Action, log': seq<Event>) {
    Answering(log, a, log') || Answering(log + [Pressed], a, log')
  }

  predicate Answering(mid: seq<Event>, a: Action, log': seq<Event>) {
    log' == mid || log' == mid + [Prompt(a)] || log' == mid + [Ran(a)]
  }

  // What the two halves of a tick log.
  lemma ButtonsLog(s: State, down: bool)
    ensures var (s1, p1) := KeyTaken(s);
            var (s2, p2) := BootRead(s1, p1, down);
            && (s2.log == s.log || s2.log == s.log + [Pressed]) && s2.sel == s.sel && s2.ui.alert == s.ui.alert
  {
  }

  lemma AnswerLog(cfg: Config, s: State, press: Press, out: Outcome)
    ensures var t := Answered(cfg, s, press, out);
            Answering(s.log, s.sel.Act(), t.log) && (t.ui.alert ==> s.ui.alert)
  {
  }

  lemma TickLogs(cfg: Config, s: State, down: bool, out: Outcome)
    ensures TickLog(s.log, s.sel.Act(), Ticked(cfg, s, down, out).log)
    ensures Ticked(cfg, s, down, out).ui.alert ==> s.ui.alert
  {
    ButtonsLog(s, down);
    var (s1, p1) := KeyTaken(s);
    var (s2, p2) := BootRead(s1, p1, down);
    AnswerLog(cfg, s2, p2, out);
  }

  lemma TickLogMeans(log: seq<Event>, a: Action, log': seq<Event>)
    requires TickLog(log, a, log')
    ensures log <= log' && forall i :: |log| <= i < |log'| ==> log'[i] in {Pressed, Prompt(a), Ran(a)}
  {
  }

  // No other step logs an edge or turns the alert on.
  lemma OnlyRoundsRaise(cfg: Config, w: World, m: Move)
    requires !m.Start?
    ensures var w' := Next(cfg, w, m);
            && (w'.s.ui.alert ==> w.s.ui.alert)
            && w.s.log <= w'.s.log && forall i :: |w.s.log| <= i < |w'.s.log| ==> !w'.s.log[i].Edge?
  {
    if m.Tick? && w.ticking {
      TickLogs(cfg, w.s, m.down, m.out);
      TickLogMeans(w.s.log, w.s.sel.Act(), Next(cfg, w, m).s.log);
    }
  }

  // Executions and prompts never outnumber the long presses.
  lemma EveryActionWasPressed(cfg: Config, w: World, moves: seq<Move>)
    requires Initial(w)
    ensures Served(Run(cfg, w, moves).s.log) <= Presses(Run(cfg, w, moves).s.log)
  {
    Reached(cfg, w, moves);
  }

  // Whatever ran was allowed, wherever it came from.
  lemma EveryActionIsAllowed(cfg: Config, w: World, moves: seq<Move>, e: Event)
    requires Initial(w) && e in Run(cfg, w, moves).s.log && e.Ran?
    ensures Allowed(cfg, e.action)
    ensures ShortEntries(cfg.repair) && e.action.Unit? ==> e.action.name in Entries(cfg.repair)
  {
    Reached(cfg, w, moves);
    if ShortEntries(cfg.repair) && e.action.Unit? {
      ShortCutsAreListed(cfg);
      UnitIsListed(cfg, e.action.verb, e.action.name);
    }
  }

  // ---------------------------------------------------------------- units that are not listed

  // In every run each unit that is executed is a listed one.
  ghost predicate RunsListed(cfg: Config, w: World, moves: seq<Move>) {
    forall e :: e in Run(cfg, w, moves).s.log && e.Ran? && e.action.Unit? ==> e.action.name in Entries(cfg.repair)
  }

  ghost predicate AlwaysListed(cfg: Config) {
    forall w, moves :: Initial(w) ==> RunsListed(cfg, w, moves)
  }

  // That holds exactly when cutting an entry that the loop can pick always gives a
  // listed one.
  lemma UnitsListedIff(cfg: Config)
    ensures AlwaysListed(cfg) <==> CutsAreListed(cfg)
  {
    if CutsAreListed(cfg) {
      forall w, moves | Initial(w) ensures RunsListed(cfg, w, moves) {
        Reached(cfg, w, moves);
      }
    }
    forall e | Pickable(cfg, e) && Cut(e, TARGET_SIZE) !in Entries(cfg.repair) ensures !AlwaysListed(cfg) {
      var w := FreshWorld();
      var moves := CutEntryRuns(cfg, w, e, Outcome(0, None));
      var ran := Ran(Unit("restart", Cut(e, TARGET_SIZE)));
      assert ran in Run(cfg, w, moves).s.log;
      assert !RunsListed(cfg, w, moves);
    }
  }

  // With lists the collector refuses nothing is ever offered or executed.
  lemma {:induction false} NothingRuns(cfg: Config, w: World, moves: seq<Move>)
    requires !Collects(cfg) && Inv(cfg, w) && w.s.latch.kind == ActNone
    ensures forall e :: e in Run(cfg, w, moves).s.log && (e.Ran? || e.Prompt?) ==> e in w.s.log
    decreases |moves|
  {
    if moves != [] {
      NextKeeps(cfg, w, moves[0]);
      NothingOffered(cfg, w, moves[0]);
      NothingRuns(cfg, Next(cfg, w, moves[0]), moves[1..]);
    }
  }

  lemma NothingOffered(cfg: Config, w: World, m: Move)
    requires !Collects(cfg) && Inv(cfg, w) && w.s.latch.kind == ActNone
    ensures Next(cfg, w, m).s.latch.kind == ActNone
    ensures forall e :: e in Next(cfg, w, m).s.log && (e.Ran? || e.Prompt?) ==> e in w.s.log
  {
    match m
    case Start(obs) => if !w.ticking { EdgeIsFresh(cfg, w.s, obs); }
    case Tick(down, out) => if w.ticking { TickOffersNothing(cfg, w.s, down, out); }
    case _ =>
  }

  lemma TickOffersNothing(cfg: Config, s: State, down: bool, out: Outcome)
    requires Open(s) ==> s.sel.kind == ActNone
    ensures var t := Ticked(cfg, s, down, out);
            t.latch == s.latch && (t.log == s.log || t.log == s.log + [Pressed])
  {
    ButtonsOnly(s, down);
  }

  // What the buttons leave alone.
  lemma ButtonsOnly(s: State, down: bool)
    ensures var (s1, p1) := KeyTaken(s);
            var (s2, p2) := BootRead(s1, p1, down);
            && (s2.log == s.log || s2.log == s.log + [Pressed]) && s2.sel == s.sel && s2.latch == s.latch
            && (Open(s2) <==> Open(s))
  {
  }

  lemma FreshWorld() returns (w: World)
    ensures Initial(w)
  {
    var none := Selection(ActNone, "", "restart", "", false);
    w := World(State(Screen(0, false, false, false), Watch(false, 0, 0, false, 0),
      Buttons(0, false, 0, 0, false, 0), Waiting,
                     none, false, none, Ai(false, "", "", ""), []), false, false);
  }

  // A run that executes the cut of a given entry.
  lemma CutEntryRuns(cfg: Config, w: World, e: string, out: Outcome) returns (moves: seq<Move>)
    requires Initial(w) && Pickable(cfg, e)
    ensures Run(cfg, w, moves).s.log == [Edge, Pressed, Ran(Unit("restart", Cut(e, TARGET_SIZE)))]
  {
    var start, hold, tick := Start(Online(0, true, None, OnlyDown(cfg, e))), KeyLong(true, ACTION_PAGE),
      Tick(false, out);
    AlertForUnit(cfg, w, e);
    var w1 := Next(cfg, w, start);
    HeldPressExecutes(cfg, w1, out);
    RunInTwo(cfg, w, [start], [hold, tick]);
    RunOne(cfg, w, start);
    moves := [start] + [hold, tick];
  }

  lemma AlertForUnit(cfg: Config, w: World, e: string)
    requires Initial(w) && Pickable(cfg, e)
    ensures var w' := Next(cfg, w, Start(Online(0, true, None, OnlyDown(cfg, e))));
            && w'.ticking && Open(w'.s) && !w'.s.confirm && w'.s.log == [Edge] && w'.s.buttons == w.s.buttons
            && w'.s.sel.kind == ActUnit && w'.s.sel.Act() == Unit("restart", Cut(e, TARGET_SIZE))
  {
    PickedWhenDown(cfg, e);
  }

  lemma HeldPressExecutes(cfg: Config, w: World, out: Outcome)
    requires w.ticking && Open(w.s) && w.s.sel.kind == ActUnit
    requires w.s.buttons.pressMs == 0 && w.s.buttons.served == w.s.buttons.counted
    ensures Run(cfg, w, [KeyLong(true, ACTION_PAGE), Tick(false, out)]).s.log
            == w.s.log + [Pressed] + [Ran(w.s.sel.Act())]
  {
    RunTwo(cfg, w, KeyLong(true, ACTION_PAGE), Tick(false, out));
  }

  // ---------------------------------------------------------------- the confirm box

  // The box stays up all along these moves.
  ghost predicate BoxStays(cfg: Config, w: World, moves: seq<Move>)
    decreases |moves|
  {
    w.s.confirm && (moves != [] ==> BoxStays(cfg, Next(cfg, w, moves[0]), moves[1..]))
  }

  lemma BoxRound(cfg: Config, s: State, obs: Observation)
    requires OfferOk(cfg, s) && s.confirm && Settled(cfg, s) && RoundStarted(cfg, s, obs).confirm
    ensures var t := RoundStarted(cfg, s, obs); t.sel.Act() == s.sel.Act() && t.ai == s.ai
  {
  }

  lemma BoxTick(cfg: Config, s: State, down: bool, out: Outcome)
    requires OfferOk(cfg, s) && LogOk(cfg, s)
    ensures Ticked(cfg, s, down, out).sel == s.sel && Ticked(cfg, s, down, out).ai == s.ai
  {
    ButtonsKeep(cfg, s, down);
  }

  lemma BoxStep(cfg: Config, w: World, m: Move)
    requires Inv(cfg, w) && w.s.confirm && Settled(cfg, w.s) && Next(cfg, w, m).s.confirm
    ensures Settled(cfg, Next(cfg, w, m).s) && Next(cfg, w, m).s.sel.Act() == w.s.sel.Act()
  {
    match m
    case Start(obs) => if !w.ticking { BoxRound(cfg, w.s, obs); }
    case Tick(down, out) => if w.ticking { BoxTick(cfg, w.s, down, out); }
    case _ =>
  }

  // While the box stays up, a settled selection stays what it is.
  lemma {:induction false} BoxKeepsAction(cfg: Config, w: World, moves: seq<Move>)
    requires Inv(cfg, w) && Settled(cfg, w.s) && BoxStays(cfg, w, moves)
    ensures Run(cfg, w, moves).s.sel.Act() == w.s.sel.Act()
    decreases |moves|
  {
    if moves != [] {
      NextKeeps(cfg, w, moves[0]);
      BoxStep(cfg, w, moves[0]);
      BoxKeepsAction(cfg, Next(cfg, w, moves[0]), moves[1..]);
    }
  }

  lemma {:induction false} RunInTwo(cfg: Config, w: World, a: seq<Move>, b: seq<Move>)
    ensures Run(cfg, w, a + b) == Run(cfg, Run(cfg, w, a), b)
    decreases |a|
  {
    if a == [] {
      assert a + b == b;
    } else {
      assert (a + b)[1..] == a[1..] + b;
      RunInTwo(cfg, Next(cfg, w, a[0]), a[1..], b);
    }
  }

  // This tick puts the box up for an action; this tick runs one.
  ghost predicate Raises(cfg: Config, w: World, m: Move, a: Action) {
    && m.Tick? && !w.s.confirm && Next(cfg, w, m).s.confirm && Ends(Next(cfg, w, m).s.log, Prompt(a))
  }

  ghost predicate Runs(cfg: Config, w: World, m: Move, a: Action) {
    m.Tick? && |Next(cfg, w, m).s.log| > |w.s.log| && Ends(Next(cfg, w, m).s.log, Ran(a))
  }

  // A box raised in a round that saw the server online, and never taken down, is
  // confirmed by a press that runs exactly what it shows.
  lemma BoxIsExecuted(cfg: Config, w: World, before: seq<Move>, raise: Move, shown: Action,
                      during: seq<Move>, confirm: Move, done: Action)
    requires Initial(w)
    requires Run(cfg, w, before).sawOnline && Raises(cfg, Run(cfg, w, before), raise, shown)
    requires var w1 := Next(cfg, Run(cfg, w, before), raise);
             BoxStays(cfg, w1, during) && Runs(cfg, Run(cfg, w1, during), confirm, done)
    ensures done == shown
  {
    Reached(cfg, w, before);
    var w1 := Next(cfg, Run(cfg, w, before), raise);
    RaiseSettles(cfg, Run(cfg, w, before), raise, shown);
    BoxKeepsAction(cfg, w1, during);
    ExecutionRunsSelection(cfg, Run(cfg, w1, during), confirm, done);
  }

  // Such runs exist wherever the server can be watched and there is a process to kill.
  lemma BoxCanBeConfirmed(cfg: Config, w: World, a: Name, out: Outcome)
    requires Initial(w) && Collects(cfg) && Has(cfg.killAllow, a)
    ensures var hold, tick := KeyLong(false, 0), Tick(false, out);
            var w0 := Run(cfg, w, [Start(Online(0, true, Some(a), [])), hold]);
            var w1 := Next(cfg, w0, tick);
            && w0.sawOnline && Raises(cfg, w0, tick, Kill(a))
            && BoxStays(cfg, w1, [hold]) && Runs(cfg, Run(cfg, w1, [hold]), tick, Kill(a))
  {
    var bad, hold, tick := Start(Online(0, true, Some(a), [])), KeyLong(false, 0), Tick(false, out);
    AlertForKill(cfg, w, a);
    RunTwo(cfg, w, bad, hold);
    var w0 := Run(cfg, w, [bad, hold]);
    var w1 := Next(cfg, w0, tick);
    assert w1.s.confirm && Open(w1.s) && Ends(w1.s.log, Prompt(Kill(a)));
    RunOne(cfg, w1, hold);
  }

  lemma AlertForKill(cfg: Config, w: World, a: Name)
    requires Initial(w) && Collects(cfg) && Has(cfg.killAllow, a)
    ensures var w' := Next(cfg, w, Start(Online(0, true, Some(a), [])));
            && w'.ticking && w'.sawOnline && Open(w'.s) && !w'.s.confirm && w'.s.watch.justAlert && w'.s.log == [Edge]
            && w'.s.sel.kind == ActKill && w'.s.sel.Act() == Kill(a) && w'.s.latch == w'.s.sel
            && w'.s.buttons == w.s.buttons
  {
    assert FirstDown(Entries(cfg.repair), cfg.svcs, []) == None;
  }

  // The box never goes up without a prompt for the selected action.
  lemma BoxComesWithPrompt(cfg: Config, w: World, m: Move)
    requires !w.s.confirm && Next(cfg, w, m).s.confirm
    ensures m.Tick? && Raises(cfg, w, m, w.s.sel.Act())
  {
    if m.Tick? && w.ticking { ButtonsLog(w.s, m.down); }
  }

  lemma RaiseSettles(cfg: Config, w: World, m: Move, a: Action)
    requires Inv(cfg, w) && w.sawOnline && Raises(cfg, w, m, a)
    ensures var w' := Next(cfg, w, m); Inv(cfg, w') && Settled(cfg, w'.s) && w'.s.sel.Act() == a
  {
    NextKeeps(cfg, w, m);
    BoxComesWithPrompt(cfg, w, m);
    RaiseKeeps(cfg, w, m);
  }

  lemma RaiseKeeps(cfg: Config, w: World, m: Move)
    requires Inv(cfg, w) && m.Tick? && !w.s.confirm && Next(cfg, w, m).s.confirm
    ensures w.ticking && Next(cfg, w, m).ticking && Next(cfg, w, m).s.sel == w.s.sel
  {
    if w.ticking { BoxTick(cfg, w.s, m.down, m.out); }
  }

  lemma ExecutionRunsSelection(cfg: Config, w: World, m: Move, a: Action)
    requires Runs(cfg, w, m, a)
    ensures a == w.s.sel.Act()
  {
    TickLogs(cfg, w.s, m.down, m.out);
    TickLogMeans(w.s.log, w.s.sel.Act(), Next(cfg, w, m).s.log);
  }

  // Being settled is also needed: otherwise an online round replaces the action
  // behind the box.
  lemma UnsettledBreaks(cfg: Config, w: World) returns (moves: seq<Move>)
    requires Inv(cfg, w) && w.s.confirm && !Settled(cfg, w.s)
    ensures BoxStays(cfg, w, moves) && Run(cfg, w, moves).s.sel.Act() != w.s.sel.Act()
  {
    var start := Start(Online(0, true, None, []));
    var w1 := if w.ticking then Next(cfg, w, End(None)) else w;
    assert w1.s.ai == w.s.ai && w1.s.confirm && w1.s.sel == w.s.sel;
    var w2 := Next(cfg, w1, start);
    assert w2.s.confirm && w2.s.sel.Act() == AiChoice(cfg, w.s.ai).value;
    RunOne(cfg, w1, start);
    moves := if w.ticking then [End(None), start] else [start];
    if w.ticking {
      assert moves[1..] == [start];
    }
  }

  lemma RunOne(cfg: Config, w: World, m: Move)
    ensures Run(cfg, w, [m]) == Next(cfg, w, m)
    ensures BoxStays(cfg, w, [m]) <==> w.s.confirm && Next(cfg, w, m).s.confirm
  {
    assert [m][1..] == [];
  }

  // Exactly then does the box stay true to its action for as long as it is up.
  lemma BoxFaithfulIff(cfg: Config, w: World)
    requires Inv(cfg, w) && w.s.confirm
    ensures Settled(cfg, w.s)
       <==> forall moves: seq<Move> :: BoxStays(cfg, w, moves) ==> Run(cfg, w, moves).s.sel.Act() == w.s.sel.Act()
  {
    if Settled(cfg, w.s) {
      forall moves: seq<Move> | BoxStays(cfg, w, moves) ensures Run(cfg, w, moves).s.sel.Act() == w.s.sel.Act() {
        BoxKeepsAction(cfg, w, moves);
      }
    } else {
      var moves := UnsettledBreaks(cfg, w);
    }
  }

  // Without the online round it can fail: with two processes on the kill list, an AI
  // reply that arrives before an offline round takes over behind the box.
  lemma OfflineBoxRunsAnother(cfg: Config, w: World, a: Name, b: Name, out: Outcome) returns (moves: seq<Move>)
    requires Initial(w) && Collects(cfg) && a != b && Has(cfg.killAllow, a) && Has(cfg.killAllow, b)
             && GoodName(b, false)
    ensures Run(cfg, w, moves).s.log == [Edge, Pressed, Prompt(Kill(a)), Pressed, Ran(Kill(b))]
  {
    var bad := Start(Online(0, true, Some(a), []));
    var reply := End(Some(Ai(true, "kill", b, "")));
    var first := [bad, reply, Start(Offline)];
    var press := [KeyLong(false, 0), Tick(false, out)];
    var w1 := Run(cfg, w, first);
    SuggestsA(cfg, w, a, b);
    var w2 := Run(cfg, w1, press);
    PressPrompts(cfg, w1, out);
    var w3 := Run(cfg, w2, [End(None), bad]);
    ChoiceTakesOver(cfg, w2, bad.obs);
    PressExecutes(cfg, w3, out);
    RunInTwo(cfg, w, first, press + ([End(None), bad] + press));
    RunInTwo(cfg, w1, press, [End(None), bad] + press);
    RunInTwo(cfg, w2, [End(None), bad], press);
    moves := first + (press + ([End(None), bad] + press));
  }

  lemma RunTwo(cfg: Config, w: World, a: Move, b: Move)
    ensures Run(cfg, w, [a, b]) == Next(cfg, Next(cfg, w, a), b)
  {
    assert [a, b][1..] == [b];
    RunOne(cfg, Next(cfg, w, a), b);
  }

  // The alert comes up for a, the AI asks for b, and an offline round keeps a.
  lemma SuggestsA(cfg: Config, w: World, a: Name, b: Name)
    requires Initial(w) && Collects(cfg) && Has(cfg.killAllow, a) && Has(cfg.killAllow, b) && GoodName(b, false)
    ensures var w' := Run(cfg, w, [Start(Online(0, true, Some(a), [])), End(Some(Ai(true, "kill", b, ""))),
            Start(Offline)]);
            && w'.ticking && Open(w'.s) && !w'.s.confirm && w'.s.sel.kind == ActKill && w'.s.sel.Act() == Kill(a)
            && w'.s.latch == w'.s.sel && AiChoice(cfg, w'.s.ai) == Some(Kill(b)) && w'.s.log == [Edge]
            && w'.s.buttons == w.s.buttons
  {
    var m1, m2, m3 := Start(Online(0, true, Some(a), [])), End(Some(Ai(true, "kill", b, ""))), Start(Offline);
    var w1 := Next(cfg, w, m1);
    AlertForKill(cfg, w, a);
    var w2 := Next(cfg, w1, m2);
    assert [m1, m2, m3][1..] == [m2, m3];
    RunTwo(cfg, w1, m2, m3);
  }

  lemma PressPrompts(cfg: Config, w: World, out: Outcome)
    requires w.ticking && Open(w.s) && !w.s.confirm && w.s.sel.kind == ActKill
    requires w.s.buttons.pressMs == 0 && w.s.buttons.served == w.s.buttons.counted
    ensures var w' := Run(cfg, w, [KeyLong(false, 0), Tick(false, out)]);
            && w'.ticking && Open(w'.s) && w'.s.confirm && w'.s.ai == w.s.ai && w'.s.latch == w.s.latch
            && w'.s.log == w.s.log + [Pressed] + [Prompt(w.s.sel.Act())]
            && w'.s.buttons.pressMs == 0 && w'.s.buttons.served == w'.s.buttons.counted
  {
    RunTwo(cfg, w, KeyLong(false, 0), Tick(false, out));
  }

  lemma ChoiceTakesOver(cfg: Config, w: World, obs: Observation)
    requires w.ticking && Open(w.s) && w.s.confirm && AiChoice(cfg, w.s.ai).Some?
    requires Collects(cfg) && obs.Online? && obs.critical
    ensures var w' := Run(cfg, w, [End(None), Start(obs)]);
            && w'.ticking && Open(w'.s) && w'.s.confirm && w'.s.log == w.s.log && w'.s.buttons == w.s.buttons
            && w'.s.sel.Act() == AiChoice(cfg, w.s.ai).value && w'.s.sel.kind != ActNone
  {
    RunTwo(cfg, w, End(None), Start(obs));
  }

  lemma PressExecutes(cfg: Config, w: World, out: Outcome)
    requires w.ticking && Open(w.s) && w.s.confirm && w.s.sel.kind != ActNone
    requires w.s.buttons.pressMs == 0 && w.s.buttons.served == w.s.buttons.counted
    ensures Run(cfg, w, [KeyLong(false, 0), Tick(false, out)]).s.log == w.s.log + [Pressed] + [Ran(w.s.sel.Act())]
  {
    RunTwo(cfg, w, KeyLong(false, 0), Tick(false, out));
  }
}
