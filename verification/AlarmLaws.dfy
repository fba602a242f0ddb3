// What a round selects, what a press does and when the AI is asked
// (velaops_main.c:2297-2416, 2521-2776, 2815-2825 and 181-304).

module AlarmLaws {
  import opened Common
  import opened Csv
  import opened Actions
  import opened Alarm
  import opened AlarmRuns

  // ---------------------------------------------------------------- what a round selects

  // The first entry of a list that is watched and down.
  ghost predicate IsFirstDown(es: seq<string>, svcs: string, active: seq<bool>, e: string) {
    exists i ::
      0 <= i < |es| && es[i] == e && Down(svcs, active, e) && forall j :: 0 <= j < i ==> !Down(svcs, active, es[j])
  }

  lemma {:induction false} FirstDownIs(es: seq<string>, svcs: string, active: seq<bool>)
    ensures FirstDown(es, svcs, active).Some? ==> IsFirstDown(es, svcs, active, FirstDown(es, svcs, active).value)
    decreases |es|
  {
    if es != [] && !Down(svcs, active, es[0]) {
      FirstDownIs(es[1..], svcs, active);
      var r := FirstDown(es[1..], svcs, active);
      if r.Some? {
        var i :| && 0 <= i < |es[1..]| && es[1..][i] == r.value
                 && forall j :: 0 <= j < i ==> !Down(svcs, active, es[1..][j]);
        assert es[i + 1] == r.value;
        assert forall j :: 0 < j < i + 1 ==> es[j] == es[1..][j - 1];
      }
    }
  }

  // What the server's own state suggests: a restart of the first unit for repair that is
  // down; else killing the suggested process if it is listed; else nothing.
  ghost predicate Suggests(cfg: Config, obs: Observation, a: Action) {
    match obs
    case Offline => a == NoAction
    case Online(_, _, suggested, active) =>
      if exists e :: IsFirstDown(Entries(cfg.repair), cfg.svcs, active, e) then
        exists e :: IsFirstDown(Entries(cfg.repair), cfg.svcs, active, e) && a == Unit("restart", Cut(e, TARGET_SIZE))
      else if suggested.Some? && Has(cfg.killAllow, suggested.value) then a == Kill(suggested.value)
      else a == NoAction
  }

  // What the AI's reply asks for.
  ghost predicate Wants(cfg: Config, ai: Ai, a: Action) {
    ai.valid && match a
    case NoAction => false
    case Kill(p) => ai.action == "kill" && p == ai.target && GoodName(p, false) && Has(cfg.killAllow, p)
    case Unit(verb, name) =>
      && verb == ai.action && (verb == "restart" || verb == "start" || verb == "stop")
      && name == ai.target && GoodName(name, true) && Has(cfg.repair, name)
    case Exec(command) => ai.action == "exec" && command == ai.command && GoodCommand(command)
  }

  lemma ChoiceIsWanted(cfg: Config, ai: Ai, a: Action)
    ensures AiChoice(cfg, ai) == Some(a) <==> Wants(cfg, ai, a)
  {
    if ai.valid { KindsDiffer(ai.action); }
  }

  // The words for the kinds of actions are all different.
  lemma KindsDiffer(word: string)
    ensures word == "kill" ==> word != "exec" && word != "none"
    ensures word == "kill" ==> word != "restart" && word != "start" && word != "stop"
    ensures word == "exec" ==> word != "none" && word != "restart" && word != "start" && word != "stop"
    ensures word == "none" ==> word != "restart" && word != "start" && word != "stop"
  {
  }

  lemma CandidateSuggested(cfg: Config, obs: Observation)
    ensures Suggests(cfg, obs, Candidate(cfg, obs).Act()) && !Candidate(cfg, obs).byAi
  {
    if obs.Online? {
      FirstDownIs(Entries(cfg.repair), cfg.svcs, obs.active);
      var down := FirstDown(Entries(cfg.repair), cfg.svcs, obs.active);
      if down.None? {
        forall e ensures !IsFirstDown(Entries(cfg.repair), cfg.svcs, obs.active, e) { }
      }
    }
  }

  // A round that raises the alert offers what the server's state suggests.  While an offer
  // waits, an online round replaces it by what the AI wants, and nothing else does.
  // Without an offer the selection is the AI's in an online round, or the local one.
  lemma RoundSelects(cfg: Config, s: State, obs: Observation)
    requires OfferOk(cfg, s)
    ensures var t := RoundStarted(cfg, s, obs);
            var seen := if Collects(cfg) then obs else Offline;
            var raised := t.log != s.log;
            && (raised && t.ui.alert ==> Suggests(cfg, seen, t.sel.Act()) && t.latch == t.sel)
            && (!raised && Open(t) ==>
                  && Open(s) && t.latch == t.sel
                  && (forall a :: seen.Online? && Wants(cfg, s.ai, a) ==> t.sel.Act() == a)
                  && ((forall a :: seen.Online? ==> !Wants(cfg, s.ai, a)) ==> t.sel.Act() == s.sel.Act()))
            && (!raised && !Open(t) ==>
                  && (forall a :: seen.Online? && Wants(cfg, s.ai, a) ==> t.sel.Act() == a)
                  && ((forall a :: seen.Online? ==> !Wants(cfg, s.ai, a)) ==> Suggests(cfg, seen, t.sel.Act())))
  {
    var seen := Collected(cfg, obs);
    CandidateSuggested(cfg, seen);
    var choice := AiChoice(cfg, s.ai);
    forall a ensures choice == Some(a) <==> Wants(cfg, s.ai, a) { ChoiceIsWanted(cfg, s.ai, a); }
    RoundShape(cfg, s, obs);
    if choice.Some? { assert Wants(cfg, s.ai, choice.value); }
  }

  lemma RoundShape(cfg: Config, s: State, obs: Observation)
    requires OfferOk(cfg, s)
    ensures var t := RoundStarted(cfg, s, obs);
            var seen := Collected(cfg, obs);
            var choice := if seen.Online? then AiChoice(cfg, s.ai) else None;
            && (t.log != s.log && t.ui.alert ==> t.sel.Act() == Candidate(cfg, seen).Act() && t.latch == t.sel)
            && (t.log == s.log && Open(t) ==>
                  Open(s) && t.latch == t.sel && t.sel.Act() == if choice.Some? then choice.value else s.sel.Act())
            && (t.log == s.log && !Open(t) ==>
                  t.sel.Act() == if choice.Some? then choice.value else Candidate(cfg, seen).Act())
  {
  }

  // ---------------------------------------------------------------- what a press does

  // The press a tick answers: the BOOT button down for 2 s, with what the screen shows, or
  // one the key thread has counted, with what it recorded.
  function PressOf(s: State, down: bool): Press {
    var b := s.buttons;
    if down && b.pressMs + 20 >= 2000 && !b.longFired then LongPress(s.ui.showAlert, s.ui.page)
    else if b.served != b.counted then LongPress(b.shown, b.page)
    else NoPress
  }

  predicate Offers(s: State) { s.ui.alert && s.phase.Waiting? && s.sel.kind != ActNone }

  // Whoever pressed had the action before his eyes: in the box, on the action page, or
  // with the alert, which does not show a command.
  predicate WasShown(s: State, press: Press)
    requires press.LongPress?
  {
    s.confirm || (press.shown && s.sel.kind != ActExec) || (!press.shown && press.page == ACTION_PAGE)
  }

  // A press on an offer runs it if it was shown and puts up the box if not; any other
  // press during an alert mutes it; without an alert it does nothing.
  lemma TickAnswers(cfg: Config, s: State, down: bool, out: Outcome)
    ensures var t := Ticked(cfg, s, down, out);
            var press := PressOf(s, down);
            var log := if down && BootHeld(s) then s.log + [Pressed] else s.log;
            if press.NoPress? then t.log == log && t.confirm == s.confirm && t.phase == s.phase
            else if Offers(s) && WasShown(s, press) then t.log == log + [Ran(s.sel.Act())] && !t.confirm
            else if Offers(s) then
              t.log == log + [Prompt(s.sel.Act())] && t.confirm && !t.ui.showAlert && t.phase == s.phase && t.ui.alert
            else if s.ui.alert then
              t.log == log && !t.confirm && !t.ui.showAlert && t.ui.muted && t.phase == s.phase && t.ui.alert
            else t.log == log && t.confirm == s.confirm && t.phase == s.phase && !t.ui.alert
    ensures var t := Ticked(cfg, s, down, out);
            t.buttons.counted == s.buttons.counted
            && t.buttons.served == s.buttons.served + if s.buttons.served != s.buttons.counted then 1 else 0
  {
  }

  // Letting BOOT go within a second turns the page, or hides and mutes an alert that
  // shows; letting it go later, or not pressing it, leaves the screen alone.
  lemma BootTap(s: State, press: Press)
    ensures var (t, r) := BootRead(s, press, false);
            && r == press && t.buttons.pressMs == 0 && !t.buttons.longFired
            && t == s.(buttons := t.buttons, ui := t.ui) && t.ui.alert == s.ui.alert
            && t.buttons == s.buttons.(pressMs := 0, longFired := false)
            && (if s.buttons.pressMs == 0 || s.buttons.pressMs >= 1000 then t.ui == s.ui
                else if s.ui.showAlert then !t.ui.showAlert && t.ui.muted && t.ui.page == s.ui.page
                else t.ui == s.ui.(page := if s.ui.page == 5 then 0 else (s.ui.page + 1) % 6))
  {
  }

  // BOOT down for n ticks.
  function Held(s: State, n: nat): State {
    if n == 0 then s else BootRead(Held(s, n - 1), NoPress, true).0
  }

  // However long BOOT is held, it counts once, after 100 ticks of 20 ms.
  lemma {:induction false} HeldCountsOnce(s: State, n: nat)
    requires s.buttons.pressMs == 0 && !s.buttons.longFired
    ensures var t := Held(s, n);
            && t.log == (if n >= 100 then s.log + [Pressed] else s.log)
            && t.buttons.pressMs == 20 * n && (t.buttons.longFired <==> n >= 100) && t.ui == s.ui
  {
    if n > 0 { HeldCountsOnce(s, n - 1); }
  }

  // ---------------------------------------------------------------- the keys

  // Short presses touch only the screen and the box; on the box, KEY1 and KEY2 do nothing
  // and the others take it down.
  lemma KeysLeave(s: State, key: nat)
    ensures var t := KeyTapped(s, key);
            && t.(ui := s.ui, confirm := s.confirm) == s && t.ui.alert == s.ui.alert
            && (t.confirm <==> s.confirm && key < 2)
            && (s.confirm && key < 2 ==> t == s)
            && (s.confirm && key >= 2 ==> t.ui == s.ui.(showAlert := false))
            && (!s.confirm && key < 2 ==> !t.ui.showAlert && t.ui.muted == s.ui.muted)
            && (!s.confirm && key >= 2 && s.ui.showAlert ==> !t.ui.showAlert && t.ui.muted && t.ui.page == s.ui.page)
            && (!s.confirm && key >= 2 && !s.ui.showAlert ==> t.ui == s.ui.(page := 0))
  {
  }

  // Pressing KEY3 or KEY4 down mutes an alert at once; a long press is counted once, with
  // the page and screen it was made on, and waits to be served.
  lemma KeysGoDown(s: State, shown: bool, page: nat)
    ensures var t := KeyWentDown(s);
            t.(ui := s.ui) == s && t.ui.(muted := s.ui.muted) == s.ui && (t.ui.muted <==> s.ui.alert || s.ui.muted)
    ensures var t := KeyHeld(s, shown, page);
            && t.(buttons := s.buttons, log := s.log) == s && t.log == s.log + [Pressed]
            && t.buttons.counted == s.buttons.counted + 1 && t.buttons.served == s.buttons.served
            && t.buttons.shown == shown && t.buttons.page == page
            && t.buttons.pressMs == s.buttons.pressMs && t.buttons.longFired == s.buttons.longFired
  {
  }

  // In a run the keys act at any time.
  lemma KeysActAnyTime(cfg: Config, w: World, key: nat, shown: bool, page: nat)
    ensures Next(cfg, w, KeyDown).s.ui.muted <==> w.s.ui.alert || w.s.ui.muted
    ensures Next(cfg, w, KeyShort(key)).s.confirm <==> w.s.confirm && key < 2
    ensures !w.s.confirm && key == 1 ==> Next(cfg, w, KeyShort(key)).s.ui.page == (w.s.ui.page + 1) % 6
    ensures Next(cfg, w, KeyLong(shown, page)).s.log == w.s.log + [Pressed]
  {
  }

  // KEY1 and KEY2 turn the pages in opposite directions, through all six.
  lemma KeysAreInverse(s: State)
    requires s.ui.page < PAGES && !s.confirm
    ensures KeyTapped(KeyTapped(s, 0), 1).ui.page == s.ui.page == KeyTapped(KeyTapped(s, 1), 0).ui.page
    ensures KeyTapped(s, 1).ui.page == if s.ui.page == 5 then 0 else s.ui.page + 1
  {
  }

  lemma PageStep(cfg: Config, w: World, m: Move)
    requires w.s.ui.page < PAGES
    ensures Next(cfg, w, m).s.ui.page < PAGES
  {
    match m
    case Start(obs) => RoundScreen(cfg, w.s, Collected(cfg, obs));
    case Tick(down, out) => TickScreen(cfg, w.s, down, out);
    case _ =>
  }

  lemma RoundScreen(cfg: Config, s: State, obs: Observation)
    ensures RoundSeen(cfg, s, obs).ui.page == s.ui.page || RoundSeen(cfg, s, obs).ui.page == ACTION_PAGE
  {
  }

  lemma TickScreen(cfg: Config, s: State, down: bool, out: Outcome)
    requires s.ui.page < PAGES
    ensures Ticked(cfg, s, down, out).ui.page < PAGES
  {
    var (s1, p1) := KeyTaken(s);
    var (s2, p2) := BootRead(s1, p1, down);
    assert s1.ui == s.ui && s2.ui.page < PAGES;
    AnswerScreen(cfg, s2, p2, out);
  }

  lemma AnswerScreen(cfg: Config, s: State, press: Press, out: Outcome)
    ensures Answered(cfg, s, press, out).ui.page == s.ui.page || Answered(cfg, s, press, out).ui.page == ACTION_PAGE
    ensures Answered(cfg, s, press, out).ai == s.ai
    ensures Answered(cfg, s, press, out).watch.justAlert == s.watch.justAlert
    ensures Answered(cfg, s, press, out).watch.llmTick == s.watch.llmTick
  {
  }

  lemma {:induction false} PagesExist(cfg: Config, w: World, moves: seq<Move>)
    requires w.s.ui.page < PAGES
    ensures Run(cfg, w, moves).s.ui.page < PAGES
    decreases |moves|
  {
    if moves != [] {
      PageStep(cfg, w, moves[0]);
      PagesExist(cfg, Next(cfg, w, moves[0]), moves[1..]);
    }
  }

  // ---------------------------------------------------------------- asking the AI

  // The AI is asked at the end of an online round without a box, when the alert has just
  // come up or six rounds after the last time; its reply replaces the old one, and without
  // a reply nothing is wanted any more.
  lemma RoundEndAsks(cfg: Config, s: State, reply: Option<Ai>)
    ensures var asked := s.watch.online && !s.confirm && (s.watch.justAlert || s.watch.llmTick <= 0);
            var t := RoundEnded(s, reply);
            && t.(ai := s.ai, watch := s.watch) == s && t.watch.(llmTick := s.watch.llmTick) == s.watch
            && (asked && reply.Some? ==> t.ai == reply.value)
            && (asked && reply.None? ==> forall a :: !Wants(cfg, t.ai, a))
            && (!asked ==> t.ai == s.ai)
            && t.watch.llmTick == (if asked then 5 else if s.watch.llmTick > 0 then s.watch.llmTick - 1
                                   else s.watch.llmTick)
  {
  }

  predicate EndsRound(w: World, m: Move) { m.End? && w.ticking }

  ghost function RoundsEnded(cfg: Config, w: World, moves: seq<Move>): nat
    decreases |moves|
  {
    if moves == [] then 0
    else (if EndsRound(w, moves[0]) then 1 else 0) + RoundsEnded(cfg, Next(cfg, w, moves[0]), moves[1..])
  }

  ghost predicate NoEdge(cfg: Config, w: World, moves: seq<Move>)
    decreases |moves|
  {
    moves != [] ==>
      && (moves[0].Start? ==> Next(cfg, w, moves[0]).s.log == w.s.log)
      && NoEdge(cfg, Next(cfg, w, moves[0]), moves[1..])
  }

  lemma QuietStep(cfg: Config, w: World, m: Move)
    requires !w.s.watch.justAlert && (m.Start? ==> Next(cfg, w, m).s.log == w.s.log)
    requires EndsRound(w, m) ==> w.s.watch.llmTick > 0
    ensures var t := Next(cfg, w, m).s;
            && !t.watch.justAlert && t.ai == w.s.ai
            && t.watch.llmTick == w.s.watch.llmTick - if EndsRound(w, m) then 1 else 0
  {
    match m
    case Start(obs) => if !w.ticking { RoundQuiet(cfg, w.s, Collected(cfg, obs)); }
    case Tick(down, out) =>
      if w.ticking {
        var (s1, p1) := KeyTaken(w.s);
        var (s2, p2) := BootRead(s1, p1, down);
        AnswerScreen(cfg, s2, p2, out);
      }
    case _ =>
  }

  lemma RoundQuiet(cfg: Config, s: State, obs: Observation)
    requires RoundSeen(cfg, s, obs).log == s.log
    ensures var t := RoundSeen(cfg, s, obs); !t.watch.justAlert && t.ai == s.ai && t.watch.llmTick == s.watch.llmTick
  {
  }

  // So between two questions, as long as no alert comes up, there are five rounds at
  // whose end the AI is left alone.
  lemma {:induction false} AskedRarely(cfg: Config, w: World, moves: seq<Move>)
    requires !w.s.watch.justAlert && NoEdge(cfg, w, moves) && RoundsEnded(cfg, w, moves) <= w.s.watch.llmTick
    ensures Run(cfg, w, moves).s.ai == w.s.ai
    ensures Run(cfg, w, moves).s.watch.llmTick == w.s.watch.llmTick - RoundsEnded(cfg, w, moves)
    decreases |moves|
  {
    if moves != [] {
      QuietStep(cfg, w, moves[0]);
      AskedRarely(cfg, Next(cfg, w, moves[0]), moves[1..]);
    }
  }
}
