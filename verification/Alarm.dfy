// The alarm loop of the run command (velaops_main.c:2216-2825): health rounds, the
// alert edge, the latched suggestion, the confirm box, long presses and execution,
// with the key thread (velaops_main.c:181-304) acting between any two steps.

module Alarm {
  import opened Common
  import opened Csv
  import opened Actions

  const PAGES := 6           // VELAOPS_UI_PAGES
  const ACTION_PAGE := 5

  type Name = s: string | |s| < NAME_LEN witness ""

  datatype Kind = ActNone | ActUnit | ActKill | ActExec
  datatype Phase = Idle | Waiting | Done | Failed   // state.action_state

  // action_kind, target, g_act_verb, g_act_command; the same again for the latch.
  datatype Selection = Selection(kind: Kind, target: string, verb: string, command: string, byAi: bool) {
    function Act(): Action {
      match kind
      case ActNone => NoAction
      case ActUnit => Unit(verb, target)
      case ActKill => Kill(target)
      case ActExec => Exec(command)
    }
  }

  // The last AI reply as it stands in g_ai_*.
  datatype Ai = Ai(valid: bool, action: string, target: string, command: string)

  // What a round collects, health score included.
  datatype Observation =
    | Offline
    | Online(total: int, critical: bool, suggested: Option<Name>, active: Flags)
  {
    function Critical(): bool { Offline? || critical }
    function Total(): int { if Offline? then 0 else total }
  }

  // What running an action gives: the exit code and the snapshot collected after it.
  datatype After = After(top: Name, hot: bool, active: Flags)
  datatype Outcome = Outcome(rc: int, after: Option<After>)

  datatype Press = NoPress | LongPress(shown: bool, page: nat)

  datatype Event =
    | Edge                    // alert went from 0 to 1
    | Pressed                 // a long press was counted
    | Prompt(action: Action)  // the confirm box went up for this action
    | Ran(action: Action)     // this action was handed to the SSH layer

  // page, show_alert, alert and muted, shared with the key thread.
  datatype Screen = Screen(page: nat, showAlert: bool, alert: bool, muted: bool)

  // What the loop remembers from round to round.
  datatype Watch = Watch(justAlert: bool, alertStreak: nat, failStreak: nat, online: bool, llmTick: int)

  // The BOOT button, and the long presses counted, served and last recorded.
  datatype Buttons = Buttons(pressMs: nat, longFired: bool, served: nat, counted: nat, shown: bool, page: nat)

  datatype State = State(
    ui: Screen, watch: Watch, buttons: Buttons, phase: Phase, sel: Selection,
    confirm: bool, latch: Selection, ai: Ai, log: seq<Event>)

  // ---------------------------------------------------------------- a round

  // What velaops_ssh_collect gives: lists with other characters it refuses to send.
  function Collected(cfg: Config, obs: Observation): Observation {
    if Collects(cfg) then obs else Offline
  }

  function Refused(cfg: Config, out: Outcome): Outcome {
    if Collects(cfg) then out else out.(after := None)
  }

  // What the server's own state suggests.
  function Candidate(cfg: Config, obs: Observation): Selection {
    var none := Selection(ActNone, "", "restart", "", false);
    if obs.Offline? then none
    else
      var down := FirstDown(Entries(cfg.repair), cfg.svcs, obs.active);
      if down.Some? then none.(kind := ActUnit, target := Cut(down.value, TARGET_SIZE))
      else if obs.suggested.Some? && Has(cfg.killAllow, obs.suggested.value) then
        none.(kind := ActKill, target := Cut(obs.suggested.value, TARGET_SIZE))
      else none
  }

  function Evaluated(cfg: Config, s: State, obs: Observation): State {
    var fails := if obs.Online? then 0 else s.watch.failStreak + 1;
    var crit := if obs.Online? then obs.critical || obs.total < cfg.alertScore else fails >= 3;
    s.(watch := s.watch.(failStreak := fails, online := obs.Online?, justAlert := false,
                         alertStreak := if crit then s.watch.alertStreak + 1 else 0),
       sel := Candidate(cfg, obs))
  }

  predicate EdgeDue(s: State, obs: Observation) {
    !s.ui.alert && ((s.watch.alertStreak > 0 && obs.Critical()) || s.watch.alertStreak >= 2)
  }

  function Raised(s: State): State {
    s.(ui := s.ui.(alert := true, showAlert := true, muted := false), watch := s.watch.(justAlert := true),
       confirm := false, ai := s.ai.(valid := false), latch := s.sel, log := s.log + [Edge])
  }

  predicate RecoveryDue(cfg: Config, s: State, obs: Observation) {
    s.ui.alert && obs.Total() >= cfg.recoverScore && !obs.Critical()
  }

  function Disarmed(s: State): State {
    s.(ui := s.ui.(alert := false, showAlert := false, muted := false), confirm := false,
       latch := s.latch.(kind := ActNone, byAi := false))
  }

  // What the AI reply asks for, if it is allowed.
  ghost function AiChoice(cfg: Config, ai: Ai): (r: Option<Action>)
    ensures r.Some? ==> Allowed(cfg, r.value) && r.value != NoAction
  {
    if !ai.valid || ai.action == "none" then None
    else if ai.action == "kill" then
      if GoodName(ai.target, false) && Has(cfg.killAllow, ai.target) then Some(Kill(ai.target)) else None
    else if ai.action == "restart" || ai.action == "start" || ai.action == "stop" then
      if GoodName(ai.target, true) && Has(cfg.repair, ai.target) then Some(Unit(ai.action, ai.target)) else None
    else if ai.action == "exec" then
      if GoodCommand(ai.command) then Some(Exec(ai.command)) else None
    else None
  }

  function Overridden(sel: Selection, a: Action): (r: Selection)
    ensures a != NoAction ==> r.Act() == a && r.byAi
  {
    match a
    case NoAction => sel
    case Unit(verb, name) => sel.(kind := ActUnit, target := name, verb := verb, byAi := true)
    case Kill(process) => sel.(kind := ActKill, target := process, byAi := true)
    case Exec(command) => sel.(kind := ActExec, command := command, byAi := true)
  }

  ghost function Chosen(cfg: Config, s: State): State {
    var choice := AiChoice(cfg, s.ai);
    if choice.Some? then s.(sel := Overridden(s.sel, choice.value)) else s
  }

  // A waiting alert shows the AI's choice or else what it showed before.
  function Latched(s: State): State {
    if !(s.ui.alert && s.phase.Waiting?) then s
    else if s.sel.byAi then s.(latch := s.sel)
    else s.(sel := s.latch)
  }

  function Offered(s: State): State {
    if !s.watch.justAlert then s
    else s.(ui := s.ui.(page := ACTION_PAGE), phase := if s.ui.alert then Waiting else s.phase)
  }

  ghost function RoundStarted(cfg: Config, s: State, obs: Observation): State {
    RoundSeen(cfg, s, Collected(cfg, obs))
  }

  ghost function RoundSeen(cfg: Config, s: State, obs: Observation): State {
    var s1 := Evaluated(cfg, s, obs);
    var s2 := if EdgeDue(s1, obs) then Raised(s1) else s1;
    var s3 := if RecoveryDue(cfg, s2, obs) then Disarmed(s2).(phase := Idle) else s2;
    var s4 := if obs.Online? then Chosen(cfg, s3) else s3;
    Offered(Latched(s4))
  }

  // The end of a round: a new AI reply, unless a box is up.  No reply leaves the
  // old text without being valid.
  function RoundEnded(s: State, reply: Option<Ai>): State {
    var s1 := if (s.watch.justAlert || s.watch.llmTick <= 0) && s.watch.online && !s.confirm
              then s.(watch := s.watch.(llmTick := 6),
                      ai := if reply.Some? then reply.value else s.ai.(valid := false))
              else s;
    if s1.watch.llmTick > 0 then s1.(watch := s1.watch.(llmTick := s1.watch.llmTick - 1)) else s1
  }

  // ---------------------------------------------------------------- a tick

  // A long press of key 3 or 4 that the key thread has counted.
  function KeyTaken(s: State): (State, Press) {
    var b := s.buttons;
    if b.served != b.counted then (s.(buttons := b.(served := b.served + 1)), LongPress(b.shown, b.page))
    else (s, NoPress)
  }

  // The BOOT button, down or up.
  function BootHeld(s: State): bool { s.buttons.pressMs + 20 >= 2000 && !s.buttons.longFired }

  function BootRead(s: State, press: Press, down: bool): (State, Press) {
    var b := s.buttons;
    if down then
      if BootHeld(s)
      then (s.(buttons := b.(pressMs := b.pressMs + 20, longFired := true), log := s.log + [Pressed]),
            LongPress(s.ui.showAlert, s.ui.page))
      else (s.(buttons := b.(pressMs := b.pressMs + 20)), press)
    else
      (s.(buttons := b.(pressMs := 0, longFired := false), ui := if 0 < b.pressMs < 1000 then BootTapped(s.ui)
        else s.ui),
       press)
  }

  function BootTapped(ui: Screen): Screen {
    if ui.showAlert then ui.(showAlert := false, muted := true) else ui.(page := (ui.page + 1) % PAGES)
  }

  // Whether the snapshot taken after an action shows that it helped.
  function Fixed(cfg: Config, sel: Selection, rc: int, after: After): bool {
    match sel.kind
    case ActExec => rc == 0
    case ActKill => after.top != sel.target || !after.hot
    case _ =>
      var es := Entries(cfg.svcs);
      if sel.target in es && IndexOf(es, sel.target) < |after.active|
      then after.active[IndexOf(es, sel.target)] == (sel.verb != "stop")
      else rc == 0
  }

  predicate Helped(cfg: Config, sel: Selection, out: Outcome) {
    out.after.Some? && out.rc == 0 && Fixed(cfg, sel, out.rc, out.after.value)
  }

  function Executed(cfg: Config, s: State, out: Outcome): State {
    Concluded(cfg, s, Refused(cfg, out))
  }

  function Concluded(cfg: Config, s: State, out: Outcome): State {
    var s1 := s.(confirm := false, ui := s.ui.(page := ACTION_PAGE), watch := s.watch.(online := out.after.Some?),
                 log := s.log + [Ran(s.sel.Act())]);
    if !Helped(cfg, s.sel, out) then s1.(phase := Failed)
    else if s.sel.kind.ActExec? then s1.(phase := Done)
    else Disarmed(s1).(phase := Done, watch := s1.watch.(alertStreak := 0))
  }

  predicate BoxNeeded(s: State, press: Press) {
    press.LongPress? && !s.confirm
    && ((!press.shown && press.page != ACTION_PAGE) || (s.sel.kind.ActExec? && press.shown))
  }

  predicate Approvable(s: State) { s.ui.alert && s.sel.kind != ActNone && s.phase.Waiting? }

  function Prompted(s: State): State {
    s.(confirm := true, ui := s.ui.(showAlert := false), log := s.log + [Prompt(s.sel.Act())])
  }

  function Answered(cfg: Config, s: State, press: Press, out: Outcome): State {
    if press.NoPress? then s
    else if Approvable(s) then
      if BoxNeeded(s, press) then Prompted(s) else Executed(cfg, s, out)
    else if s.ui.alert then s.(confirm := false, ui := s.ui.(showAlert := false, muted := true))
    else s
  }

  function Ticked(cfg: Config, s: State, down: bool, out: Outcome): State {
    var (s1, p1) := KeyTaken(s);
    var (s2, p2) := BootRead(s1, p1, down);
    Answered(cfg, s2, p2, out)
  }

  // ---------------------------------------------------------------- the key thread

  function KeyWentDown(s: State): State {
    if s.ui.alert then s.(ui := s.ui.(muted := true)) else s
  }

  // A short press of key 0 to 3 (KEY1 to KEY4).
  function KeyTapped(s: State, key: nat): State {
    if s.confirm && key < 2 then s
    else if s.confirm then s.(confirm := false, ui := s.ui.(showAlert := false))
    else s.(ui := ScreenTapped(s.ui, key))
  }

  function ScreenTapped(ui: Screen, key: nat): Screen {
    if key == 0 then ui.(page := (ui.page + PAGES - 1) % PAGES, showAlert := false)
    else if key == 1 then ui.(page := (ui.page + 1) % PAGES, showAlert := false)
    else if ui.showAlert then ui.(showAlert := false, muted := true)
    else ui.(page := 0)
  }

  function KeyHeld(s: State, shown: bool, page: nat): State {
    s.(buttons := s.buttons.(counted := s.buttons.counted + 1, shown := shown, page := page), log := s.log + [Pressed])
  }

  // ---------------------------------------------------------------- the code

  class AlarmLoop {
    const cfg: Config
    var ui: Screen
    var watch: Watch
    var buttons: Buttons
    var phase: Phase
    var sel: Selection
    var confirm: bool
    var latch: Selection
    var ai: Ai
    ghost var log: seq<Event>

    ghost function Now(): State
      reads this
    {
      State(ui, watch, buttons, phase, sel, confirm, latch, ai, log)
    }

    // The start of the run command.  What earlier commands left in g_ai_*, the latch
    // texts and the recorded long press stays.
    constructor (cfg: Config, ai: Ai, latch: Selection, shown: bool, page: nat)
      ensures this.cfg == cfg && IsInitial(Now())
    {
      this.cfg := cfg;
      ui := Screen(0, false, false, false);
      watch := Watch(false, 0, 0, false, 0);
      buttons := Buttons(0, false, 0, 0, shown, page);
      phase := Waiting;
      sel := Selection(ActNone, "", "restart", "", false);
      confirm := false;
      this.latch := latch.(kind := ActNone, byAi := false);
      this.ai := ai;
      log := [];
    }

    method Evaluate(obs: Observation)
      modifies this
      ensures Now() == Evaluated(cfg, old(Now()), obs)
    {
      watch := watch.(online := obs.Online?, justAlert := false);
      watch := watch.(failStreak := if watch.online then 0 else watch.failStreak + 1);
      var crit := if obs.Online? then obs.critical || obs.total < cfg.alertScore else watch.failStreak >= 3;
      watch := watch.(alertStreak := if crit then watch.alertStreak + 1 else 0);
      sel := Suggest(obs);
    }

    // The local choice of a round.
    method Suggest(obs: Observation) returns (r: Selection)
      ensures r == Candidate(cfg, obs)
    {
      r := Selection(ActNone, "", "restart", "", false);
      if obs.Online? {
        var unit := PickRepairTarget(cfg.svcs, cfg.repair, obs.active);
        if unit.Some? {
          r := r.(target := unit.value, kind := ActUnit);
        } else if obs.suggested.Some? {
          var listed := CsvHas(cfg.killAllow, obs.suggested.value);
          if listed {
            r := r.(target := Cut(obs.suggested.value, TARGET_SIZE), kind := ActKill);
          }
        }
      }
    }

    method RaiseAlert(obs: Observation)
      modifies this
      ensures Now() == if EdgeDue(old(Now()), obs) then Raised(old(Now())) else old(Now())
    {
      if !ui.alert && ((watch.alertStreak > 0 && obs.Critical()) || watch.alertStreak >= 2) {
        ui := ui.(alert := true, showAlert := true, muted := false);
        watch := watch.(justAlert := true);
        confirm := false;
        ai := ai.(valid := false);
        latch := sel;
        log := log + [Edge];
      }
    }

    method Disarm()
      modifies this
      ensures Now() == Disarmed(old(Now()))
    {
      ui := ui.(alert := false, showAlert := false, muted := false);
      confirm := false;
      latch := latch.(kind := ActNone, byAi := false);
    }

    method Recover(obs: Observation)
      modifies this
      ensures Now() == if RecoveryDue(cfg, old(Now()), obs) then Disarmed(old(Now())).(phase := Idle) else old(Now())
    {
      if ui.alert && obs.Total() >= cfg.recoverScore && !obs.Critical() {
        Disarm();
        phase := Idle;
      }
    }

    // The branches of the AI selection.
    method TakeAiChoice()
      modifies this
      ensures Now() == Chosen(cfg, old(Now()))
    {
      if ai.valid && ai.action != "none" {
        if ai.action == "kill" {
          var ok := NameCharsOk(ai.target, false);
          var listed := CsvHas(cfg.killAllow, ai.target);
          if ok && listed {
            sel := sel.(kind := ActKill, target := Cut(ai.target, TARGET_SIZE), byAi := true);
          }
        } else if ai.action == "restart" || ai.action == "start" || ai.action == "stop" {
          var ok := NameCharsOk(ai.target, true);
          var listed := CsvHas(cfg.repair, ai.target);
          if ok && listed {
            sel := sel.(kind := ActUnit, target := Cut(ai.target, TARGET_SIZE), verb := Cut(ai.action, 10),
              byAi := true);
          }
        } else if ai.action == "exec" {
          var ok := CommandOk(ai.command);
          if ok {
            sel := sel.(kind := ActExec, command := Cut(ai.command, CMD_LEN + 56), byAi := true);
          }
        }
      }
    }

    method LatchAndOffer()
      modifies this
      ensures Now() == Offered(Latched(old(Now())))
    {
      if ui.alert && phase == Waiting {
        if sel.byAi {
          latch := sel;
        } else {
          sel := latch;
        }
      }
      if watch.justAlert {
        ui := ui.(page := ACTION_PAGE);
      }
      if ui.alert && (watch.justAlert || phase == Waiting) {
        phase := Waiting;
      }
    }

    // The check at the head of velaops_ssh_collect.
    method CollectRefused() returns (refused: bool)
      ensures refused <==> !Collects(cfg)
      ensures refused <==> !IsSafe(cfg.svcs) || !IsSafe(cfg.ports)
    {
      var services := CsvSafe(cfg.svcs);
      var ports := CsvSafe(cfg.ports);
      return !services || !ports;
    }

    // A round up to its ticks; obs is what the server would show.
    method RoundStart(obs: Observation)
      modifies this
      ensures Now() == RoundStarted(cfg, old(Now()), obs)
    {
      var refused := CollectRefused();
      var seen := if refused then Offline else obs;
      Evaluate(seen);
      RaiseAlert(seen);
      Recover(seen);
      if seen.Online? {
        TakeAiChoice();
      }
      LatchAndOffer();
    }

    method RoundEnd(reply: Option<Ai>)
      modifies this
      ensures Now() == RoundEnded(old(Now()), reply)
    {
      if (watch.justAlert || watch.llmTick <= 0) && watch.online && !confirm {
        watch := watch.(llmTick := 6);
        ai := ai.(valid := false);
        if reply.Some? {
          ai := reply.value;
        }
      }
      if watch.llmTick > 0 {
        watch := watch.(llmTick := watch.llmTick - 1);
      }
    }

    method TakeKey() returns (press: Press)
      modifies this
      ensures (Now(), press) == KeyTaken(old(Now()))
    {
      press := NoPress;
      if buttons.served != buttons.counted {
        press := LongPress(buttons.shown, buttons.page);
        buttons := buttons.(served := buttons.served + 1);
      }
    }

    method ReadBoot(press: Press, down: bool) returns (r: Press)
      modifies this
      ensures (Now(), r) == BootRead(old(Now()), press, down)
    {
      r := press;
      if down {
        buttons := buttons.(pressMs := buttons.pressMs + 20);
        if buttons.pressMs >= 2000 && !buttons.longFired {
          buttons := buttons.(longFired := true);
          r := LongPress(ui.showAlert, ui.page);
          log := log + [Pressed];
        }
      } else {
        if buttons.pressMs > 0 && buttons.pressMs < 1000 {
          if ui.showAlert {
            ui := ui.(showAlert := false, muted := true);
          } else {
            ui := ui.(page := (ui.page + 1) % PAGES);
          }
        }
        buttons := buttons.(pressMs := 0, longFired := false);
      }
    }

    // Whether the action helped, from the snapshot collected after it.
    method Verify(out: Outcome) returns (helped: bool)
      ensures helped == Helped(cfg, sel, out)
    {
      if out.after.None? {
        return false;
      }
      var after := out.after.value;
      var fixed := out.rc == 0;
      if sel.kind == ActKill {
        fixed := after.top != sel.target || !after.hot;
      } else if sel.kind != ActExec {
        var idx := CsvFindIndex(cfg.svcs, sel.target);
        if 0 <= idx < |after.active| {
          fixed := if sel.verb == "stop" then !after.active[idx] else after.active[idx];
        }
      }
      return out.rc == 0 && fixed;
    }

    method Execute(out: Outcome)
      modifies this
      ensures Now() == Executed(cfg, old(Now()), out)
    {
      confirm := false;
      log := log + [Ran(sel.Act())];
      var refused := CollectRefused();
      var ended := if refused then out.(after := None) else out;
      watch := watch.(online := ended.after.Some?);
      var helped := Verify(ended);
      if helped {
        phase := Done;
        if sel.kind != ActExec {
          Disarm();
          watch := watch.(alertStreak := 0);
        }
      } else {
        phase := Failed;
      }
      ui := ui.(page := ACTION_PAGE);
    }

    // What a tick does with a long press.
    method Answer(press: Press, out: Outcome)
      modifies this
      ensures Now() == Answered(cfg, old(Now()), press, out)
    {
      if press.LongPress? && ui.alert && sel.kind != ActNone && phase == Waiting {
        if !confirm && ((!press.shown && press.page != ACTION_PAGE) || (sel.kind == ActExec && press.shown)) {
          confirm := true;
          ui := ui.(showAlert := false);
          log := log + [Prompt(sel.Act())];
        } else {
          Execute(out);
        }
      } else if press.LongPress? && ui.alert {
        confirm := false;
        ui := ui.(showAlert := false, muted := true);
      }
    }

    // One 20 ms tick.
    method Tick(down: bool, out: Outcome)
      modifies this
      ensures Now() == Ticked(cfg, old(Now()), down, out)
    {
      var press := TakeKey();
      press := ReadBoot(press, down);
      Answer(press, out);
    }

    // key_thread, one event at a time; key 0 to 3 is KEY1 to KEY4.
    method KeyDown(key: nat)
      modifies this
      ensures Now() == if key >= 2 then KeyWentDown(old(Now())) else old(Now())
    {
      if key >= 2 && ui.alert {
        ui := ui.(muted := true);
      }
    }

    method KeyShort(key: nat)
      modifies this
      ensures Now() == KeyTapped(old(Now()), key)
    {
      if confirm {
        if key >= 2 {
          confirm := false;
          ui := ui.(showAlert := false);
        }
      } else if key == 0 {
        ui := ui.(page := (ui.page + PAGES - 1) % PAGES, showAlert := false);
      } else if key == 1 {
        ui := ui.(page := (ui.page + 1) % PAGES, showAlert := false);
      } else if ui.showAlert {
        ui := ui.(showAlert := false, muted := true);
      } else {
        ui := ui.(page := 0);
      }
    }

    method KeyLong()
      modifies this
      ensures Now() == KeyHeld(old(Now()), old(ui.showAlert), old(ui.page))
    {
      buttons := buttons.(page := ui.page, shown := ui.showAlert);
      buttons := buttons.(counted := buttons.counted + 1);
      log := log + [Pressed];
    }
  }

  ghost predicate IsInitial(s: State) {
    && s.ui == Screen(0, false, false, false) && s.watch == Watch(false, 0, 0, false, 0)
    && s.buttons == Buttons(0, false, 0, 0, s.buttons.shown, s.buttons.page)
    && s.phase == Waiting && s.sel.kind == ActNone && !s.confirm && s.latch.kind == ActNone && s.log == []
  }
}
