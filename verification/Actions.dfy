// What the alarm loop may execute, and how a candidate is checked
// (velaops_main.c:729-778, 1051-1116; velaops_ssh.c:961-1014).

module Actions {
  import opened Common
  import opened Patterns
  import opened Splitting
  import opened Csv

  const NAME_LEN := 20       // VELAOPS_NAME_LEN
  const CMD_LEN := 200       // VELAOPS_CMD_LEN
  const TARGET_SIZE := 48    // target, g_latch_target

  const MAX_WATCH := 8       // watch_active

  type Flags = s: seq<bool> | |s| <= MAX_WATCH

  datatype Action =
    | NoAction
    | Unit(verb: string, name: string)
    | Kill(process: string)
    | Exec(command: string)

  // What an operator has configured.
  datatype Config = Config(
    svcs: string, ports: string, repair: string, killAllow: string, alertScore: int, recoverScore: int)

  // Otherwise no round finds the server online.
  predicate Collects(cfg: Config) { IsSafe(cfg.svcs) && IsSafe(cfg.ports) }

  // ---------------------------------------------------------------- checks on an AI reply

  predicate NameChar(c: char, allowAt: bool) {
    'a' <= c <= 'z' || 'A' <= c <= 'Z' || '0' <= c <= '9' || c == '.' || c == '_' || c == '-' || (allowAt && c == '@')
  }

  ghost predicate GoodName(name: string, allowAt: bool) {
    name != "" && |name| < TARGET_SIZE && forall c :: c in name ==> NameChar(c, allowAt)
  }

  const NAME_MARKS := [Span('.', '.'), Span('_', '_'), Span('-', '-')]

  // The same as a pattern: 1 to 47 letters, digits and marks.
  function NamePattern(allowAt: bool): seq<Item> {
    [Item((if allowAt then [Span('@', '@')] else []) + (ALNUM + NAME_MARKS), 1, Some(47))]
  }

  lemma NameSpans(c: char, allowAt: bool)
    ensures InSpans(c, NamePattern(allowAt)[0].spans) <==> NameChar(c, allowAt)
  {
    AlnumAnd(c, NAME_MARKS);
    ThreeSpans(c, NAME_MARKS);
    if allowAt {
      InFirst(c, Span('@', '@'), ALNUM + NAME_MARKS);
    } else {
      assert [] + (ALNUM + NAME_MARKS) == ALNUM + NAME_MARKS;
    }
  }

  lemma GoodNameIs(name: string, allowAt: bool)
    ensures GoodName(name, allowAt) <==> FullMatch(NamePattern(allowAt), name)
  {
    MatchesOne(NamePattern(allowAt)[0], name);
    forall c { NameSpans(c, allowAt); }
    assert name[..|name|] == name;
  }

  // name_chars_ok
  method NameCharsOk(name: string, allowAt: bool) returns (ok: bool)
    ensures ok <==> GoodName(name, allowAt)
  {
    if name == "" || |name| >= TARGET_SIZE {
      return false;
    }
    var p := 0;
    while p < |name|
      invariant 0 <= p <= |name|
      invariant forall c :: c in name[..p] ==> NameChar(c, allowAt)
    {
      if !NameChar(name[p], allowAt) {
        return false;
      }
      p := p + 1;
    }
    return true;
  }

  const BAD: seq<string> := [
    "rm -rf /", "rm -fr /", "mkfs", ":(){", "of=/dev/",
    "systemctl reboot", "systemctl poweroff", "systemctl halt",
    " shutdown", " poweroff", " reboot", " halt"]

  function Lowered(s: string): (t: string)
    ensures |t| == |s| && forall i :: 0 <= i < |s| ==> t[i] == Lower(s[i])
  {
    seq(|s|, i requires 0 <= i < |s| => Lower(s[i]))
  }

  predicate OccursAt(text: string, pattern: string, i: nat) {
    i + |pattern| <= |text| && text[i..i + |pattern|] == pattern
  }

  // The first place a pattern occurs, which is all strstr reports.
  ghost predicate FirstAt(text: string, pattern: string, i: nat) {
    OccursAt(text, pattern, i) && forall j: nat :: j < i ==> !OccursAt(text, pattern, j)
  }

  // How the check recognises a removal of the root directory: by what follows the slash.
  predicate Recognised(text: string, i: nat) {
    i + 8 >= |text| || text[i + 8] == ' ' || text[i + 8] == '*'
  }

  // One pattern condemns a command, whatever the case of its letters.
  ghost predicate Condemns(k: nat, command: string)
    requires k < |BAD|
  {
    exists i: nat :: FirstAt(Lowered(command), BAD[k], i) && (k < 2 ==> Recognised(Lowered(command), i))
  }

  predicate Printable(c: char) { ' ' <= c <= '~' }

  ghost predicate GoodCommand(command: string) {
    && 0 < |command| < CMD_LEN
    && (forall c :: c in command ==> Printable(c))
    && (forall k: nat :: k < |BAD| ==> !Condemns(k, command))
  }

  // strstr
  method Strstr(text: string, pattern: string) returns (hit: Option<nat>)
    ensures hit.Some? ==> FirstAt(text, pattern, hit.value)
    ensures hit.None? ==> forall j: nat :: !OccursAt(text, pattern, j)
  {
    var i := 0;
    while i + |pattern| <= |text|
      invariant forall j: nat :: j < i ==> !OccursAt(text, pattern, j)
      decreases |text| - i
    {
      if text[i..i + |pattern|] == pattern {
        return Some(i);
      }
      i := i + 1;
    }
    return None;
  }

  // velaops_ssh_command_blocked for a command of a length that fits.
  method CommandBlocked(command: string) returns (blocked: bool)
    requires 0 < |command| < CMD_LEN
    ensures blocked <==> exists k: nat :: k < |BAD| && Condemns(k, command)
  {
    var low := Lowered(command);
    var k := 0;
    while k < |BAD|
      invariant 0 <= k <= |BAD|
      invariant forall j: nat :: j < k ==> !Condemns(j, command)
    {
      var hit := Strstr(low, BAD[k]);
      if hit.Some? && (k >= 2 || Recognised(low, hit.value)) {
        assert Condemns(k, command);
        return true;
      }
      OnlyFirst(low, BAD[k], hit);
      k := k + 1;
    }
    return false;
  }

  lemma OnlyFirst(text: string, pattern: string, hit: Option<nat>)
    requires hit.Some? ==> FirstAt(text, pattern, hit.value)
    requires hit.None? ==> forall j: nat :: !OccursAt(text, pattern, j)
    ensures forall i: nat :: FirstAt(text, pattern, i) ==> hit == Some(i)
  {
  }

  // command_ok
  method CommandOk(command: string) returns (ok: bool)
    ensures ok <==> GoodCommand(command)
  {
    if command == "" || |command| >= CMD_LEN {
      return false;
    }
    var i := 0;
    while i < |command|
      invariant 0 <= i <= |command|
      invariant forall c :: c in command[..i] ==> Printable(c)
    {
      if !Printable(command[i]) {
        return false;
      }
      i := i + 1;
    }
    var blocked := CommandBlocked(command);
    return !blocked;
  }

  // The form of a command, its patterns aside.
  ghost predicate WellFormed(command: string) {
    0 < |command| < CMD_LEN && forall c :: c in command ==> Printable(c)
  }

  // ---------------------------------------------------------------- what an accepted command may hold

  // What ends a word for the shell that gets the command: a blank or an operator, or a
  // quote that ends a command handed on to another shell.
  predicate EndsWord(c: char) { c in " ;&|<>()\"'`" }

  function BehindSlashes(text: string, j: nat): (e: nat)
    ensures j <= e
    decreases |text| - j
  {
    if j < |text| && text[j] == '/' then BehindSlashes(text, j + 1) else j
  }

  // A removal at i, taken as the shell does, is of the root directory: nothing but more
  // slashes comes before the end of the word, or a star.
  predicate RemovesRoot(text: string, i: nat) {
    var j := BehindSlashes(text, i + 8);
    j >= |text| || EndsWord(text[j]) || text[j] == '*'
  }

  // The same as a pattern: 1 to 199 printable characters.
  lemma WellFormedIs(command: string)
    ensures WellFormed(command) <==> FullMatch([Item([Span(' ', '~')], 1, Some(199))], command)
  {
    MatchesOne(Item([Span(' ', '~')], 1, Some(199)), command);
    forall c { InFirst(c, Span(' ', '~'), []); }
    assert command[..|command|] == command && [Span(' ', '~')] == [Span(' ', '~')] + [];
  }

  // No pattern occurs anywhere but harmless removals.
  ghost predicate Clean(command: string) {
    forall k: nat, i: nat :: k < |BAD| && Uses(command, k, i) ==> k < 2 && !RemovesRoot(Lowered(command), i)
  }

  // Pattern k occurs at i, whatever the case of the letters.
  ghost predicate Uses(command: string, k: nat, i: nat)
    requires k < |BAD|
  {
    OccursAt(Lowered(command), BAD[k], i)
  }

  // A recognised removal stands behind a first use of its pattern that is not.
  ghost predicate Masked(command: string) {
    exists k: nat, f: nat, i: nat :: k < 2 && f < i && Hides(Lowered(command), BAD[k], f, i)
  }

  ghost predicate Hides(text: string, pattern: string, f: nat, i: nat) {
    FirstAt(text, pattern, f) && !Recognised(text, f) && OccursAt(text, pattern, i) && Recognised(text, i)
  }

  // A removal of the root directory is not recognised: behind the slash comes another, or
  // the word ends but not with the command, a blank or a star.
  ghost predicate Overlooked(command: string) {
    exists k: nat, i: nat :: k < 2 && Uses(command, k, i) && Unseen(Lowered(command), i)
  }

  predicate Unseen(text: string, i: nat) { RemovesRoot(text, i) && !Recognised(text, i) }

  lemma UnseenMeans(text: string, i: nat)
    ensures Recognised(text, i) ==> RemovesRoot(text, i)
    ensures Unseen(text, i) ==> i + 8 < |text| && (text[i + 8] == '/' || (EndsWord(text[i + 8]) && text[i + 8] != ' '))
  {
  }

  // What an accepted command may still hold of a pattern, at any place: only the two
  // removals, and a recognised one only behind a first use that is not.
  lemma AcceptedHolds(command: string, k: nat, i: nat)
    requires GoodCommand(command) && k < |BAD| && Uses(command, k, i)
    ensures k < 2
    ensures Recognised(Lowered(command), i) ==> exists f: nat :: f < i && Hides(Lowered(command), BAD[k], f, i)
  {
    var f := FirstExists(Lowered(command), BAD[k], i);
    if k >= 2 || Recognised(Lowered(command), f) {
      assert Condemns(k, command);
      assert false;
    }
    if Recognised(Lowered(command), i) {
      assert Hides(Lowered(command), BAD[k], f, i);
    }
  }

  lemma RemovalShows(command: string, k: nat, i: nat)
    requires GoodCommand(command) && k < |BAD| && Uses(command, k, i) && RemovesRoot(Lowered(command), i)
    ensures Masked(command) || Overlooked(command)
  {
    AcceptedHolds(command, k, i);
    if !Recognised(Lowered(command), i) { assert Unseen(Lowered(command), i); }
  }

  // The check accepts exactly the clean commands, the masked ones among those whose first
  // uses are not recognised, and those it overlooks.
  lemma CleanIff(command: string)
    ensures WellFormed(command) && Clean(command) <==> GoodCommand(command) && !Masked(command) && !Overlooked(command)
  {
    if GoodCommand(command) && !Masked(command) && !Overlooked(command) {
      forall k: nat, i: nat | k < |BAD| && Uses(command, k, i)
        ensures k < 2 && !RemovesRoot(Lowered(command), i)
      {
        AcceptedHolds(command, k, i);
        if RemovesRoot(Lowered(command), i) {
          RemovalShows(command, k, i);
          assert false;
        }
      }
    }
    if WellFormed(command) && Clean(command) {
      CleanIsAccepted(command);
    }
  }

  // So an accepted command holds a removal of the root directory exactly when one is
  // masked or overlooked.
  lemma AcceptedIsClean(command: string)
    requires GoodCommand(command)
    ensures (exists k: nat, i: nat :: k < 2 && Uses(command, k, i) && RemovesRoot(Lowered(command), i))
       <==> Masked(command) || Overlooked(command)
    ensures Clean(command) <==> !Masked(command) && !Overlooked(command)
  {
    CleanIff(command);
    if k: nat, i: nat :| k < 2 && Uses(command, k, i) && RemovesRoot(Lowered(command), i) {
      assert !Clean(command);
    } else {
      forall k: nat, i: nat | k < |BAD| && Uses(command, k, i) ensures k < 2 { AcceptedHolds(command, k, i); }
    }
  }

  lemma CleanIsAccepted(command: string)
    requires WellFormed(command) && Clean(command)
    ensures GoodCommand(command) && !Masked(command) && !Overlooked(command)
  {
    forall k: nat | k < |BAD| ensures !Condemns(k, command) {
      if Condemns(k, command) { CondemnedIsUnclean(command, k); }
    }
    if Masked(command) { MaskedIsUnclean(command); }
  }

  lemma MaskedIsUnclean(command: string)
    requires Masked(command)
    ensures !Clean(command)
  {
    var k: nat, f: nat, i: nat :| k < 2 && f < i && Hides(Lowered(command), BAD[k], f, i);
    UnseenMeans(Lowered(command), i);
    assert Uses(command, k, i);
  }

  lemma CondemnedIsUnclean(command: string, k: nat)
    requires k < |BAD| && Condemns(k, command)
    ensures !Clean(command)
  {
    var i: nat :| FirstAt(Lowered(command), BAD[k], i) && (k < 2 ==> Recognised(Lowered(command), i));
    UnseenMeans(Lowered(command), i);
    assert Uses(command, k, i);
  }

  ghost predicate AtMostOnce(text: string, pattern: string) {
    forall i: nat, j: nat :: OccursAt(text, pattern, i) && OccursAt(text, pattern, j) ==> i == j
  }

  // In particular an accepted command that uses each removal at most once is clean unless
  // one is overlooked.
  lemma OnceIsClean(command: string)
    requires GoodCommand(command)
    requires AtMostOnce(Lowered(command), BAD[0]) && AtMostOnce(Lowered(command), BAD[1])
    ensures Clean(command) <==> !Overlooked(command)
  {
    CleanIff(command);
  }

  // Masked commands do pass the check ...
  const TWO_REMOVALS := "rm -rf /tmp; rm -rf /"

  lemma MaskedIsAccepted()
    ensures GoodCommand(TWO_REMOVALS) && Masked(TWO_REMOVALS) && !Clean(TWO_REMOVALS)
  {
    TwoRemovals();
    TwoPlaces();
    OnlyFirst(TWO_REMOVALS, BAD[0], Some(0));
    HarmlessLetters(TWO_REMOVALS);
    assert Hides(Lowered(TWO_REMOVALS), BAD[0], 0, 13);
    CleanIff(TWO_REMOVALS);
  }

  lemma TwoRemovals()
    ensures Lowered(TWO_REMOVALS) == TWO_REMOVALS && WellFormed(TWO_REMOVALS) && LacksLetters(TWO_REMOVALS)
  {
  }

  lemma TwoPlaces()
    ensures FirstAt(TWO_REMOVALS, BAD[0], 0) && !Recognised(TWO_REMOVALS, 0)
    ensures OccursAt(TWO_REMOVALS, BAD[0], 13) && Recognised(TWO_REMOVALS, 13)
  {
  }

  // ... and so does a single removal that the shell ends with a semicolon.
  const ENDED_REMOVAL := "rm -rf /;"

  lemma OverlookedIsAccepted()
    ensures GoodCommand(ENDED_REMOVAL) && Overlooked(ENDED_REMOVAL) && !Masked(ENDED_REMOVAL) && !Clean(ENDED_REMOVAL)
  {
    EndedRemoval();
    OnlyFirst(ENDED_REMOVAL, BAD[0], Some(0));
    HarmlessLetters(ENDED_REMOVAL);
    assert Uses(ENDED_REMOVAL, 0, 0) && Unseen(Lowered(ENDED_REMOVAL), 0);
    CleanIff(ENDED_REMOVAL);
  }

  lemma EndedRemoval()
    ensures Lowered(ENDED_REMOVAL) == ENDED_REMOVAL && WellFormed(ENDED_REMOVAL) && LacksLetters(ENDED_REMOVAL)
    ensures FirstAt(ENDED_REMOVAL, BAD[0], 0) && Unseen(ENDED_REMOVAL, 0)
    ensures forall i: nat :: OccursAt(ENDED_REMOVAL, BAD[0], i) ==> i == 0
  {
  }

  // Each pattern but the first has letters this text lacks.
  predicate LacksLetters(text: string) {
    && 'k' !in text && ':' !in text && 'o' !in text && 's' !in text && 'h' !in text
    && forall j: nat :: j + 1 < |text| && text[j] == '-' ==> text[j + 1] != 'f'
  }

  lemma HarmlessLetters(text: string)
    requires WellFormed(text) && Lowered(text) == text && LacksLetters(text)
    requires forall i: nat :: FirstAt(text, BAD[0], i) ==> !Recognised(text, i)
    ensures GoodCommand(text) && forall i: nat :: !OccursAt(text, BAD[1], i)
  {
    forall i: nat ensures !OccursAt(text, BAD[1], i) { NoOtherRemoval(text, i); }
    forall k: nat | k < |BAD| ensures !Condemns(k, text) {
      if k >= 2 { NotInText(text, k); }
    }
  }

  lemma LetterAt(text: string, pattern: string, j: nat, i: nat)
    requires j < |pattern| && OccursAt(text, pattern, i)
    ensures text[i + j] == pattern[j]
  {
    assert text[i..i + |pattern|][j] == text[i + j];
  }

  lemma NoOtherRemoval(text: string, i: nat)
    requires LacksLetters(text)
    ensures !OccursAt(text, BAD[1], i)
  {
    if OccursAt(text, BAD[1], i) {
      LetterAt(text, BAD[1], 3, i);
      LetterAt(text, BAD[1], 4, i);
      assert false;
    }
  }

  lemma NotInText(text: string, k: nat)
    requires 2 <= k < |BAD| && LacksLetters(text)
    ensures forall i: nat :: !OccursAt(text, BAD[k], i)
  {
    var j, c := LackedLetter(k);
    forall i: nat ensures !OccursAt(text, BAD[k], i) {
      if OccursAt(text, BAD[k], i) {
        LetterAt(text, BAD[k], j, i);
        assert false;
      }
    }
  }

  lemma LackedLetter(k: nat) returns (j: nat, c: char)
    requires 2 <= k < |BAD|
    ensures j < |BAD[k]| && BAD[k][j] == c && c in {'k', ':', 'o', 's', 'h'}
  {
    c := if k == 2 then 'k' else if k == 3 then ':' else if k == 4 || k == 9 || k == 10 then 'o'
         else if k <= 8 then 's' else 'h';
    j := if k == 2 || k == 8 || k == 11 then 1 else if k == 9 then 2 else if k == 10 then 4 else 0;
  }

  lemma {:induction false} FirstExists(text: string, pattern: string, i: nat) returns (f: nat)
    requires OccursAt(text, pattern, i)
    ensures f <= i && FirstAt(text, pattern, f)
    decreases i
  {
    if j: nat :| j < i && OccursAt(text, pattern, j) {
      f := FirstExists(text, pattern, j);
    } else {
      f := i;
    }
  }

  // ---------------------------------------------------------------- the local choice

  // The service is on the list, and what was collected at its position there says down.
  predicate Down(svcs: string, active: seq<bool>, service: string) {
    && service in Entries(svcs)
    && IndexOf(Entries(svcs), service) < |active|
    && !active[IndexOf(Entries(svcs), service)]
  }

  function FirstDown(es: seq<string>, svcs: string, active: seq<bool>): (r: Option<string>)
    ensures r.Some? ==> r.value in es && Down(svcs, active, r.value)
    ensures r.None? <==> forall e :: e in es ==> !Down(svcs, active, e)
  {
    if es == [] then None
    else if Down(svcs, active, es[0]) then Some(es[0])
    else FirstDown(es[1..], svcs, active)
  }

  // pick_repair_target into the buffer of 48 bytes
  method PickRepairTarget(svcs: string, repair: string, active: seq<bool>) returns (r: Option<string>)
    ensures r == var d := FirstDown(Entries(repair), svcs, active);
                 if d.Some? then Some(Cut(d.value, TARGET_SIZE)) else None
  {
    var p := repair;
    while p != ""
      invariant FirstDown(Entries(p), svcs, active) == FirstDown(Entries(repair), svcs, active)
      decreases |p|
    {
      var entry := p[..Upto(',', p)];
      assert Entries(p)[1..] == Entries(Behind(',', p));
      var index := CsvFindIndex(svcs, entry);
      if index >= 0 && index < |active| && !active[index] {
        return Some(Cut(entry, TARGET_SIZE));
      }
      p := Behind(',', p);
    }
    return None;
  }

  // ---------------------------------------------------------------- what may run

  // Listed for repair and among the services whose state is kept.
  predicate Watched(cfg: Config, e: string) {
    e in Entries(cfg.repair) && e in Entries(cfg.svcs) && IndexOf(Entries(cfg.svcs), e) < MAX_WATCH
  }

  // An entry the loop can pick by itself.
  predicate Pickable(cfg: Config, e: string) { Collects(cfg) && Watched(cfg, e) }

  // The list an action answers to: a unit of the repair list (a picked one as far as the
  // buffer holds it), a process of the kill list, a command that passes its check.
  ghost predicate Allowed(cfg: Config, a: Action) {
    match a
    case NoAction => true
    case Unit(verb, name) =>
      && (verb == "restart" || verb == "start" || verb == "stop")
      && (name in Entries(cfg.repair) || exists e :: Pickable(cfg, e) && name == Cut(e, TARGET_SIZE))
    case Kill(process) => Has(cfg.killAllow, process)
    case Exec(command) => GoodCommand(command)
  }

  ghost predicate ShortEntries(csv: string) {
    forall e :: e in Entries(csv) ==> |e| < TARGET_SIZE
  }

  // Cutting any entry the loop can pick gives a listed one.
  ghost predicate CutsAreListed(cfg: Config) {
    forall e :: Pickable(cfg, e) ==> Cut(e, TARGET_SIZE) in Entries(cfg.repair)
  }

  // Then a unit that runs is one that is listed; with short entries this is so.
  lemma UnitIsListed(cfg: Config, verb: string, name: string)
    requires Allowed(cfg, Unit(verb, name)) && CutsAreListed(cfg)
    ensures name in Entries(cfg.repair)
  {
  }

  lemma ShortCutsAreListed(cfg: Config)
    requires ShortEntries(cfg.repair)
    ensures CutsAreListed(cfg)
  {
  }

  // Every watched service up but this one.
  function OnlyDown(cfg: Config, e: string): (active: Flags)
    requires Watched(cfg, e)
  {
    var n := IndexOf(Entries(cfg.svcs), e);
    seq(n + 1, i => i != n)
  }

  lemma PickedWhenDown(cfg: Config, e: string)
    requires Watched(cfg, e)
    ensures FirstDown(Entries(cfg.repair), cfg.svcs, OnlyDown(cfg, e)) == Some(e)
  {
    var active := OnlyDown(cfg, e);
    assert Down(cfg.svcs, active, e);
    var r := FirstDown(Entries(cfg.repair), cfg.svcs, active);
    var n := IndexOf(Entries(cfg.svcs), e);
    assert IndexOf(Entries(cfg.svcs), r.value) == n && Entries(cfg.svcs)[n] == r.value;
  }

  // An entry of a repair list is picked where it alone is watched, and down.
  lemma AnyEntryCanBePicked(repair: string, e: string)
    requires e in Entries(repair) && e != ""
    ensures FirstDown(Entries(repair), e, [false]) == Some(e)
  {
    var cfg := Config(e, "", repair, "", 0, 0);
    PartsHaveNone(',', repair);
    OnlyPart(',', e);
    PickedWhenDown(cfg, e);
    assert OnlyDown(cfg, e) == [false];
  }

  // The unit picked is a listed one, whatever the collector takes and finds down.
  ghost predicate PicksListed(repair: string) {
    forall svcs, active: Flags, e :: IsSafe(svcs) && FirstDown(Entries(repair), svcs, active) == Some(e) ==>
      Cut(e, TARGET_SIZE) in Entries(repair)
  }

  // For any repair list this is so exactly when the cut of every entry that can be
  // watched is listed.
  lemma PickedIsListed(repair: string)
    ensures PicksListed(repair)
       <==> forall e :: e in Entries(repair) && IsSafe(e) ==> Cut(e, TARGET_SIZE) in Entries(repair)
  {
    forall e | e in Entries(repair) && IsSafe(e) && e != ""
      ensures PicksListed(repair) ==> Cut(e, TARGET_SIZE) in Entries(repair)
    {
      AnyEntryCanBePicked(repair, e);
    }
    forall svcs, active: Flags, e | IsSafe(svcs) && FirstDown(Entries(repair), svcs, active) == Some(e)
      ensures IsSafe(e)
    {
      SafeEntries(svcs, e);
    }
  }
}
