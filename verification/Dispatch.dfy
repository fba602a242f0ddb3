// Change execution (dispatch.py) as seen by many request threads over one durable
// table, with process crashes and retransmissions.
//
// A thread of ActionDispatcher.execute touches the table in three atomic steps:
// lookup, begin and the final record.  Everything between them may interleave
// with other threads; a crash loses every thread and keeps the table.

module Dispatch {
  import opened Common
  import opened Results
  import opened Idempotency

  datatype Call = Call(device: string, requestId: string, bodyHash: string, approval: Option<Approval>) {
    function Key(): Key { (device, requestId) }
    function ApprovalId(): Option<string> {
      if approval.Some? then Some(approval.value.approvalId) else None
    }
  }

  datatype Reply =
    | Ran(result: Value)        // this thread ran the handler
    | Replayed(result: Value)   // answered from the table
    | Refused(error: ErrorCode)

  // Where a thread stands: before its lookup, before validation, before begin,
  // inside the handler, before recording the ending, or replied.
  datatype Pc =
    | Looking
    | Approving
    | Claiming(now: int)
    | Handling
    | Recording(ending: Ending)
    | Replied(reply: Reply)

  datatype Event =
    | Started(call: Call, at: int)
    | Returned(call: Call, result: Value)
    | Answered(call: Call, result: Value)   // without running the handler

  // Steps a thread has left at most.
  function Left(pc: Pc): nat {
    match pc
    case Looking => 5
    case Approving => 4
    case Claiming(_) => 3
    case Handling => 2
    case Recording(_) => 1
    case Replied(_) => 0
  }

  // One atomic step of execute.  `now` is what the clock says if it is read,
  // `ending` what the handler does if it is running.
  function ThreadStep(t: Table, call: Call, pc: Pc, now: int, ending: Ending): (r: (Table, Pc, seq<Event>))
    ensures pc.Replied? || Left(r.1) < Left(pc)
  {
    match pc
    case Looking =>
      (match LookupIn(t, call.Key(), call.bodyHash)
       case None => (t, Approving, [])
       case Some(Ok(Cached(v))) => (t, Replied(Replayed(v)), [Answered(call, v)])
       case Some(Ok(New)) => (t, Replied(Refused(InternalError)), [])
       case Some(Err(e)) => (t, Replied(Refused(e)), []))
    case Approving =>
      var refusal := Validate(call.approval, now);
      (t, if refusal.Some? then Replied(Refused(refusal.value)) else Claiming(now), [])
    case Claiming(at) =>
      var (t', claim) := BeginIn(t, call.Key(), call.bodyHash, at, call.ApprovalId());
      (match claim
       case Ok(New) => (t', Handling, [Started(call, at)])
       case Ok(Cached(v)) => (t', Replied(Replayed(v)), [Answered(call, v)])
       case Err(e) => (t', Replied(Refused(e)), []))
    case Handling =>
      (t, Recording(ending), if ending.Success? then [Returned(call, ending.result)] else [])
    case Recording(e) =>
      var (t', ok) := FinishIn(t, call.Key(), e, now);
      (t', Replied(if !ok then Refused(InternalError) else if e.Success? then Ran(e.result) else Refused(e.code)), [])
    case Replied(_) => (t, pc, [])
  }

  // ---------------------------------------------------------------- one thread on its own

  // The steps of a thread nothing interferes with, from pc to its reply.
  function Alone(t: Table, call: Call, pc: Pc, now: int, later: int, ending: Ending): (Table, Reply)
    decreases Left(pc)
  {
    if pc.Replied? then (t, pc.reply)
    else
      var (t', pc', _) := ThreadStep(t, call, pc, if pc.Recording? then later else now, ending);
      Alone(t', call, pc', now, later, ending)
  }

  // Why a request is refused without its handler being run, told from the table before.
  ghost predicate Cause(t: Table, call: Call, now: int, e: ErrorCode) {
    match e
    case IdempotencyConflict => call.Key() in t && t[call.Key()].bodyHash != call.bodyHash
    case ActionStateUncertain =>
      call.Key() in t && t[call.Key()].bodyHash == call.bodyHash && !HasResult(t[call.Key()])
    case ApprovalRequired => call.Key() !in t && call.approval == None
    case InvalidActionParameters =>
      call.Key() !in t && call.approval.Some? && forall at :: !InWindow(call.approval.value, at)
    case ApprovalExpired =>
      call.Key() !in t && call.approval.Some? && !InWindow(call.approval.value, now)
      && exists at :: InWindow(call.approval.value, at)
    case ApprovalReused =>
      call.Key() !in t && call.approval.Some? && InWindow(call.approval.value, now)
      && exists k :: k in t && k.0 == call.device && t[k].approvalId == Some(call.approval.value.approvalId)
    case _ => false
  }

  // The table holds this result for the request.
  ghost predicate Stored(t: Table, call: Call, v: Value) {
    call.Key() in t && t[call.Key()].bodyHash == call.bodyHash && HasResult(t[call.Key()])
    && t[call.Key()].resultJson == Some(v)
  }

  // The table has one more row: the request with how its handler ended.
  ghost predicate Recorded(t: Table, t': Table, call: Call, now: int, later: int, ending: Ending) {
    && call.Key() !in t && t'.Keys == t.Keys + {call.Key()} && (forall k :: k in t ==> t'[k] == t[k])
    && var row := t'[call.Key()];
       && row.bodyHash == call.bodyHash && row.approvalId == call.ApprovalId()
       && row.createdAt == now && row.updatedAt == later
       && match ending
          case Success(v) => row.state == Succeeded && row.resultJson == Some(Normalize(v)) && row.errorCode == None
          case Failure(c) => row.state == Failed && row.resultJson == None && row.errorCode == Some(c)
  }

  // The request is not known, and nothing speaks against running it.
  ghost predicate IsNew(t: Table, call: Call, now: int) {
    call.Key() !in t && forall e :: !Cause(t, call, now, e)
  }

  lemma NewIff(t: Table, call: Call, now: int)
    ensures IsNew(t, call, now) <==> call.Key() !in t && Validate(call.approval, now).None?
                                     && !ApprovalTaken(t, call.device, call.ApprovalId())
  {
    ValidateIsWindow(call.approval, now);
    if call.Key() !in t {
      if Validate(call.approval, now).Some? {
        assert Cause(t, call, now, Validate(call.approval, now).value);
      } else if ApprovalTaken(t, call.device, call.ApprovalId()) {
        assert Cause(t, call, now, ApprovalReused);
      }
    }
  }

  // Every answer of a call nothing interferes with, told from the table before.
  lemma AloneAnswers(t: Table, call: Call, now: int, later: int, ending: Ending)
    ensures var (t', reply) := Alone(t, call, Looking, now, later, ending);
            if !IsNew(t, call, now)
            then t' == t && !reply.Ran? && (forall e :: reply == Refused(e) <==> Cause(t, call, now, e))
                 && forall v :: reply == Replayed(v) <==> Stored(t, call, v)
            else Recorded(t, t', call, now, later, ending)
                 && reply == if ending.Success? then Ran(ending.result) else Refused(ending.code)
  {
    AloneUnfolds(t, call, Looking, now, later, ending);
    if call.Key() !in t {
      ValidateIsWindow(call.approval, now);
      AloneUnfolds(t, call, Approving, now, later, ending);
      if Validate(call.approval, now).None? {
        AloneClaims(t, call, now, later, ending);
      } else {
        assert Cause(t, call, now, Validate(call.approval, now).value);
      }
    }
  }

  lemma AloneClaims(t: Table, call: Call, now: int, later: int, ending: Ending)
    requires call.Key() !in t && call.approval.Some? && InWindow(call.approval.value, now)
    ensures var (t', reply) := Alone(t, call, Claiming(now), now, later, ending);
            if Cause(t, call, now, ApprovalReused) then t' == t && reply == Refused(ApprovalReused)
            else Recorded(t, t', call, now, later, ending)
                 && reply == if ending.Success? then Ran(ending.result) else Refused(ending.code)
  {
    AloneUnfolds(t, call, Claiming(now), now, later, ending);
    if !Cause(t, call, now, ApprovalReused) {
      var t1 := BeginIn(t, call.Key(), call.bodyHash, now, call.ApprovalId()).0;
      AloneUnfolds(t1, call, Handling, now, later, ending);
      AloneUnfolds(t1, call, Recording(ending), now, later, ending);
    }
  }

  // The same of what a call returned.
  ghost predicate Accounted(t: Table, t': Table, call: Call, now: int, later: int, ending: Ending, reply: Reply,
        ran: bool)
  {
    && (ran <==> IsNew(t, call, now))
    && (forall e :: !ran && reply == Refused(e) <==> Cause(t, call, now, e))
    && (forall v :: !ran && reply == Replayed(v) <==> Stored(t, call, v))
    && (!ran ==> t' == t)
    && (ran ==> Recorded(t, t', call, now, later, ending)
                && reply == if ending.Success? then Ran(ending.result) else Refused(ending.code))
  }

  lemma AccountFor(t: Table, call: Call, now: int, later: int, ending: Ending)
    ensures Accounted(t, Alone(t, call, Looking, now, later, ending).0, call, now, later, ending,
              Alone(t, call, Looking, now, later, ending).1, IsNew(t, call, now))
  {
    AloneAnswers(t, call, now, later, ending);
  }

  class ActionDispatcher {
    const store: SqliteExecutionStore

    constructor (store: SqliteExecutionStore)
      ensures this.store == store
    {
      this.store := store;
    }

    // ActionDispatcher.execute for a change action.  `now` and `later` are the two
    // clock readings, `ending` what the handler does if it is called.
    method Execute(call: Call, now: int, later: int, ending: Ending) returns (reply: Reply, ran: bool)
      modifies store
      ensures (store.rows, reply) == Alone(old(store.rows), call, Looking, now, later, ending)
      ensures Accounted(old(store.rows), store.rows, call, now, later, ending, reply, ran)
    {
      ghost var t := store.rows;
      AccountFor(t, call, now, later, ending);
      NewIff(t, call, now);
      ran := false;
      var existing := store.Lookup(call.Key(), call.bodyHash);
      AloneUnfolds(t, call, Looking, now, later, ending);
      if existing.Some? {
        reply := match existing.value
          case Ok(Cached(v)) => Replayed(v)
          case Ok(New) => Refused(InternalError)
          case Err(e) => Refused(e);
        return;
      }
      var refusal := Validate(call.approval, now);
      AloneUnfolds(t, call, Approving, now, later, ending);
      if refusal.Some? {
        reply := Refused(refusal.value);
        return;
      }
      var claim := store.Begin(call.Key(), call.bodyHash, now, call.ApprovalId());
      AloneUnfolds(t, call, Claiming(now), now, later, ending);
      if claim != Ok(New) {
        reply := match claim
          case Ok(Cached(v)) => Replayed(v)
          case Ok(New) => Refused(InternalError)
          case Err(e) => Refused(e);
        return;
      }
      ran := true;
      AloneUnfolds(store.rows, call, Handling, now, later, ending);
      AloneUnfolds(store.rows, call, Recording(ending), now, later, ending);
      var ok := store.Finish(call.Key(), ending, later);
      reply := if !ok then Refused(InternalError)
               else if ending.Success? then Ran(ending.result) else Refused(ending.code);
    }
  }

  lemma AloneUnfolds(t: Table, call: Call, pc: Pc, now: int, later: int, ending: Ending)
    requires !pc.Replied?
    ensures var (t', pc', _) := ThreadStep(t, call, pc, if pc.Recording? then later else now, ending);
            && Alone(t, call, pc, now, later, ending) == Alone(t', call, pc', now, later, ending)
            && (pc'.Replied? ==> Alone(t', call, pc', now, later, ending) == (t', pc'.reply))
  {
  }

  predicate Busy(pc: Pc) { pc.Handling? || pc.Recording? }

  // A thread that answers with its own run has stored that result.
  lemma {:induction false} RanStores(t: Table, call: Call, pc: Pc, now: int, later: int, ending: Ending)
    requires !pc.Replied? && Alone(t, call, pc, now, later, ending).1.Ran?
    requires Busy(pc) ==> call.Key() in t && t[call.Key()].bodyHash == call.bodyHash
    ensures var (t', reply) := Alone(t, call, pc, now, later, ending);
            && call.Key() in t' && t'[call.Key()].state.Succeeded?
            && t'[call.Key()].bodyHash == call.bodyHash
            && t'[call.Key()].resultJson == Some(Normalize(reply.result))
    decreases Left(pc)
  {
    AloneUnfolds(t, call, pc, now, later, ending);
    if !pc.Recording? {
      var (t', pc', _) := ThreadStep(t, call, pc, now, ending);
      RanStores(t', call, pc', now, later, ending);
    }
  }

  // Sending a change that ran to its end again, at any later time and even with the
  // approval expired, returns the same data and runs nothing.
  lemma Retransmission(t: Table, call: Call, now: int, later: int, ending: Ending, now': int, later': int,
          ending': Ending)
    requires Alone(t, call, Looking, now, later, ending).1.Ran?
    ensures var (t1, first) := Alone(t, call, Looking, now, later, ending);
            && Alone(t1, call, Looking, now', later', ending') == (t1, Replayed(Normalize(first.result)))
            && SameData(first.result, Normalize(first.result))
  {
    var (t1, first) := Alone(t, call, Looking, now, later, ending);
    RanStores(t, call, Looking, now, later, ending);
    NormalizeSound(first.result);
    AloneUnfolds(t1, call, Looking, now', later', ending');
  }

  // ---------------------------------------------------------------- many threads

  datatype Thread = Thread(call: Call, pc: Pc)

  datatype State = State(table: Table, threads: map<nat, Thread>, log: seq<Event>)

  // A request or retransmission arrives; a thread takes its next step; a thread
  // ends with an exception before its next step; the process crashes and restarts.
  datatype Move =
    | Arrive(tid: nat, call: Call)
    | Go(tid: nat, now: int, ending: Ending)
    | Die(tid: nat)
    | Crash

  function Next(s: State, m: Move): State {
    match m
    case Arrive(tid, call) =>
      if tid in s.threads then s else s.(threads := s.threads[tid := Thread(call, Looking)])
    case Go(tid, now, ending) =>
      if tid !in s.threads then s
      else
        var call := s.threads[tid].call;
        var (t', pc', events) := ThreadStep(s.table, call, s.threads[tid].pc, now, ending);
        State(t', s.threads[tid := Thread(call, pc')], s.log + events)
    case Die(tid) => s.(threads := s.threads - {tid})
    case Crash => s.(threads := map[])
  }

  function Run(s: State, moves: seq<Move>): State
    decreases |moves|
  {
    if moves == [] then s else Run(Next(s, moves[0]), moves[1..])
  }

  // A thread that takes all its steps, whoever else is there, ends as the call on its own.
  lemma {:induction false} ThreadAlone(s: State, tid: nat, now: int, later: int, ending: Ending)
    returns (moves: seq<Move>)
    requires tid in s.threads && !s.threads[tid].pc.Replied?
    ensures var (t, reply) := Alone(s.table, s.threads[tid].call, s.threads[tid].pc, now, later, ending);
            Run(s, moves).table == t
            && Run(s, moves).threads == s.threads[tid := Thread(s.threads[tid].call, Replied(reply))]
    decreases Left(s.threads[tid].pc)
  {
    var (call, pc) := (s.threads[tid].call, s.threads[tid].pc);
    AloneUnfolds(s.table, call, pc, now, later, ending);
    var first := Go(tid, if pc.Recording? then later else now, ending);
    var s1 := Next(s, first);
    if s1.threads[tid].pc.Replied? {
      moves := [first];
      assert moves[1..] == [];
    } else {
      var rest := ThreadAlone(s1, tid, now, later, ending);
      moves := [first] + rest;
      assert moves[1..] == rest;
    }
  }

  // So every request that arrives can be answered as Execute answers it.
  lemma ArrivalIsServed(s: State, tid: nat, call: Call, now: int, later: int, ending: Ending) returns (moves: seq<Move>)
    requires tid !in s.threads
    ensures var (t, reply) := Alone(s.table, call, Looking, now, later, ending);
            Run(s, [Arrive(tid, call)] + moves).table == t
            && Run(s, [Arrive(tid, call)] + moves).threads == s.threads[tid := Thread(call, Replied(reply))]
  {
    moves := ThreadAlone(Next(s, Arrive(tid, call)), tid, now, later, ending);
    assert ([Arrive(tid, call)] + moves)[1..] == moves;
  }

  // A thread that dies leaves the others and the table alone; a crash leaves the table.
  lemma DeathsLeave(s: State, tid: nat, other: nat)
    ensures tid !in Next(s, Die(tid)).threads && Next(s, Die(tid)).table == s.table == Next(s, Crash).table
    ensures other != tid && other in s.threads ==>
              other in Next(s, Die(tid)).threads && Next(s, Die(tid)).threads[other] == s.threads[other]
    ensures Next(s, Crash).threads == map[] && Next(s, Crash).log == s.log == Next(s, Die(tid)).log
  {
  }

  const INITIAL := State(map[], map[], [])

  // ---------------------------------------------------------------- invariant

  ghost predicate Registered(t: Table, call: Call, at: int) {
    && call.Key() in t && call.approval.Some? && InWindow(call.approval.value, at)
    && t[call.Key()].bodyHash == call.bodyHash
    && t[call.Key()].approvalId == call.ApprovalId()
    && t[call.Key()].createdAt == at
  }

  ghost predicate StartsRegistered(t: Table, log: seq<Event>) {
    forall e :: e in log && e.Started? ==> Registered(t, e.call, e.at)
  }

  ghost predicate StartsDistinct(log: seq<Event>) {
    forall i, j :: 0 <= i < j < |log| && log[i].Started? && log[j].Started? ==> log[i].call.Key() != log[j].call.Key()
  }

  ghost predicate ReturnsDistinct(log: seq<Event>) {
    forall i, j :: 0 <= i < j < |log| && log[i].Returned? && log[j].Returned? ==> log[i].call.Key() != log[j].call.Key()
  }

  ghost predicate ReturnsKnown(t: Table, log: seq<Event>) {
    forall e :: e in log && e.Returned? ==> e.call.Key() in t
  }

  // A stored result comes from the one run of that request.
  ghost predicate FromRun(log: seq<Event>, k: Key, row: Row) {
    exists e :: e in log && e.Returned? && e.call.Key() == k && e.call.bodyHash == row.bodyHash
      && row.resultJson == Some(Normalize(e.result))
  }

  ghost predicate ResultsFromRuns(t: Table, log: seq<Event>) {
    forall k :: k in t && t[k].state.Succeeded? ==> FromRun(log, k, t[k])
  }

  ghost predicate AnswersStored(t: Table, log: seq<Event>) {
    forall e :: e in log && e.Answered? ==>
      && e.call.Key() in t && t[e.call.Key()].state.Succeeded?
      && t[e.call.Key()].bodyHash == e.call.bodyHash && t[e.call.Key()].resultJson == Some(e.result)
  }

  // What a thread in the middle of execute may rely on.
  ghost predicate ThreadOk(t: Table, log: seq<Event>, th: Thread) {
    && (th.pc.Claiming? ==> th.call.approval.Some? && InWindow(th.call.approval.value, th.pc.now))
    && (Busy(th.pc) ==>
          && th.call.Key() in t && t[th.call.Key()].state.Running?
          && t[th.call.Key()].bodyHash == th.call.bodyHash)
    && (th.pc.Handling? ==> forall e :: e in log && e.Returned? ==> e.call.Key() != th.call.Key())
    && (th.pc.Recording? && th.pc.ending.Success? ==> Returned(th.call, th.pc.ending.result) in log)
  }

  ghost predicate ThreadsOk(s: State) {
    && (forall i :: i in s.threads ==> ThreadOk(s.table, s.log, s.threads[i]))
    && (forall i, j :: i in s.threads && j in s.threads && i != j && Busy(s.threads[i].pc) && Busy(s.threads[j].pc) ==>
          s.threads[i].call.Key() != s.threads[j].call.Key())
  }

  ghost predicate LogOk(t: Table, log: seq<Event>) {
    && StartsRegistered(t, log) && StartsDistinct(log)
    && ReturnsDistinct(log) && ReturnsKnown(t, log)
    && ResultsFromRuns(t, log) && AnswersStored(t, log)
  }

  ghost predicate Inv(s: State) {
    ApprovalsUnique(s.table) && LogOk(s.table, s.log) && ThreadsOk(s)
  }

  // ---------------------------------------------------------------- steps keep it

  // What one step changes: at most the thread's own row, at most one event.
  lemma StepEffect(t: Table, call: Call, pc: Pc, now: int, ending: Ending)
    requires ApprovalsUnique(t)
    ensures var r := ThreadStep(t, call, pc, now, ending);
            && ApprovalsUnique(r.0) && Grows(t, r.0)
            && (forall k :: k in r.0 && k != call.Key() ==> k in t && r.0[k] == t[k])
            && |r.2| <= 1
  {
    if pc.Claiming? {
      BeginKeeps(t, call.Key(), call.bodyHash, pc.now, call.ApprovalId());
    } else if pc.Recording? {
      FinishKeeps(t, call.Key(), pc.ending, now);
    }
  }

  lemma StepStarts(t: Table, log: seq<Event>, call: Call, pc: Pc, now: int, ending: Ending)
    requires ApprovalsUnique(t) && LogOk(t, log) && ThreadOk(t, log, Thread(call, pc))
    ensures var r := ThreadStep(t, call, pc, now, ending);
            StartsRegistered(r.0, log + r.2) && StartsDistinct(log + r.2)
  {
    StepEffect(t, call, pc, now, ending);
  }

  lemma StepReturns(t: Table, log: seq<Event>, call: Call, pc: Pc, now: int, ending: Ending)
    requires ApprovalsUnique(t) && LogOk(t, log) && ThreadOk(t, log, Thread(call, pc))
    ensures var r := ThreadStep(t, call, pc, now, ending);
            ReturnsDistinct(log + r.2) && ReturnsKnown(r.0, log + r.2)
  {
    StepEffect(t, call, pc, now, ending);
  }

  lemma StepResults(t: Table, log: seq<Event>, call: Call, pc: Pc, now: int, ending: Ending)
    requires ApprovalsUnique(t) && LogOk(t, log) && ThreadOk(t, log, Thread(call, pc))
    ensures var r := ThreadStep(t, call, pc, now, ending);
            ResultsFromRuns(r.0, log + r.2) && AnswersStored(r.0, log + r.2)
  {
    StepEffect(t, call, pc, now, ending);
    var r := ThreadStep(t, call, pc, now, ending);
    forall k | k in r.0 && r.0[k].state.Succeeded? ensures FromRun(log + r.2, k, r.0[k]) {
      if k in t && t[k].state.Succeeded? {
        assert FromRun(log, k, t[k]);
      } else {
        assert k == call.Key() && pc.Recording? && pc.ending.Success?;
        assert Returned(call, pc.ending.result) in log + r.2;
      }
    }
  }

  lemma StepLogOk(t: Table, log: seq<Event>, call: Call, pc: Pc, now: int, ending: Ending)
    requires ApprovalsUnique(t) && LogOk(t, log) && ThreadOk(t, log, Thread(call, pc))
    ensures var r := ThreadStep(t, call, pc, now, ending); LogOk(r.0, log + r.2)
  {
    StepStarts(t, log, call, pc, now, ending);
    StepReturns(t, log, call, pc, now, ending);
    StepResults(t, log, call, pc, now, ending);
  }

  // The thread that moved may still rely on its facts.
  lemma StepOwnThread(t: Table, log: seq<Event>, call: Call, pc: Pc, now: int, ending: Ending)
    requires ApprovalsUnique(t) && LogOk(t, log) && ThreadOk(t, log, Thread(call, pc))
    ensures var r := ThreadStep(t, call, pc, now, ending);
            && ThreadOk(r.0, log + r.2, Thread(call, r.1))
            && (Busy(r.1) ==> Busy(pc) || call.Key() !in t)
  {
    StepEffect(t, call, pc, now, ending);
    if pc.Approving? {
      ValidateIsWindow(call.approval, now);
    }
  }

  // So may every other thread.
  lemma StepOtherThread(t: Table, log: seq<Event>, call: Call, pc: Pc, now: int, ending: Ending, other: Thread)
    requires ApprovalsUnique(t) && LogOk(t, log) && ThreadOk(t, log, Thread(call, pc)) && ThreadOk(t, log, other)
    requires Busy(pc) && Busy(other.pc) ==> call.Key() != other.call.Key()
    ensures var r := ThreadStep(t, call, pc, now, ending);
            && ThreadOk(r.0, log + r.2, other)
            && (Busy(r.1) && Busy(other.pc) ==> call.Key() != other.call.Key())
  {
    StepEffect(t, call, pc, now, ending);
  }

  lemma NextKeeps(s: State, m: Move)
    requires Inv(s)
    ensures Inv(Next(s, m)) && Grows(s.table, Next(s, m).table) && s.log <= Next(s, m).log
  {
    if m.Go? && m.tid in s.threads {
      var call, pc := s.threads[m.tid].call, s.threads[m.tid].pc;
      var s' := Next(s, m);
      StepEffect(s.table, call, pc, m.now, m.ending);
      StepLogOk(s.table, s.log, call, pc, m.now, m.ending);
      StepOwnThread(s.table, s.log, call, pc, m.now, m.ending);
      forall i | i in s'.threads && i != m.tid
        ensures ThreadOk(s'.table, s'.log, s'.threads[i])
        ensures Busy(s'.threads[m.tid].pc) && Busy(s'.threads[i].pc) ==>
                  s'.threads[m.tid].call.Key() != s'.threads[i].call.Key()
      {
        StepOtherThread(s.table, s.log, call, pc, m.now, m.ending, s.threads[i]);
      }
    }
  }

  lemma {:induction false} RunKeeps(s: State, moves: seq<Move>)
    requires Inv(s)
    ensures Inv(Run(s, moves)) && Grows(s.table, Run(s, moves).table) && s.log <= Run(s, moves).log
    decreases |moves|
  {
    if moves != [] {
      NextKeeps(s, moves[0]);
      RunKeeps(Next(s, moves[0]), moves[1..]);
      GrowsTransitive(s.table, Next(s, moves[0]).table, Run(s, moves).table);
    }
  }

  // ---------------------------------------------------------------- what holds of every run

  // A handler starts at most once per request and at most once per approval, and
  // only inside the approval's window.
  lemma StartsAtMostOnce(moves: seq<Move>, i: nat, j: nat)
    requires var log := Run(INITIAL, moves).log; i < j < |log| && log[i].Started? && log[j].Started?
    ensures var a, b := Run(INITIAL, moves).log[i].call, Run(INITIAL, moves).log[j].call;
            && (a.device, a.requestId) != (b.device, b.requestId)
            && a.approval.Some? && b.approval.Some?
            && (a.device, a.approval.value.approvalId) != (b.device, b.approval.value.approvalId)
  {
    RunKeeps(INITIAL, moves);
    var s := Run(INITIAL, moves);
    assert s.log[i] in s.log && s.log[j] in s.log;
  }

  lemma StartsInWindow(moves: seq<Move>, e: Event)
    requires e in Run(INITIAL, moves).log && e.Started?
    ensures e.call.approval.Some?
    ensures var a := e.call.approval.value;
            a.approvedAt - 5 <= e.at < a.expiresAt && a.expiresAt <= a.approvedAt + 120
  {
    RunKeeps(INITIAL, moves);
  }

  // The handler returned a result for this request at position i and nowhere else.
  ghost predicate OnlyRun(log: seq<Event>, i: int, k: Key) {
    && 0 <= i < |log| && log[i].Returned? && log[i].call.Key() == k
    && forall j :: 0 <= j < |log| && j != i && log[j].Returned? ==> log[j].call.Key() != k
  }

  // An answer given without running the handler is the stored form of the result
  // of that request's one run, for the same body.
  lemma AnswersReplayTheRun(moves: seq<Move>, e: Event)
    requires e in Run(INITIAL, moves).log && e.Answered?
    ensures exists i :: OnlyRun(Run(INITIAL, moves).log, i, e.call.Key())
              && Run(INITIAL, moves).log[i].call.bodyHash == e.call.bodyHash
              && e.result == Normalize(Run(INITIAL, moves).log[i].result)
  {
    RunKeeps(INITIAL, moves);
    var s := Run(INITIAL, moves);
    var k := e.call.Key();
    assert FromRun(s.log, k, s.table[k]);
    var r :| r in s.log && r.Returned? && r.call.Key() == k && r.call.bodyHash == s.table[k].bodyHash
             && s.table[k].resultJson == Some(Normalize(r.result));
    var i :| 0 <= i < |s.log| && s.log[i] == r;
    assert OnlyRun(s.log, i, k);
  }

  // A row nothing will ever finish: already failed, or running with its thread gone.
  ghost predicate Stuck(s: State, k: Key) {
    && k in s.table && !s.table[k].state.Succeeded?
    && forall i :: i in s.threads && Busy(s.threads[i].pc) ==> s.threads[i].call.Key() != k
  }

  // Events that would give k's result or run its handler.
  ghost predicate Yields(e: Event, k: Key) {
    e.call.Key() == k && (e.Started? || e.Answered?)
  }

  // Once a request has failed, or the process crashed while it was running, no
  // later move gives it a result or runs its handler again, and its row stays.
  lemma {:induction false} StuckForever(s: State, moves: seq<Move>, k: Key)
    requires Inv(s) && Stuck(s, k)
    ensures Stuck(Run(s, moves), k) && Run(s, moves).table[k] == s.table[k]
    ensures forall i :: |s.log| <= i < |Run(s, moves).log| ==> !Yields(Run(s, moves).log[i], k)
    decreases |moves|
  {
    if moves != [] {
      NextKeeps(s, moves[0]);
      var s1 := Next(s, moves[0]);
      StuckStep(s, moves[0], k);
      RunKeeps(s1, moves[1..]);
      StuckForever(s1, moves[1..], k);
      assert forall i :: |s.log| <= i < |s1.log| ==> Run(s, moves).log[i] == s1.log[i];
    }
  }

  lemma StuckStep(s: State, m: Move, k: Key)
    requires Inv(s) && Stuck(s, k)
    ensures Stuck(Next(s, m), k) && Next(s, m).table[k] == s.table[k]
    ensures forall i :: |s.log| <= i < |Next(s, m).log| ==> !Yields(Next(s, m).log[i], k)
  {
    if m.Go? && m.tid in s.threads {
      var call, pc := s.threads[m.tid].call, s.threads[m.tid].pc;
      StepEffect(s.table, call, pc, m.now, m.ending);
      assert ThreadOk(s.table, s.log, s.threads[m.tid]);
    }
  }

  // A failed row is stuck from the moment it is recorded.
  lemma FailureSticks(s: State, k: Key)
    requires Inv(s) && k in s.table && s.table[k].state.Failed?
    ensures Stuck(s, k)
  {
    assert forall i :: i in s.threads ==> ThreadOk(s.table, s.log, s.threads[i]);
  }

  // A crash leaves every running row stuck.
  lemma CrashSticks(s: State, k: Key)
    requires Inv(s) && k in s.table && s.table[k].state.Running?
    ensures Stuck(Next(s, Crash), k)
  {
  }

  // The thread that runs the handler always manages to record its ending.
  lemma RecordingNeverFails(moves: seq<Move>, tid: nat, now: int)
    requires var s := Run(INITIAL, moves); tid in s.threads && s.threads[tid].pc.Recording?
    ensures var s := Run(INITIAL, moves); FinishIn(s.table, s.threads[tid].call.Key(), s.threads[tid].pc.ending, now).1
  {
    RunKeeps(INITIAL, moves);
    var s := Run(INITIAL, moves);
    assert ThreadOk(s.table, s.log, s.threads[tid]);
  }

  // A request sent again while its handler runs is told just that, and runs nothing.
  lemma WhileHandling(moves: seq<Move>, tid: nat, other: nat, now: int, ending: Ending)
    requires var s := Run(INITIAL, moves);
             && tid in s.threads && other in s.threads && Busy(s.threads[tid].pc) && s.threads[other].pc == Looking
             && s.threads[other].call.Key() == s.threads[tid].call.Key()
    ensures var s := Run(INITIAL, moves);
            var s' := Next(s, Go(other, now, ending));
            var same := s.threads[other].call.bodyHash == s.threads[tid].call.bodyHash;
            && s'.table == s.table && s'.log == s.log
            && s'.threads[other].pc == Replied(Refused(if same then ActionStateUncertain else IdempotencyConflict))
  {
    RunKeeps(INITIAL, moves);
    var s := Run(INITIAL, moves);
    assert ThreadOk(s.table, s.log, s.threads[tid]);
    AnswersMean(s.table, s.threads[other].call.Key(), s.threads[other].call.bodyHash, now, None);
    assert s.log + [] == s.log;
  }
}
