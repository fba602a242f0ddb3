// The durable execution table (idempotency.py) and the approval policy (approval.py).

module Idempotency {
  import opened Common
  import opened Results

  datatype ErrorCode =
    | ApprovalRequired
    | InvalidActionParameters
    | ApprovalExpired
    | ApprovalReused
    | IdempotencyConflict
    | ActionStateUncertain
    | InternalError
    | HandlerError(code: string)

  datatype Checked<+T> = Ok(value: T) | Err(error: ErrorCode)

  // ---------------------------------------------------------------- approval

  datatype Approval = Approval(approvalId: string, approvedAt: int, expiresAt: int)

  const MAX_VALIDITY_SECONDS := 120
  const MAX_FUTURE_SKEW_SECONDS := 5

  // ApprovalPolicy.validate: None is acceptance.
  function Validate(approval: Option<Approval>, now: int): Option<ErrorCode> {
    if approval.None? then Some(ApprovalRequired)
    else
      var a := approval.value;
      if a.approvedAt < 0 || a.expiresAt <= a.approvedAt
         || a.expiresAt - a.approvedAt > MAX_VALIDITY_SECONDS then Some(InvalidActionParameters)
      else if a.approvedAt > now + MAX_FUTURE_SKEW_SECONDS then Some(ApprovalExpired)
      else if a.expiresAt <= now then Some(ApprovalExpired)
      else None
  }

  // The times at which an approval authorizes a change.
  predicate InWindow(a: Approval, at: int) {
    && 0 <= a.approvedAt < a.expiresAt <= a.approvedAt + 120
    && a.approvedAt - 5 <= at < a.expiresAt
  }

  // ---------------------------------------------------------------- table

  type Key = (string, string)     // device id, request id

  datatype RowState = Running | Succeeded | Failed

  datatype Row = Row(
    bodyHash: string, approvalId: Option<string>, state: RowState,
    resultJson: Option<Value>, errorCode: Option<ErrorCode>, createdAt: int, updatedAt: int)

  type Table = map<Key, Row>

  datatype Claim = New | Cached(result: Value)

  function ExistingClaim(row: Row, bodyHash: string): Checked<Claim> {
    if row.bodyHash != bodyHash then Err(IdempotencyConflict)
    else if row.state.Succeeded? && row.resultJson.Some? then Ok(Cached(row.resultJson.value))
    else Err(ActionStateUncertain)
  }

  function LookupIn(t: Table, key: Key, bodyHash: string): Option<Checked<Claim>> {
    if key in t then Some(ExistingClaim(t[key], bodyHash)) else None
  }

  // A row the unique index on (device_id, approval_id) would clash with.
  predicate ApprovalTaken(t: Table, device: string, approvalId: Option<string>) {
    approvalId.Some? && exists k :: k in t && k.0 == device && t[k].approvalId == approvalId
  }

  function NewRow(bodyHash: string, now: int, approvalId: Option<string>): Row {
    Row(bodyHash, approvalId, Running, None, None, now, now)
  }

  function BeginIn(t: Table, key: Key, bodyHash: string, now: int, approvalId: Option<string>)
    : (Table, Checked<Claim>)
  {
    if key in t then (t, ExistingClaim(t[key], bodyHash))
    else if ApprovalTaken(t, key.0, approvalId) then (t, Err(ApprovalReused))
    else (t[key := NewRow(bodyHash, now, approvalId)], Ok(New))
  }

  datatype Ending = Success(result: Value) | Failure(code: ErrorCode)

  function Ended(row: Row, e: Ending, now: int): Row {
    match e
    case Success(v) => row.(state := Succeeded, resultJson := Some(Normalize(v)), errorCode := None, updatedAt := now)
    case Failure(c) => row.(state := Failed, resultJson := None, errorCode := Some(c), updatedAt := now)
  }

  // _finish; false is the RuntimeError of a record that is not running.
  function FinishIn(t: Table, key: Key, e: Ending, now: int): (Table, bool) {
    if key in t && t[key].state.Running? then (t[key := Ended(t[key], e, now)], true) else (t, false)
  }

  // ---------------------------------------------------------------- the store

  class SqliteExecutionStore {
    var rows: Table

    constructor ()
      ensures rows == map[]
    {
      rows := map[];
    }

    method Lookup(key: Key, bodyHash: string) returns (claim: Option<Checked<Claim>>)
      ensures claim == LookupIn(rows, key, bodyHash)
    {
      if key !in rows {
        return None;
      }
      return Some(ExistingClaim(rows[key], bodyHash));
    }

    method Begin(key: Key, bodyHash: string, now: int, approvalId: Option<string>) returns (claim: Checked<Claim>)
      modifies this
      ensures (rows, claim) == BeginIn(old(rows), key, bodyHash, now, approvalId)
    {
      if key in rows {
        return ExistingClaim(rows[key], bodyHash);
      }
      if ApprovalTaken(rows, key.0, approvalId) {
        return Err(ApprovalReused);
      }
      rows := rows[key := NewRow(bodyHash, now, approvalId)];
      return Ok(New);
    }

    method Finish(key: Key, e: Ending, now: int) returns (ok: bool)
      modifies this
      ensures (rows, ok) == FinishIn(old(rows), key, e, now)
    {
      if key !in rows || !rows[key].state.Running? {
        return false;
      }
      rows := rows[key := Ended(rows[key], e, now)];
      return true;
    }
  }

  // ---------------------------------------------------------------- what the table keeps

  // No two rows of one device carry the same approval.
  ghost predicate ApprovalsUnique(t: Table) {
    forall j, k :: j in t && k in t && j != k && j.0 == k.0 && t[j].approvalId.Some? ==>
      t[j].approvalId != t[k].approvalId
  }

  // Rows are only added and only move from running to a terminal state, once.
  ghost predicate Grows(t: Table, t': Table) {
    forall k :: k in t ==> k in t' && Later(t[k], t'[k])
  }

  ghost predicate Later(r: Row, r': Row) {
    && r'.bodyHash == r.bodyHash && r'.approvalId == r.approvalId && r'.createdAt == r.createdAt
    && (!r.state.Running? ==> r' == r)
  }

  lemma GrowsTransitive(t: Table, t1: Table, t': Table)
    requires Grows(t, t1) && Grows(t1, t')
    ensures Grows(t, t')
  {
    forall k | k in t ensures k in t' && Later(t[k], t'[k]) {
      assert k in t1;
    }
  }

  // An approval is accepted exactly inside its window; it is malformed when no time
  // lies inside, and expired (or early) when only another one does.
  lemma ValidateIsWindow(approval: Option<Approval>, now: int)
    ensures Validate(approval, now).None? <==> approval.Some? && InWindow(approval.value, now)
    ensures Validate(approval, now) == Some(ApprovalRequired) <==> approval.None?
    ensures Validate(approval, now) == Some(InvalidActionParameters)
       <==> approval.Some? && forall at :: !InWindow(approval.value, at)
    ensures Validate(approval, now) == Some(ApprovalExpired)
       <==> approval.Some? && !InWindow(approval.value, now) && exists at :: InWindow(approval.value, at)
  {
    if approval.Some? && Validate(approval, now) != Some(InvalidActionParameters) {
      assert InWindow(approval.value, approval.value.approvedAt);
    }
  }

  // The row holds a result to answer with.
  ghost predicate HasResult(row: Row) { row.state.Succeeded? && row.resultJson.Some? }

  // What each answer to a claim says about the table.
  lemma AnswersMean(t: Table, key: Key, bodyHash: string, now: int, approvalId: Option<string>)
    ensures var claim := BeginIn(t, key, bodyHash, now, approvalId).1;
            && (claim == Err(IdempotencyConflict) <==> key in t && t[key].bodyHash != bodyHash)
            && (claim == Err(ApprovalReused) <==>
                  key !in t && approvalId.Some? && exists k :: k in t && k.0 == key.0 && t[k].approvalId == approvalId)
            && (forall v :: claim == Ok(Cached(v)) <==>
                  key in t && t[key].bodyHash == bodyHash && t[key].state.Succeeded? && t[key].resultJson == Some(v))
            && (claim == Err(ActionStateUncertain) <==> key in t && t[key].bodyHash == bodyHash && !HasResult(t[key]))
            && (claim == Ok(New) <==>
                  key !in t && forall k :: k in t && k.0 == key.0 && approvalId.Some? ==> t[k].approvalId != approvalId)
            && LookupIn(t, key, bodyHash) == if key in t then Some(claim) else None
  {
  }

  lemma BeginKeeps(t: Table, key: Key, bodyHash: string, now: int, approvalId: Option<string>)
    requires ApprovalsUnique(t)
    ensures var (t', claim) := BeginIn(t, key, bodyHash, now, approvalId);
            && ApprovalsUnique(t') && Grows(t, t')
            && (claim == Ok(New) <==> key !in t && !ApprovalTaken(t, key.0, approvalId))
            && (claim != Ok(New) ==> t' == t)
            && (claim == Ok(New) ==> t' == t[key := NewRow(bodyHash, now, approvalId)])
  {
  }

  // Exactly a running row is ended: with the stored form of the result, or failed with
  // its code.  All else stays.
  lemma FinishMeans(t: Table, key: Key, e: Ending, now: int)
    ensures var (t', ok) := FinishIn(t, key, e, now);
            && (ok <==> key in t && t[key].state == Running) && t'.Keys == t.Keys
            && (forall k :: k in t && (k != key || !ok) ==> t'[k] == t[k])
            && (ok && e.Success? ==> HasResult(t'[key]) && IsJson(t'[key].resultJson.value)
                                     && SameData(e.result, t'[key].resultJson.value) && t'[key].errorCode == None)
            && (ok && e.Failure? ==>
                  t'[key].state == Failed && t'[key].resultJson == None && t'[key].errorCode == Some(e.code))
            && (ok ==> Later(t[key], t'[key]) && t'[key].updatedAt == now)
  {
    if e.Success? { NormalizeSound(e.result); }
  }

  lemma FinishKeeps(t: Table, key: Key, e: Ending, now: int)
    requires ApprovalsUnique(t)
    ensures ApprovalsUnique(FinishIn(t, key, e, now).0) && Grows(t, FinishIn(t, key, e, now).0)
  {
  }
}
