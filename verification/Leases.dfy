/** Settlement materializations of `src/db.rs`: a claim/renew/reschedule/record/delete
    protocol in which a claim token fences every write.

    `Next` says what each statement does to the table; `MaterializationTable` does it in
    place. Workers are arbitrary interleaved callers: a run is any sequence of statements.
 */
module Leases {
  import opened Common
  import opened Ordering

  datatype Phase = Pending | ResourceReady | CleanupPending

  /** The lease columns travel together: `claim_token` and `claim_expires_at`. */
  datatype Row = Row(
    kind: string, request: string, phase: Phase, resource: Option<string>,
    attempts: nat, nextAttemptAt: int, lastError: Option<string>,
    token: Option<string>, expiresAt: Option<int>, createdAt: int, updatedAt: int)

  type Table = map<string, Row>

  datatype Step =
    | Insert(deal: string, kind: string, request: string, createdAt: int)
    | Claim(deal: string, token: string, expiresAt: int, now: int)
    | Renew(deal: string, token: string, expiresAt: int, now: int)
    | Reschedule(deal: string, token: string, nextAttemptAt: int, errorCode: string, now: int)
    | SetResource(deal: string, token: string, phase: Phase, resource: string, now: int)
    | Delete(deal: string)
    | DeleteIfToken(deal: string, token: string)
    | ResetClaims(now: int)

  datatype Reply =
    | Done
    | Claimed(row: Row)
    | NotClaimed
    | Applied(changed: bool)
    | Refused
    | Released(count: nat)

  datatype Outcome = Outcome(table: Table, reply: Reply)

  // ---------------------------------------------------------------- statements

  /** `char::is_whitespace`. */
  predicate IsWhitespace(c: char) {
    || '\U{9}' <= c <= '\U{d}' || c == ' ' || c == '\U{85}' || c == '\U{a0}' || c == '\U{1680}'
    || '\U{2000}' <= c <= '\U{200a}' || c == '\U{2028}' || c == '\U{2029}' || c == '\U{202f}'
    || c == '\U{205f}' || c == '\U{3000}'
  }

  /** `value.trim().is_empty()`. */
  predicate Blank(value: string) {
    forall i | 0 <= i < |value| :: IsWhitespace(value[i])
  }

  /** The `WHERE` clause shared by the claim statement and the due listing. */
  predicate Claimable(row: Row, now: int) {
    && row.nextAttemptAt <= now
    && (row.token.None? || row.expiresAt.None? || row.expiresAt.value <= now)
  }

  predicate HeldBy(table: Table, deal: string, token: string) {
    deal in table && table[deal].token == Some(token)
  }

  function NewRow(kind: string, request: string, createdAt: int): Row {
    Row(kind, request, Pending, None, 0, createdAt, None, None, None, createdAt, createdAt)
  }

  function ClaimedRow(row: Row, token: string, expiresAt: int, now: int): Row {
    row.(token := Some(token), expiresAt := Some(expiresAt), attempts := row.attempts + 1, updatedAt := now)
  }

  predicate HasLease(row: Row) {
    row.token.Some? || row.expiresAt.Some?
  }

  function ReleasedRow(row: Row, now: int): Row {
    if HasLease(row) then row.(token := None, expiresAt := None, updatedAt := now) else row
  }

  function LeasedDeals(table: Table): set<string> {
    set d | d in table && HasLease(table[d])
  }

  /** Arguments that the guarded writes refuse before touching the table. */
  predicate Malformed(step: Step) {
    match step
    case Renew(_, token, _, _) => Blank(token)
    case Reschedule(_, token, _, errorCode, _) => Blank(token) || Blank(errorCode)
    case SetResource(_, token, phase, resource, _) => Blank(token) || phase == Pending || Blank(resource)
    case DeleteIfToken(_, token) => Blank(token)
    case _ => false
  }

  /** The statements whose `WHERE` clause names a claim token. */
  predicate Guarded(step: Step) {
    step.Renew? || step.Reschedule? || step.SetResource? || step.DeleteIfToken?
  }

  function GuardedWrite(table: Table, step: Step): Table
    requires Guarded(step) && step.deal in table
  {
    var row := table[step.deal];
    match step
    case Renew(d, _, expiresAt, now) => table[d := row.(expiresAt := Some(expiresAt), updatedAt := now)]
    case Reschedule(d, _, next, code, now) =>
      table[d := row.(token := None, expiresAt := None, nextAttemptAt := next, lastError := Some(code), updatedAt := now)]
    case SetResource(d, _, phase, resource, now) =>
      table[d := row.(phase := phase, resource := Some(resource), lastError := None, updatedAt := now)]
    case DeleteIfToken(d, _) => table - {d}
  }

  function Next(table: Table, step: Step): Outcome {
    match step
    case Insert(d, kind, request, createdAt) =>
      Outcome(if d in table then table else table[d := NewRow(kind, request, createdAt)], Done)
    case Claim(d, token, expiresAt, now) =>
      if d in table && Claimable(table[d], now) then
        var row := ClaimedRow(table[d], token, expiresAt, now);
        Outcome(table[d := row], Claimed(row))
      else Outcome(table, NotClaimed)
    case Delete(d) => Outcome(table - {d}, Applied(d in table))
    case ResetClaims(now) =>
      Outcome(map d | d in table :: ReleasedRow(table[d], now), Released(|LeasedDeals(table)|))
    case _ =>
      if Malformed(step) then Outcome(table, Refused)
      else if HeldBy(table, step.deal, step.token) then Outcome(GuardedWrite(table, step), Applied(true))
      else Outcome(table, Applied(false))
  }

  // ---------------------------------------------------------------- the due listing

  /** `ORDER BY next_attempt_at ASC, updated_at ASC, deal_id ASC`. */
  predicate DueOrder(a: (int, int, string), b: (int, int, string)) {
    || a.0 < b.0
    || (a.0 == b.0 && (a.1 < b.1 || (a.1 == b.1 && TextLeq(a.2, b.2))))
  }

  lemma DueOrderTotal()
    ensures TotalOrder(DueOrder)
  {
    TextOrder();
  }

  function DueKeys(table: Table, now: int): set<(int, int, string)> {
    set d | d in table && Claimable(table[d], now) :: (table[d].nextAttemptAt, table[d].updatedAt, d)
  }

  /** All due deals, before the `LIMIT`. */
  function DueDeals(table: Table, now: int): seq<string> {
    DueOrderTotal();
    var keys := Sorted(DueKeys(table, now), DueOrder);
    seq(|keys|, i requires 0 <= i < |keys| => keys[i].2)
  }

  function ListDue(table: Table, now: int, limit: nat): seq<string> {
    var due := DueDeals(table, now);
    due[..Min(Clamp(limit, 1, 128), |due|)]
  }

  /** A deal is listed as due at `now` exactly when a claim at `now` would succeed. */
  lemma DueExactlyWhenClaimable(table: Table, now: int, deal: string, token: string, expiresAt: int)
    ensures deal in DueDeals(table, now) <==> Next(table, Claim(deal, token, expiresAt, now)).reply.Claimed?
  {
    DueOrderTotal();
    var keys := Sorted(DueKeys(table, now), DueOrder);
    var due := DueDeals(table, now);
    if deal in due {
      var i :| 0 <= i < |due| && due[i] == deal;
      assert keys[i] in keys;
    }
    if deal in table && Claimable(table[deal], now) {
      assert (table[deal].nextAttemptAt, table[deal].updatedAt, deal) in keys;
      var i :| 0 <= i < |keys| && keys[i] == (table[deal].nextAttemptAt, table[deal].updatedAt, deal);
      assert due[i] == deal;
    }
  }

  function DueKey(table: Table, deal: string): (int, int, string)
    requires deal in table
  {
    (table[deal].nextAttemptAt, table[deal].updatedAt, deal)
  }

  /** Earlier next attempt first, then the longer untouched, then by deal id. */
  ghost predicate Earlier(table: Table, a: string, b: string)
    requires a in table && b in table
  {
    || table[a].nextAttemptAt < table[b].nextAttemptAt
    || (&& table[a].nextAttemptAt == table[b].nextAttemptAt
        && (|| table[a].updatedAt < table[b].updatedAt
            || (table[a].updatedAt == table[b].updatedAt && TextLeq(a, b))))
  }

  /** The due list holds each due deal once, in that order. */
  lemma DueIsOrdered(table: Table, now: int)
    ensures var due := DueDeals(table, now);
      && (forall i | 0 <= i < |due| :: due[i] in table)
      && (forall i, j | 0 <= i < j < |due| :: due[i] != due[j] && Earlier(table, due[i], due[j]))
  {
    DueOrderTotal();
    var keys := Sorted(DueKeys(table, now), DueOrder);
    var due := DueDeals(table, now);
    forall i | 0 <= i < |due| ensures due[i] in table && keys[i] == DueKey(table, due[i]) {
      assert keys[i] in keys;
      assert keys[i] in DueKeys(table, now);
    }
    forall i, j | 0 <= i < j < |due| ensures due[i] != due[j] && Earlier(table, due[i], due[j]) {
      assert DueOrder(keys[i], keys[j]) && keys[i] != keys[j];
    }
  }

  /** The limited listing takes the earliest due deals, at least one and at most 128: whatever
      it leaves out is due no earlier than anything it returns. */
  lemma LimitKeepsEarliest(table: Table, now: int, limit: nat, listed: string, left: string)
    requires listed in ListDue(table, now, limit)
    requires left in DueDeals(table, now) && left !in ListDue(table, now, limit)
    ensures listed in table && left in table && Earlier(table, listed, left)
    ensures |ListDue(table, now, limit)| == if limit < 1 then 1 else if limit > 128 then 128 else limit
  {
    DueIsOrdered(table, now);
    var due, some := DueDeals(table, now), ListDue(table, now, limit);
    var i :| 0 <= i < |some| && some[i] == listed;
    var j :| 0 <= j < |due| && due[j] == left;
    assert forall m | 0 <= m < |some| :: some[m] == due[m] && due[m] in some;
  }

  // ---------------------------------------------------------------- the table, in place

  class MaterializationTable {
    var rows: Table

    constructor ()
      ensures rows == map[]
    {
      rows := map[];
    }

    method InsertRow(deal: string, kind: string, request: string, createdAt: int)
      modifies this
      ensures Outcome(rows, Done) == Next(old(rows), Insert(deal, kind, request, createdAt))
    {
      if deal !in rows {
        rows := rows[deal := NewRow(kind, request, createdAt)];
      }
    }

    method ClaimRow(deal: string, token: string, expiresAt: int, now: int) returns (r: Reply)
      modifies this
      ensures Outcome(rows, r) == Next(old(rows), Claim(deal, token, expiresAt, now))
      ensures r.Claimed? ==> HeldBy(rows, deal, token) && r.row == rows[deal]
    {
      r := NotClaimed;
      if deal in rows {
        var row := rows[deal];
        if row.nextAttemptAt <= now && (row.token.None? || row.expiresAt.None? || row.expiresAt.value <= now) {
          row := row.(token := Some(token), expiresAt := Some(expiresAt), attempts := row.attempts + 1, updatedAt := now);
          rows := rows[deal := row];
          r := Claimed(row);
        }
      }
    }

    method RenewClaim(deal: string, token: string, expiresAt: int, now: int) returns (r: Reply)
      modifies this
      ensures Outcome(rows, r) == Next(old(rows), Renew(deal, token, expiresAt, now))
    {
      if Blank(token) {
        return Refused;
      }
      if deal in rows && rows[deal].token == Some(token) {
        rows := rows[deal := rows[deal].(expiresAt := Some(expiresAt), updatedAt := now)];
        return Applied(true);
      }
      r := Applied(false);
    }

    method RescheduleIfToken(deal: string, token: string, nextAttemptAt: int, errorCode: string, now: int)
      returns (r: Reply)
      modifies this
      ensures Outcome(rows, r) == Next(old(rows), Reschedule(deal, token, nextAttemptAt, errorCode, now))
    {
      if Blank(token) || Blank(errorCode) {
        return Refused;
      }
      if deal in rows && rows[deal].token == Some(token) {
        rows := rows[deal := rows[deal].(
          token := None, expiresAt := None, nextAttemptAt := nextAttemptAt,
          lastError := Some(errorCode), updatedAt := now)];
        return Applied(true);
      }
      r := Applied(false);
    }

    method SetResourceIfToken(deal: string, token: string, phase: Phase, resource: string, now: int)
      returns (r: Reply)
      modifies this
      ensures Outcome(rows, r) == Next(old(rows), SetResource(deal, token, phase, resource, now))
    {
      if Blank(token) || phase == Pending || Blank(resource) {
        return Refused;
      }
      if deal in rows && rows[deal].token == Some(token) {
        rows := rows[deal := rows[deal].(
          phase := phase, resource := Some(resource), lastError := None, updatedAt := now)];
        return Applied(true);
      }
      r := Applied(false);
    }

    method DeleteRow(deal: string) returns (r: Reply)
      modifies this
      ensures Outcome(rows, r) == Next(old(rows), Delete(deal))
    {
      r := Applied(deal in rows);
      rows := rows - {deal};
    }

    method DeleteRowIfToken(deal: string, token: string) returns (r: Reply)
      modifies this
      ensures Outcome(rows, r) == Next(old(rows), DeleteIfToken(deal, token))
    {
      if Blank(token) {
        return Refused;
      }
      if deal in rows && rows[deal].token == Some(token) {
        rows := rows - {deal};
        return Applied(true);
      }
      r := Applied(false);
    }

    method ResetAllClaims(now: int) returns (r: Reply)
      modifies this
      ensures Outcome(rows, r) == Next(old(rows), ResetClaims(now))
    {
      var leased := LeasedDeals(rows);
      rows := map d | d in rows ::
        if d in leased then rows[d].(token := None, expiresAt := None, updatedAt := now) else rows[d];
      r := Released(|leased|);
    }
  }
}
