/** What the lease statements store and when a claim succeeds, over whole runs and in terms of
    the statements before and their replies. */
module LeaseEffects {
  import opened Common
  import opened Histories
  import opened Leases
  import opened LeaseRuns

  // ---------------------------------------------------------------- columns

  /** All columns but the attempt count, which `AttemptsCountClaims` describes. */
  datatype Column =
    | KindColumn | RequestColumn | PhaseColumn | ResourceColumn | NextAttemptColumn
    | LastErrorColumn | TokenColumn | ExpiryColumn | CreatedAtColumn | UpdatedAtColumn

  datatype Cell = Null | Text(text: string) | Number(number: int) | State(phase: Phase)

  function OptionalText(o: Option<string>): Cell {
    if o.Some? then Text(o.value) else Null
  }

  function CellOf(r: Row, c: Column): Cell {
    match c
    case KindColumn => Text(r.kind)
    case RequestColumn => Text(r.request)
    case PhaseColumn => State(r.phase)
    case ResourceColumn => OptionalText(r.resource)
    case NextAttemptColumn => Number(r.nextAttemptAt)
    case LastErrorColumn => OptionalText(r.lastError)
    case TokenColumn => OptionalText(r.token)
    case ExpiryColumn => if r.expiresAt.Some? then Number(r.expiresAt.value) else Null
    case CreatedAtColumn => Number(r.createdAt)
    case UpdatedAtColumn => Number(r.updatedAt)
  }

  function InsertedCell(kind: string, request: string, createdAt: int, c: Column): Cell {
    match c
    case KindColumn => Text(kind)
    case RequestColumn => Text(request)
    case PhaseColumn => State(Pending)
    case ResourceColumn => Null
    case NextAttemptColumn => Number(createdAt)
    case LastErrorColumn => Null
    case TokenColumn => Null
    case ExpiryColumn => Null
    case CreatedAtColumn => Number(createdAt)
    case UpdatedAtColumn => Number(createdAt)
  }

  /** What a claim or guarded write that takes effect assigns to a column. */
  function Assigned(step: Step, c: Column): Option<Cell> {
    match step
    case Claim(_, token, expiresAt, now) =>
      (match c
       case TokenColumn => Some(Text(token))
       case ExpiryColumn => Some(Number(expiresAt))
       case UpdatedAtColumn => Some(Number(now))
       case _ => None)
    case Renew(_, _, expiresAt, now) =>
      (match c
       case ExpiryColumn => Some(Number(expiresAt))
       case UpdatedAtColumn => Some(Number(now))
       case _ => None)
    case Reschedule(_, _, nextAttemptAt, errorCode, now) =>
      (match c
       case TokenColumn => Some(Null)
       case ExpiryColumn => Some(Null)
       case NextAttemptColumn => Some(Number(nextAttemptAt))
       case LastErrorColumn => Some(Text(errorCode))
       case UpdatedAtColumn => Some(Number(now))
       case _ => None)
    case SetResource(_, _, phase, resource, now) =>
      (match c
       case PhaseColumn => Some(State(phase))
       case ResourceColumn => Some(Text(resource))
       case LastErrorColumn => Some(Null)
       case UpdatedAtColumn => Some(Number(now))
       case _ => None)
    case ResetClaims(now) =>
      (match c
       case TokenColumn => Some(Null)
       case ExpiryColumn => Some(Null)
       case UpdatedAtColumn => Some(Number(now))
       case _ => None)
    case _ => None
  }

  /** The row has a lease; a restart touches no other row. */
  ghost predicate Leased(table: Table, deal: string) {
    deal in table && (table[deal].token.Some? || table[deal].expiresAt.Some?)
  }

  ghost predicate TookEffect(table: Table, step: Step, reply: Reply, deal: string) {
    match step
    case Claim(d, _, _, _) => d == deal && reply.Claimed?
    case ResetClaims(_) => Leased(table, deal)
    case Insert(_, _, _, _) => false
    case Delete(_) => false
    case DeleteIfToken(_, _) => false
    case _ => step.deal == deal && reply == Applied(true)
  }

  /** What one statement does to a column of a row: an insert of a missing row fills it, a
      deletion that took effect removes the row, other statements assign. */
  ghost function ColumnWrite(table: Table, step: Step, reply: Reply, deal: string, c: Column): Option<Option<Cell>> {
    if step.Insert? then
      if step.deal == deal && deal !in table
      then Some(Some(InsertedCell(step.kind, step.request, step.createdAt, c)))
      else None
    else if step.Delete? || step.DeleteIfToken? then
      if step.deal == deal && reply == Applied(true) then Some(None) else None
    else if TookEffect(table, step, reply, deal) && Assigned(step, c).Some? then Some(Assigned(step, c))
    else None
  }

  ghost function ColumnOf(table: Table, deal: string, c: Column): Option<Cell> {
    if deal in table then Some(CellOf(table[deal], c)) else None
  }

  lemma StepMovesColumn(table: Table, step: Step, deal: string, c: Column)
    ensures var o := Next(table, step);
      var w := ColumnWrite(table, step, o.reply, deal, c);
      ColumnOf(o.table, deal, c) == if w.Some? then w.value else ColumnOf(table, deal, c)
  {
  }

  ghost function ColumnWrites(run: Run, deal: string, c: Column): seq<Option<Option<Cell>>>
    requires IsRun(run)
  {
    seq(|run.steps|, k requires 0 <= k < |run.steps| =>
      ColumnWrite(run.tables[k], run.steps[k], run.replies[k], deal, c))
  }

  ghost function ColumnValues(run: Run, deal: string, c: Column): seq<Option<Cell>> {
    seq(|run.tables|, k requires 0 <= k < |run.tables| => ColumnOf(run.tables[k], deal, c))
  }

  /** Every column of every row, in every reachable state, holds what the last statement that
      wrote it since the row was inserted wrote; and a row is missing when none was inserted
      or it was deleted since. */
  lemma ColumnIsLastWritten(run: Run, k: nat, deal: string, c: Column, x: Option<Cell>)
    requires IsRun(run) && k < |run.tables|
    ensures ColumnOf(run.tables[k], deal, c) == x <==> LastHolds(ColumnWrites(run, deal, c), None, k, x)
  {
    var writes, values := ColumnWrites(run, deal, c), ColumnValues(run, deal, c);
    forall m | 0 <= m < |writes| ensures values[m + 1] == if writes[m].Some? then writes[m].value else values[m] {
      assert Follows(run, m);
      StepMovesColumn(run.tables[m], run.steps[m], deal, c);
    }
    ValueIsLastWrite(writes, values, k, x);
  }

  // ---------------------------------------------------------------- when a claim succeeds

  ghost predicate SetsDue(table: Table, step: Step, reply: Reply, deal: string, due: int) {
    || (step.Insert? && step.deal == deal && deal !in table && step.createdAt == due)
    || (step.Reschedule? && step.deal == deal && reply == Applied(true) && step.nextAttemptAt == due)
  }

  /** Statement `k` sets the time of the next attempt: the insert of the row, or a successful
      reschedule. */
  ghost predicate SetsDueAt(run: Run, k: nat, deal: string, due: int)
    requires IsRun(run) && k < |run.steps|
  {
    SetsDue(run.tables[k], run.steps[k], run.replies[k], deal, due)
  }

  ghost predicate MovesDueAt(run: Run, k: nat, deal: string)
    requires IsRun(run) && k < |run.steps|
  {
    DeletesAt(run, k, deal) || exists due :: SetsDueAt(run, k, deal, due)
  }

  /** `due` was set last, and the row was not deleted since. */
  ghost predicate LastDue(run: Run, j: nat, k: nat, deal: string, due: int)
    requires IsRun(run) && j < k < |run.tables|
  {
    SetsDueAt(run, j, deal, due) && forall m | j < m < k :: !MovesDueAt(run, m, deal)
  }

  lemma StepMovesDue(table: Table, step: Step, deal: string, due: int)
    ensures var o := Next(table, step);
      (deal in o.table && o.table[deal].nextAttemptAt == due) <==>
        || SetsDue(table, step, o.reply, deal, due)
        || (&& deal in table && table[deal].nextAttemptAt == due
            && !(step.Reschedule? && step.deal == deal && o.reply == Applied(true))
            && !((step.Delete? || step.DeleteIfToken?) && step.deal == deal && o.reply == Applied(true)))
  {
  }

  /** Statement `p` moves the due time exactly by inserting, rescheduling or deleting. */
  lemma MovesDueExactly(run: Run, p: nat, deal: string)
    requires IsRun(run) && p < |run.steps|
    ensures var step, reply := run.steps[p], run.replies[p];
      MovesDueAt(run, p, deal) <==>
        || DeletesAt(run, p, deal)
        || (step.Insert? && step.deal == deal && deal !in run.tables[p])
        || (step.Reschedule? && step.deal == deal && reply == Applied(true))
  {
    var step := run.steps[p];
    if step.Insert? && step.deal == deal && deal !in run.tables[p] {
      assert SetsDueAt(run, p, deal, step.createdAt);
    }
    if step.Reschedule? && step.deal == deal && run.replies[p] == Applied(true) {
      assert SetsDueAt(run, p, deal, step.nextAttemptAt);
    }
  }

  lemma {:induction false} DueIsLastSet(run: Run, k: nat, deal: string, due: int)
    requires IsRun(run) && k < |run.tables|
    ensures (deal in run.tables[k] && run.tables[k][deal].nextAttemptAt == due) <==>
      exists j | 0 <= j < k :: LastDue(run, j, k, deal, due)
  {
    if k > 0 {
      var p := k - 1;
      DueIsLastSet(run, p, deal, due);
      assert Follows(run, p);
      StepMovesDue(run.tables[p], run.steps[p], deal, due);
      MovesDueExactly(run, p, deal);
      if SetsDueAt(run, p, deal, due) {
        assert LastDue(run, p, k, deal, due);
      } else if !MovesDueAt(run, p, deal) {
        if j :| 0 <= j < p && LastDue(run, j, p, deal, due) {
          assert LastDue(run, j, k, deal, due);
        }
      }
      if j :| 0 <= j < p && LastDue(run, j, k, deal, due) {
        assert LastDue(run, j, p, deal, due);
        assert !MovesDueAt(run, p, deal);
      }
    }
  }

  ghost predicate LeasedUntil(table: Table, deal: string, expiresAt: int) {
    deal in table && table[deal].token.Some? && table[deal].expiresAt == Some(expiresAt)
  }

  lemma StepMovesLease(table: Table, step: Step, deal: string, expiresAt: int)
    requires deal in table ==> RowShape(table[deal])
    ensures var o := Next(table, step);
      var claims := step.Claim? && step.deal == deal && o.reply.Claimed?;
      var renews := step.Renew? && step.deal == deal && o.reply == Applied(true);
      var ends :=
        || ((step.Reschedule? || step.Delete? || step.DeleteIfToken?) && step.deal == deal && o.reply == Applied(true))
        || step.ResetClaims?;
      LeasedUntil(o.table, deal, expiresAt) <==>
        if claims || renews then step.expiresAt == expiresAt else LeasedUntil(table, deal, expiresAt) && !ends
  {
  }

  /** A row is leased exactly until the time its last unended claim or renewal set. */
  lemma {:induction false} LeaseIsLastSet(run: Run, k: nat, deal: string, expiresAt: int)
    requires IsRun(run) && k < |run.tables|
    ensures LeasedUntil(run.tables[k], deal, expiresAt) <==>
      exists j | 0 <= j < k :: LastLease(run, j, k, deal, expiresAt)
  {
    if k > 0 {
      var p := k - 1;
      LeaseIsLastSet(run, p, deal, expiresAt);
      RowsKeepShape(run, p);
      assert Follows(run, p);
      StepMovesLease(run.tables[p], run.steps[p], deal, expiresAt);
      if LeasesAt(run, p, deal, expiresAt) {
        assert LastLease(run, p, k, deal, expiresAt);
      } else if !EndsClaimAt(run, p, deal) && !RenewsAt(run, p, deal) {
        if j :| 0 <= j < p && LastLease(run, j, p, deal, expiresAt) {
          assert LastLease(run, j, k, deal, expiresAt);
        }
      }
      if j :| 0 <= j < p && LastLease(run, j, k, deal, expiresAt) {
        assert LastLease(run, j, p, deal, expiresAt);
        assert !EndsClaimAt(run, p, deal) && !RenewsAt(run, p, deal);
      }
    }
  }

  /** The time of the next attempt, as the statements before `k` set it, is at or before `now`. */
  ghost predicate DueBy(run: Run, k: nat, deal: string, now: int)
    requires IsRun(run) && k < |run.tables|
  {
    exists due | due <= now :: DueAt(run, k, deal, due)
  }

  ghost predicate DueAt(run: Run, k: nat, deal: string, due: int)
    requires IsRun(run) && k < |run.tables|
  {
    exists j | 0 <= j < k :: LastDue(run, j, k, deal, due)
  }

  /** A lease that nothing has ended expires after `now`. */
  ghost predicate LeasedPast(run: Run, k: nat, deal: string, now: int)
    requires IsRun(run) && k < |run.tables|
  {
    exists expiresAt | now < expiresAt :: LeaseAt(run, k, deal, expiresAt)
  }

  ghost predicate LeaseAt(run: Run, k: nat, deal: string, expiresAt: int)
    requires IsRun(run) && k < |run.tables|
  {
    exists j | 0 <= j < k :: LastLease(run, j, k, deal, expiresAt)
  }

  /** A claim at `now` succeeds if and only if the row exists, the time set by its last
      successful reschedule, else by its insert, is at or before `now`, and no unended lease
      on it expires after `now`. */
  lemma ClaimSucceedsExactly(run: Run, k: nat)
    requires IsRun(run) && k < |run.steps| && run.steps[k].Claim?
    ensures var step := run.steps[k];
      run.replies[k].Claimed? <==> DueBy(run, k, step.deal, step.now) && !LeasedPast(run, k, step.deal, step.now)
  {
    var table, deal, now := run.tables[k], run.steps[k].deal, run.steps[k].now;
    assert Follows(run, k);
    RowsKeepShape(run, k);
    forall due ensures DueAt(run, k, deal, due) <==> deal in table && table[deal].nextAttemptAt == due {
      DueIsLastSet(run, k, deal, due);
    }
    forall expiresAt ensures LeaseAt(run, k, deal, expiresAt) <==> LeasedUntil(table, deal, expiresAt) {
      LeaseIsLastSet(run, k, deal, expiresAt);
    }
    if deal in table {
      assert DueAt(run, k, deal, table[deal].nextAttemptAt);
      if table[deal].token.Some? {
        assert LeaseAt(run, k, deal, table[deal].expiresAt.value);
      }
    }
  }

  ghost predicate HasInk(text: string) {
    exists i | 0 <= i < |text| :: !IsWhitespace(text[i])
  }

  /** A guarded write is refused, unread, exactly when its token is blank, a retry has a blank
      error code, or a record has a blank resource or the pending phase. */
  lemma RefusedExactly(run: Run, k: nat)
    requires IsRun(run) && k < |run.steps|
    ensures var step := run.steps[k];
      run.replies[k].Refused? <==>
        && (step.Renew? || step.Reschedule? || step.SetResource? || step.DeleteIfToken?)
        && (|| !HasInk(step.token)
            || (step.Reschedule? && !HasInk(step.errorCode))
            || (step.SetResource? && (step.phase == Pending || !HasInk(step.resource))))
  {
    assert Follows(run, k);
  }

  /** What a successful claim returns: the stored row, under the caller's token and expiry. */
  lemma ClaimReturnsRow(run: Run, k: nat)
    requires IsRun(run) && k < |run.steps| && run.steps[k].Claim? && run.replies[k].Claimed?
    ensures var step, row := run.steps[k], run.replies[k].row;
      && step.deal in run.tables[k] && step.deal in run.tables[k + 1] && row == run.tables[k + 1][step.deal]
      && row.token == Some(step.token) && row.expiresAt == Some(step.expiresAt)
      && row.attempts == run.tables[k][step.deal].attempts + 1
  {
    assert Follows(run, k);
  }

  ghost function Holders(run: Run, k: nat): set<string>
    requires IsRun(run) && k < |run.tables|
  {
    set d | d in run.tables[k] && exists token :: LeaseRuns.Holds(run, k, d, token)
  }

  /** A restart reports how many rows had a live claim. */
  lemma RestartCountsHolders(run: Run, k: nat)
    requires IsRun(run) && k < |run.steps| && run.steps[k].ResetClaims?
    ensures run.replies[k] == Released(|Holders(run, k)|)
  {
    assert Follows(run, k);
    RowsKeepShape(run, k);
    var table := run.tables[k];
    forall d | d in table ensures HasLease(table[d]) <==> exists token :: LeaseRuns.Holds(run, k, d, token) {
      if table[d].token.Some? {
        TokenIsLiveClaim(run, k, d, table[d].token.value);
      }
      forall token | LeaseRuns.Holds(run, k, d, token) ensures HasLease(table[d]) {
        TokenIsLiveClaim(run, k, d, token);
      }
    }
    assert LeasedDeals(table) == Holders(run, k);
  }
}
