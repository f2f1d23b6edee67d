/** Lease properties over whole runs, stated in terms of which statements succeeded. */
module LeaseRuns {
  import opened Common
  import opened Leases

  /** A run: the statements, the table before and after each, and the replies. */
  datatype Run = Run(steps: seq<Step>, tables: seq<Table>, replies: seq<Reply>)

  ghost predicate Follows(run: Run, k: nat)
    requires k < |run.steps| && k + 1 < |run.tables| && k < |run.replies|
  {
    Next(run.tables[k], run.steps[k]) == Outcome(run.tables[k + 1], run.replies[k])
  }

  ghost predicate IsRun(run: Run) {
    && |run.tables| == |run.steps| + 1 && |run.replies| == |run.steps|
    && run.tables[0] == map[]
    && forall k | 0 <= k < |run.steps| :: Follows(run, k)
  }

  /** Every sequence of statements has a run. */
  lemma {:induction false} RunsExist(steps: seq<Step>) returns (run: Run)
    ensures IsRun(run) && run.steps == steps
  {
    if steps == [] {
      run := Run([], [map[]], []);
    } else {
      var last := |steps| - 1;
      var before := RunsExist(steps[..last]);
      var o := Next(before.tables[last], steps[last]);
      run := Run(steps, before.tables + [o.table], before.replies + [o.reply]);
      forall k | 0 <= k < |steps| ensures Follows(run, k) {
        if k < last {
          assert Follows(before, k);
        }
      }
    }
  }

  // ---------------------------------------------------------------- events of a run

  /** Statement `k` is a successful claim of the deal, under `token`. */
  ghost predicate ClaimsAt(run: Run, k: nat, deal: string, token: string)
    requires IsRun(run) && k < |run.steps|
  {
    run.steps[k].Claim? && run.steps[k].deal == deal && run.steps[k].token == token && run.replies[k].Claimed?
  }

  /** Statement `k` ends whatever claim the deal had: a later claim, a successful
      reschedule, a deletion of the row, or a restart. */
  ghost predicate EndsClaimAt(run: Run, k: nat, deal: string)
    requires IsRun(run) && k < |run.steps|
  {
    match run.steps[k]
    case Claim(d, _, _, _) => d == deal && run.replies[k].Claimed?
    case Reschedule(d, _, _, _, _) => d == deal && run.replies[k] == Applied(true)
    case Delete(d) => d == deal && run.replies[k] == Applied(true)
    case DeleteIfToken(d, _) => d == deal && run.replies[k] == Applied(true)
    case ResetClaims(_) => true
    case _ => false
  }

  /** The claim made by statement `j` is the latest on the deal and nothing ended it before `k`. */
  ghost predicate LiveClaim(run: Run, j: nat, k: nat, deal: string, token: string)
    requires IsRun(run) && j < k < |run.tables|
  {
    && ClaimsAt(run, j, deal, token)
    && forall m | j < m < k :: !EndsClaimAt(run, m, deal)
  }

  ghost predicate Holds(run: Run, k: nat, deal: string, token: string)
    requires IsRun(run) && k < |run.tables|
  {
    exists j | 0 <= j < k :: LiveClaim(run, j, k, deal, token)
  }

  /** Claim tokens are random: no two claim statements of a run carry the same one. */
  ghost predicate DistinctTokens(run: Run) {
    forall i, j | 0 <= i < j < |run.steps| && run.steps[i].Claim? && run.steps[j].Claim? ::
      run.steps[i].token != run.steps[j].token
  }

  // ---------------------------------------------------------------- fencing

  lemma StepMovesToken(table: Table, step: Step, deal: string, token: string)
    ensures var o := Next(table, step);
      HeldBy(o.table, deal, token) <==>
        || (step.Claim? && step.deal == deal && step.token == token && o.reply.Claimed?)
        || (&& HeldBy(table, deal, token)
            && !(step.Claim? && step.deal == deal && o.reply.Claimed?)
            && !((step.Reschedule? || step.Delete? || step.DeleteIfToken?) && step.deal == deal && o.reply == Applied(true))
            && !step.ResetClaims?)
  {
  }

  /** The stored token of a deal is exactly the live claim of the run. */
  lemma {:induction false} TokenIsLiveClaim(run: Run, k: nat, deal: string, token: string)
    requires IsRun(run) && k < |run.tables|
    ensures HeldBy(run.tables[k], deal, token) <==> Holds(run, k, deal, token)
  {
    if k > 0 {
      var p := k - 1;
      TokenIsLiveClaim(run, p, deal, token);
      assert Follows(run, p);
      StepMovesToken(run.tables[p], run.steps[p], deal, token);
      if ClaimsAt(run, p, deal, token) {
        assert LiveClaim(run, p, k, deal, token);
      } else if Holds(run, p, deal, token) && !EndsClaimAt(run, p, deal) {
        var j :| 0 <= j < p && LiveClaim(run, j, p, deal, token);
        assert LiveClaim(run, j, k, deal, token);
      }
      if j :| 0 <= j < p && LiveClaim(run, j, k, deal, token) {
        assert LiveClaim(run, j, p, deal, token);
      }
    }
  }

  /** Fencing: a well-formed token-guarded write succeeds if and only if its token belongs to
      the latest successful claim on that row and that claim has not been ended. */
  lemma GuardedWriteSucceedsIffHeld(run: Run, k: nat)
    requires IsRun(run) && k < |run.steps| && Guarded(run.steps[k]) && !Malformed(run.steps[k])
    ensures run.replies[k] == Applied(Holds(run, k, run.steps[k].deal, run.steps[k].token))
  {
    assert Follows(run, k);
    TokenIsLiveClaim(run, k, run.steps[k].deal, run.steps[k].token);
  }

  /** With distinct tokens, a worker whose claim was superseded or ended can never write
      again: not after any later statement, re-insert or restart. */
  lemma EndedClaimIsFencedOut(run: Run, j: nat, m: nat, k: nat)
    requires IsRun(run) && j < m < k < |run.steps| && DistinctTokens(run)
    requires run.steps[j].Claim? && run.replies[j].Claimed?
    requires EndsClaimAt(run, m, run.steps[j].deal)
    requires Guarded(run.steps[k]) && run.steps[k].token == run.steps[j].token
    ensures run.replies[k] != Applied(true)
    ensures run.tables[k + 1] == run.tables[k]
  {
    assert Follows(run, k);
    var token := run.steps[j].token;
    TokenIsLiveClaim(run, k, run.steps[k].deal, token);
    if Holds(run, k, run.steps[k].deal, token) {
      var i :| 0 <= i < k && LiveClaim(run, i, k, run.steps[k].deal, token);
    }
  }

  // ---------------------------------------------------------------- expiry

  /** Statement `k` sets the lease of the deal to expire at `expiresAt`: a successful claim
      or renewal. */
  ghost predicate LeasesAt(run: Run, k: nat, deal: string, expiresAt: int)
    requires IsRun(run) && k < |run.steps|
  {
    || (&& run.steps[k].Claim? && run.steps[k].deal == deal && run.steps[k].expiresAt == expiresAt
        && run.replies[k].Claimed?)
    || (&& run.steps[k].Renew? && run.steps[k].deal == deal && run.steps[k].expiresAt == expiresAt
        && run.replies[k] == Applied(true))
  }

  ghost predicate RenewsAt(run: Run, k: nat, deal: string)
    requires IsRun(run) && k < |run.steps|
  {
    run.steps[k].Renew? && run.steps[k].deal == deal && run.replies[k] == Applied(true)
  }

  /** Nothing between `j` and `k` ended the claim or moved its expiry. */
  ghost predicate LastLease(run: Run, j: nat, k: nat, deal: string, expiresAt: int)
    requires IsRun(run) && j < k < |run.tables|
  {
    && LeasesAt(run, j, deal, expiresAt)
    && forall m | j < m < k :: !EndsClaimAt(run, m, deal) && !RenewsAt(run, m, deal)
  }

  lemma {:induction false} LeaseIsStored(run: Run, j: nat, k: nat, deal: string, expiresAt: int)
    requires IsRun(run) && j < k < |run.tables| && LastLease(run, j, k, deal, expiresAt)
    ensures deal in run.tables[k]
    ensures run.tables[k][deal].token.Some? && run.tables[k][deal].expiresAt == Some(expiresAt)
    decreases k
  {
    assert Follows(run, k - 1);
    if j + 1 < k {
      assert LastLease(run, j, k - 1, deal, expiresAt);
      LeaseIsStored(run, j, k - 1, deal, expiresAt);
      assert !EndsClaimAt(run, k - 1, deal) && !RenewsAt(run, k - 1, deal);
    }
  }

  /** A takeover succeeds only at or after the expiry the holder last set. */
  lemma TakeoverOnlyAfterExpiry(run: Run, j: nat, k: nat, deal: string, expiresAt: int)
    requires IsRun(run) && j < k < |run.steps| && LastLease(run, j, k, deal, expiresAt)
    requires run.steps[k].Claim? && run.steps[k].deal == deal && run.replies[k].Claimed?
    ensures expiresAt <= run.steps[k].now
  {
    assert Follows(run, k);
    LeaseIsStored(run, j, k, deal, expiresAt);
  }

  /** Since the lease was set at `j`, nobody renewed it, and whatever ended it was a rival
      claim made before the expiry. */
  ghost predicate Undisturbed(run: Run, j: nat, k: nat, deal: string, expiresAt: int)
    requires IsRun(run) && j < k < |run.tables|
  {
    forall m | j < m < k ::
      && !RenewsAt(run, m, deal)
      && (EndsClaimAt(run, m, deal) ==> run.steps[m].Claim? && run.steps[m].now < expiresAt)
  }

  lemma {:induction false} LeaseSurvivesUntilExpiry(run: Run, j: nat, k: nat, deal: string, expiresAt: int)
    requires IsRun(run) && j < k < |run.tables| && LeasesAt(run, j, deal, expiresAt)
    requires Undisturbed(run, j, k, deal, expiresAt)
    ensures LastLease(run, j, k, deal, expiresAt)
    ensures HeldBy(run.tables[k], deal, run.steps[j].token)
    decreases k
  {
    assert Follows(run, k - 1);
    if j + 1 < k {
      assert Undisturbed(run, j, k - 1, deal, expiresAt);
      LeaseSurvivesUntilExpiry(run, j, k - 1, deal, expiresAt);
      LeaseIsStored(run, j, k - 1, deal, expiresAt);
      assert !EndsClaimAt(run, k - 1, deal);
      StepMovesToken(run.tables[k - 1], run.steps[k - 1], deal, run.steps[j].token);
    }
  }

  /** A holder is safe until its lease expires: if since the claim or renewal at `j` nobody
      deleted, released or renewed the row and every rival claim came before the expiry,
      then a guarded write under that token still succeeds. */
  lemma HolderIsSafeUntilExpiry(run: Run, j: nat, k: nat, deal: string, expiresAt: int)
    requires IsRun(run) && j < k < |run.steps| && LeasesAt(run, j, deal, expiresAt)
    requires Undisturbed(run, j, k, deal, expiresAt)
    requires Guarded(run.steps[k]) && !Malformed(run.steps[k])
    requires run.steps[k].deal == deal && run.steps[k].token == run.steps[j].token
    ensures run.replies[k] == Applied(true)
  {
    assert Follows(run, k);
    LeaseSurvivesUntilExpiry(run, j, k, deal, expiresAt);
  }

  /** Expiry alone does not end a claim: a lease that ran out at 5 is renewed at 10. */
  lemma ExpiredLeaseIsRenewed() returns (run: Run)
    ensures IsRun(run)
    ensures run.steps == [Insert("d", "k", "q", 0), Claim("d", "t", 5, 0), Renew("d", "t", 20, 10)]
    ensures LeasesAt(run, 1, "d", 5) && 5 < run.steps[2].now
    ensures run.replies[2] == Applied(true)
  {
    run := RunsExist([Insert("d", "k", "q", 0), Claim("d", "t", 5, 0), Renew("d", "t", 20, 10)]);
    assert Follows(run, 0) && Follows(run, 1) && Follows(run, 2);
    assert !Blank("t") by {
      assert !IsWhitespace("t"[0]);
    }
  }

  // ---------------------------------------------------------------- row contents

  /** Token and expiry are set together; the phase is pending exactly while no resource is
      recorded. */
  ghost predicate RowShape(row: Row) {
    && (row.token.Some? <==> row.expiresAt.Some?)
    && (row.phase == Pending <==> row.resource.None?)
  }

  lemma {:induction false} RowsKeepShape(run: Run, k: nat)
    requires IsRun(run) && k < |run.tables|
    ensures forall d | d in run.tables[k] :: RowShape(run.tables[k][d])
  {
    if k > 0 {
      RowsKeepShape(run, k - 1);
      assert Follows(run, k - 1);
    }
  }

  /** Statement `k` creates the row of the deal. */
  ghost predicate CreatesAt(run: Run, k: nat, deal: string)
    requires IsRun(run) && k < |run.steps|
  {
    run.steps[k].Insert? && run.steps[k].deal == deal && deal !in run.tables[k]
  }

  /** Successful claims of the deal since its row was last created. */
  ghost function ClaimsSinceInsert(run: Run, k: nat, deal: string): nat
    requires IsRun(run) && k < |run.tables|
  {
    if k == 0 || CreatesAt(run, k - 1, deal) then 0
    else
      ClaimsSinceInsert(run, k - 1, deal)
      + if run.steps[k - 1].Claim? && ClaimsAt(run, k - 1, deal, run.steps[k - 1].token) then 1 else 0
  }

  lemma {:induction false} AttemptsCountClaims(run: Run, k: nat, deal: string)
    requires IsRun(run) && k < |run.tables| && deal in run.tables[k]
    ensures run.tables[k][deal].attempts == ClaimsSinceInsert(run, k, deal)
  {
    assert Follows(run, k - 1);
    if !CreatesAt(run, k - 1, deal) {
      AttemptsCountClaims(run, k - 1, deal);
    }
  }

  ghost predicate RecordsAt(run: Run, k: nat, deal: string)
    requires IsRun(run) && k < |run.steps|
  {
    run.steps[k].SetResource? && run.steps[k].deal == deal && run.replies[k] == Applied(true)
  }

  ghost predicate DeletesAt(run: Run, k: nat, deal: string)
    requires IsRun(run) && k < |run.steps|
  {
    (run.steps[k].Delete? || run.steps[k].DeleteIfToken?) && run.steps[k].deal == deal && run.replies[k] == Applied(true)
  }

  /** Statement `j` recorded this phase and resource, and nothing since has recorded another
      or deleted the row. */
  ghost predicate LastRecord(run: Run, j: nat, k: nat, deal: string, phase: Phase, resource: string)
    requires IsRun(run) && j < k < |run.tables|
  {
    && RecordsAt(run, j, deal) && run.steps[j].phase == phase && run.steps[j].resource == resource
    && forall m | j < m < k :: !RecordsAt(run, m, deal) && !DeletesAt(run, m, deal)
  }

  ghost predicate Carries(table: Table, deal: string, phase: Phase, resource: string) {
    deal in table && table[deal].phase == phase && table[deal].resource == Some(resource)
  }

  lemma StepMovesResource(table: Table, step: Step, deal: string, phase: Phase, resource: string)
    ensures var o := Next(table, step);
      Carries(o.table, deal, phase, resource) <==>
        if step.SetResource? && step.deal == deal && o.reply == Applied(true)
        then step.phase == phase && step.resource == resource
        else Carries(table, deal, phase, resource) &&
             !((step.Delete? || step.DeleteIfToken?) && step.deal == deal && o.reply == Applied(true))
  {
  }

  /** A row carries a resource exactly when some statement recorded it since; claims,
      renewals, retries and restarts do not lose it. */
  lemma {:induction false} ResourceSurvivesUntilDeleted(run: Run, k: nat, deal: string, phase: Phase, resource: string)
    requires IsRun(run) && k < |run.tables|
    ensures Carries(run.tables[k], deal, phase, resource)
      <==> exists j | 0 <= j < k :: LastRecord(run, j, k, deal, phase, resource)
  {
    if k > 0 {
      var p := k - 1;
      ResourceSurvivesUntilDeleted(run, p, deal, phase, resource);
      assert Follows(run, p);
      StepMovesResource(run.tables[p], run.steps[p], deal, phase, resource);
      if RecordsAt(run, p, deal) {
        if run.steps[p].phase == phase && run.steps[p].resource == resource {
          assert LastRecord(run, p, k, deal, phase, resource);
        }
      } else if !DeletesAt(run, p, deal) {
        if j :| 0 <= j < p && LastRecord(run, j, p, deal, phase, resource) {
          assert LastRecord(run, j, k, deal, phase, resource);
        }
      }
      if j :| 0 <= j < p && LastRecord(run, j, k, deal, phase, resource) {
        assert LastRecord(run, j, p, deal, phase, resource);
      }
    }
  }
}
