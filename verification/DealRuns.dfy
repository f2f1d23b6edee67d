/** Deal properties over whole runs: single-use quotes, replay, the status machine and the
    row shape each status implies. */
module DealRuns {
  import opened Common
  import opened Deals

  /** What the source demands of the caller of an admission: the column holds the hash of the
      signed artifact, and the deal starts accepted or waiting for payment. */
  ghost predicate WellFormed(step: Step) {
    step.Admit? ==>
      step.deal.artifactHash == step.deal.signedHash &&
      (step.deal.status == Accepted || step.deal.status == PaymentPending)
  }

  /** A run: the statements and transactions, the tables before and after each, the replies. */
  datatype Run = Run(steps: seq<Step>, tables: seq<Tables>, replies: seq<Result<Reply, Error>>)

  ghost predicate Follows(hash: string -> string, run: Run, k: nat)
    requires k < |run.steps| && k + 1 < |run.tables| && k < |run.replies|
  {
    Next(hash, run.tables[k], run.steps[k]) == Outcome(run.tables[k + 1], run.replies[k])
  }

  ghost predicate IsRun(hash: string -> string, run: Run) {
    && |run.tables| == |run.steps| + 1 && |run.replies| == |run.steps|
    && run.tables[0] == EMPTY
    && (forall k | 0 <= k < |run.steps| :: Follows(hash, run, k))
    && (forall k | 0 <= k < |run.steps| :: WellFormed(run.steps[k]))
  }

  /** Every sequence of well-formed steps has a run. */
  lemma {:induction false} RunsExist(hash: string -> string, steps: seq<Step>) returns (run: Run)
    requires forall k | 0 <= k < |steps| :: WellFormed(steps[k])
    ensures IsRun(hash, run) && run.steps == steps
  {
    if steps == [] {
      run := Run([], [EMPTY], []);
    } else {
      var last := |steps| - 1;
      var before := RunsExist(hash, steps[..last]);
      var o := Next(hash, before.tables[last], steps[last]);
      run := Run(steps, before.tables + [o.tables], before.replies + [o.reply]);
      forall k | 0 <= k < |steps| ensures Follows(hash, run, k) {
        if k < last {
          assert Follows(hash, before, k);
        }
      }
    }
  }

  // ---------------------------------------------------------------- single-use quotes

  /** Every stored deal's quote is reserved to exactly that deal's artifact. */
  ghost predicate QuotesBound(t: Tables) {
    forall d | d in t.deals ::
      ReservedTo(t, t.deals[d].quote, t.deals[d].artifactHash) && t.deals[d].signedHash == t.deals[d].artifactHash
  }

  ghost predicate Inv(t: Tables) {
    Indexed(t) && QuotesBound(t)
  }

  /** Rewriting deals without touching their identity keeps the indexes and reservations. */
  lemma SameIdentitiesKeepInv(t: Tables, deals: map<string, Deal>)
    requires Inv(t) && deals.Keys == t.deals.Keys
    requires forall d | d in deals :: SameIdentity(t.deals[d], deals[d])
    ensures Inv(t.(deals := deals))
  {
    var t' := t.(deals := deals);
    assert DealsIndexed(deals, t.byHash, t.byKey);
    forall d | d in deals ensures ReservedTo(t', deals[d].quote, deals[d].artifactHash) {
      assert ReservedTo(t, t.deals[d].quote, t.deals[d].artifactHash);
    }
  }

  lemma RewrittenDealKeepsInv(t: Tables, id: string, d: Deal)
    requires Inv(t) && id in t.deals && SameIdentity(t.deals[id], d)
    ensures Inv(t.(deals := t.deals[id := d]))
  {
    SameIdentitiesKeepInv(t, t.deals[id := d]);
  }

  lemma MutatedKeepsInv(hash: string -> string, t: Tables, id: string, m: Mutation, now: int)
    requires Inv(t)
    ensures Inv(Mutated(hash, t, id, m, now).tables)
  {
    if id in t.deals {
      RewrittenDealKeepsInv(t, id, Write(hash, m, t.deals[id], now));
    }
  }

  lemma UsageStaysIndexed(usages: map<string, Usage>, usageOf: map<string, string>, quote: string, u: Usage)
    requires UsagesIndexed(usages, usageOf) && quote !in usages && u.artifactHash !in usageOf
    ensures UsagesIndexed(usages[quote := u], usageOf[u.artifactHash := quote])
  {
  }

  lemma WithUsageKeepsInv(t: Tables, quote: string, dealId: string, artifact: string, now: int)
    requires Inv(t) && QuoteFree(t, quote, artifact)
    ensures Inv(WithUsage(t, quote, dealId, artifact, now))
  {
    var t' := WithUsage(t, quote, dealId, artifact, now);
    UsageStaysIndexed(t.usages, t.usageOf, quote, Usage(dealId, artifact, now));
    forall d | d in t'.deals ensures ReservedTo(t', t'.deals[d].quote, t'.deals[d].artifactHash) {
      assert ReservedTo(t, t.deals[d].quote, t.deals[d].artifactHash);
    }
  }

  lemma ReservedKeepsInv(t: Tables, n: NewDeal)
    requires Inv(t)
    ensures var r := Reserved(t, n.quote, n.id, n.artifactHash, n.createdAt);
      r.Ok? ==> Inv(r.value) && ReservedTo(r.value, n.quote, n.artifactHash)
  {
    if QuoteFree(t, n.quote, n.artifactHash) {
      WithUsageKeepsInv(t, n.quote, n.id, n.artifactHash, n.createdAt);
    }
  }

  lemma DealStaysIndexed(
    deals: map<string, Deal>, byHash: map<string, string>, byKey: map<string, string>, id: string, d: Deal)
    requires DealsIndexed(deals, byHash, byKey) && id !in deals && d.artifactHash !in byHash
    requires d.key.Some? ==> d.key.value !in byKey
    ensures DealsIndexed(
      deals[id := d], byHash[d.artifactHash := id], if d.key.Some? then byKey[d.key.value := id] else byKey)
  {
  }

  lemma InsertedKeepsInv(t: Tables, n: NewDeal)
    requires Inv(t) && ReservedTo(t, n.quote, n.artifactHash) && n.signedHash == n.artifactHash
    requires n.id !in t.deals && FindByHash(t, n.artifactHash).None? && FindByKey(t, n.key).None?
    ensures Inv(WithDeal(t, n))
  {
    var t' := WithDeal(t, n);
    DealStaysIndexed(t.deals, t.byHash, t.byKey, n.id, Inserted(n));
    forall d | d in t'.deals
      ensures ReservedTo(t', t'.deals[d].quote, t'.deals[d].artifactHash)
      ensures t'.deals[d].signedHash == t'.deals[d].artifactHash
    {
      assert d == n.id || ReservedTo(t, t.deals[d].quote, t.deals[d].artifactHash);
    }
  }

  lemma AdmittedKeepsInv(t: Tables, n: NewDeal)
    requires Inv(t) && WellFormed(Admit(n))
    ensures Inv(Admitted(t, n).tables)
  {
    var o := Admitted(t, n);
    if o.tables != t {
      ReservedKeepsInv(t, n);
      InsertedKeepsInv(Reserved(t, n.quote, n.id, n.artifactHash, n.createdAt).value, n);
    }
  }

  lemma PermittedKeepsInv(t: Tables, quote: string, dealId: string, artifact: string, now: int)
    requires Inv(t)
    ensures Inv(Permitted(t, quote, dealId, artifact, now).tables)
  {
    if QuoteFree(t, quote, artifact) {
      WithUsageKeepsInv(t, quote, dealId, artifact, now);
    }
  }

  lemma ReleasedKeepsInv(t: Tables, quote: string, artifact: string)
    requires Inv(t)
    ensures Inv(Released(t, quote, artifact).tables)
  {
    var t' := Released(t, quote, artifact).tables;
    forall d | d in t'.deals ensures ReservedTo(t', t'.deals[d].quote, t'.deals[d].artifactHash) {
      assert ReservedTo(t, t.deals[d].quote, t.deals[d].artifactHash);
    }
  }

  lemma FailedKeepsInv(t: Tables, message: string, now: int)
    requires Inv(t)
    ensures Inv(IncompleteFailed(t, message, now).tables)
  {
    SameIdentitiesKeepInv(t, IncompleteFailed(t, message, now).tables.deals);
  }

  lemma NextKeepsInv(hash: string -> string, t: Tables, step: Step)
    requires Inv(t) && WellFormed(step)
    ensures Inv(Next(hash, t, step).tables)
  {
    match step
    case Admit(n) => AdmittedKeepsInv(t, n);
    case Mutate(id, m, now) => MutatedKeepsInv(hash, t, id, m, now);
    case ReserveQuote(q, d, h, now) => PermittedKeepsInv(t, q, d, h, now);
    case ReleaseQuote(q, h) => ReleasedKeepsInv(t, q, h);
    case FailIncomplete(message, now) => FailedKeepsInv(t, message, now);
  }

  lemma {:induction false} RunKeepsInv(hash: string -> string, run: Run, k: nat)
    requires IsRun(hash, run) && k < |run.tables|
    ensures Inv(run.tables[k])
  {
    if k > 0 {
      RunKeepsInv(hash, run, k - 1);
      assert Follows(hash, run, k - 1);
      NextKeepsInv(hash, run.tables[k - 1], run.steps[k - 1]);
    }
  }

  /** No two stored deals share a quote, an artifact hash or a non-null idempotency key. */
  lemma StoredDealsAreDistinct(hash: string -> string, run: Run, k: nat, a: string, b: string)
    requires IsRun(hash, run) && k < |run.tables|
    requires a in run.tables[k].deals && b in run.tables[k].deals && a != b
    ensures var da, db := run.tables[k].deals[a], run.tables[k].deals[b];
      && da.quote != db.quote
      && da.artifactHash != db.artifactHash
      && (da.key.Some? ==> da.key != db.key)
  {
    RunKeepsInv(hash, run, k);
  }

  /** Step `k` told its caller to go ahead with external side effects for the quote. */
  ghost predicate PermitsAt(hash: string -> string, run: Run, k: nat, quote: string)
    requires IsRun(hash, run) && k < |run.steps|
  {
    run.steps[k].ReserveQuote? && run.steps[k].quote == quote && run.replies[k] == Ok(Changed(true))
  }

  ghost predicate ReleasesAt(hash: string -> string, run: Run, k: nat, quote: string)
    requires IsRun(hash, run) && k < |run.steps|
  {
    run.steps[k].ReleaseQuote? && run.steps[k].quote == quote && run.replies[k] == Ok(Changed(true))
  }

  ghost predicate Keeps(usages: map<string, Usage>, usages': map<string, Usage>, quote: string) {
    quote in usages ==> quote in usages' && usages'[quote] == usages[quote]
  }

  lemma NextKeepsReservation(hash: string -> string, t: Tables, step: Step, quote: string)
    requires !(step.ReleaseQuote? && step.quote == quote && Next(hash, t, step).reply == Ok(Changed(true)))
    ensures Keeps(t.usages, Next(hash, t, step).tables.usages, quote)
  {
  }

  /** A reservation stays as it is until it is released. */
  lemma {:induction false} ReservationHolds(hash: string -> string, run: Run, i: nat, k: nat, quote: string)
    requires IsRun(hash, run) && i <= k < |run.tables|
    requires forall m | i <= m < k :: !ReleasesAt(hash, run, m, quote)
    ensures Keeps(run.tables[i].usages, run.tables[k].usages, quote)
    decreases k
  {
    if i < k {
      ReservationHolds(hash, run, i, k - 1, quote);
      assert !ReleasesAt(hash, run, k - 1, quote);
      assert Follows(hash, run, k - 1);
      NextKeepsReservation(hash, run.tables[k - 1], run.steps[k - 1], quote);
    }
  }

  lemma PermissionReserves(hash: string -> string, run: Run, k: nat, quote: string)
    requires IsRun(hash, run) && k < |run.steps| && PermitsAt(hash, run, k, quote)
    ensures quote !in run.tables[k].usages
    ensures ReservedTo(run.tables[k + 1], quote, run.steps[k].artifactHash)
  {
    assert Follows(hash, run, k);
  }

  /** Two permissions for one quote always have a release between them. */
  lemma PermittedOncePerRelease(hash: string -> string, run: Run, i: nat, k: nat, quote: string)
    requires IsRun(hash, run) && i < k < |run.steps|
    requires PermitsAt(hash, run, i, quote) && PermitsAt(hash, run, k, quote)
    ensures exists m | i < m < k :: ReleasesAt(hash, run, m, quote)
  {
    PermissionReserves(hash, run, i, quote);
    PermissionReserves(hash, run, k, quote);
    if forall m | i + 1 <= m < k :: !ReleasesAt(hash, run, m, quote) {
      ReservationHolds(hash, run, i + 1, k, quote);
    }
  }

  /** No permission is given, and no release succeeds, while a deal for the quote is stored. */
  lemma StoredDealBlocksPermission(hash: string -> string, run: Run, k: nat, d: string)
    requires IsRun(hash, run) && k < |run.steps|
    requires d in run.tables[k].deals
    ensures !PermitsAt(hash, run, k, run.tables[k].deals[d].quote)
    ensures !ReleasesAt(hash, run, k, run.tables[k].deals[d].quote)
  {
    RunKeepsInv(hash, run, k);
    assert Follows(hash, run, k);
    var t := run.tables[k];
    assert ReservedTo(t, t.deals[d].quote, t.deals[d].artifactHash);
  }

  /** A permission binds the quote: until it is released, only the artifact it was given to
      can be admitted as a new deal under that quote. */
  lemma PermissionBindsAdmission(hash: string -> string, run: Run, i: nat, k: nat)
    requires IsRun(hash, run) && i < k < |run.steps|
    requires run.steps[k].Admit? && run.replies[k].Ok? && run.replies[k].value.Admission? && run.replies[k].value.created
    requires PermitsAt(hash, run, i, run.steps[k].deal.quote)
    requires forall m | i < m < k :: !ReleasesAt(hash, run, m, run.steps[k].deal.quote)
    ensures run.steps[k].deal.artifactHash == run.steps[i].artifactHash
  {
    assert Follows(hash, run, k);
    PermissionReserves(hash, run, i, run.steps[k].deal.quote);
    ReservationHolds(hash, run, i + 1, k, run.steps[k].deal.quote);
  }

  // ---------------------------------------------------------------- the status machine

  function Rank(s: Status): nat {
    match s
    case PaymentPending => 0
    case Accepted => 1
    case Running => 1
    case ResultReady => 2
    case SettlementPending => 2
    case Succeeded => 3
    case Failed => 3
    case Rejected => 3
  }

  /** `d` can become `d'`: same identity, no lower rank, payment fixed once it is no longer
      pending. */
  ghost predicate Evolves(d: Deal, d': Deal) {
    && SameIdentity(d, d')
    && Rank(d.status) <= Rank(d'.status)
    && (d.status != PaymentPending ==> d'.paymentToken == d.paymentToken && d'.paymentAmount == d.paymentAmount)
  }

  lemma WriteEvolves(hash: string -> string, m: Mutation, d: Deal, now: int)
    requires MutationError(m).None? && Guard(m, d)
    ensures Evolves(d, Write(hash, m, d, now))
  {
  }

  /** Every deal of `deals` is still in `deals'`, evolved. */
  ghost predicate AllEvolve(deals: map<string, Deal>, deals': map<string, Deal>) {
    forall d | d in deals :: d in deals' && Evolves(deals[d], deals'[d])
  }

  lemma MutatedEvolves(hash: string -> string, t: Tables, id: string, m: Mutation, now: int)
    ensures AllEvolve(t.deals, Mutated(hash, t, id, m, now).tables.deals)
  {
    if MutationError(m).None? && id in t.deals && Guard(m, t.deals[id]) {
      WriteEvolves(hash, m, t.deals[id], now);
    }
  }

  lemma AdmittedEvolves(t: Tables, n: NewDeal)
    ensures AllEvolve(t.deals, Admitted(t, n).tables.deals)
  {
    AdmittedAddsAtMost(t, n);
  }

  lemma AdmittedAddsAtMost(t: Tables, n: NewDeal)
    ensures var deals := Admitted(t, n).tables.deals;
      deals == t.deals || (n.id !in t.deals && deals == t.deals[n.id := Inserted(n)])
  {
  }

  lemma IncompleteFailedEvolves(t: Tables, message: string, now: int)
    ensures AllEvolve(t.deals, IncompleteFailed(t, message, now).tables.deals)
  {
  }

  lemma NextEvolves(hash: string -> string, t: Tables, step: Step)
    ensures AllEvolve(t.deals, Next(hash, t, step).tables.deals)
  {
    match step
    case Admit(n) => AdmittedEvolves(t, n);
    case Mutate(id, m, now) => MutatedEvolves(hash, t, id, m, now);
    case FailIncomplete(message, now) => IncompleteFailedEvolves(t, message, now);
    case _ =>
  }

  lemma EvolveTransitive(a: map<string, Deal>, b: map<string, Deal>, c: map<string, Deal>)
    requires AllEvolve(a, b) && AllEvolve(b, c)
    ensures AllEvolve(a, c)
  {
  }

  /** Over any sequence of mutations, guarded or not, a deal is never lost, its rank never
      drops, the terminal statuses are never left, and its payment is frozen once
      payment_pending is left. */
  lemma {:induction false} DealsOnlyMoveForward(hash: string -> string, run: Run, i: nat, k: nat)
    requires IsRun(hash, run) && i <= k < |run.tables|
    ensures AllEvolve(run.tables[i].deals, run.tables[k].deals)
    decreases k
  {
    if i < k {
      var before := run.tables[k - 1];
      DealsOnlyMoveForward(hash, run, i, k - 1);
      assert Follows(hash, run, k - 1);
      NextEvolves(hash, before, run.steps[k - 1]);
      EvolveTransitive(run.tables[i].deals, before.deals, Next(hash, before, run.steps[k - 1]).tables.deals);
    }
  }

  // ---------------------------------------------------------------- row shape

  ghost predicate NoOutcome(d: Deal) {
    && d.result.None? && d.receipt.None?
    && d.resultEvidence.None? && d.failureEvidence.None? && d.receiptHash.None?
  }

  /** What the status says about the other columns. Accepted and running deals may carry the
      error of a hold; `ErrorIsLastHold` says exactly when and which. */
  ghost predicate Shaped(d: Deal) {
    && (d.result.Some? <==> d.resultHash.Some?)
    && (d.receiptHash.Some? ==> d.receipt.Some?)
    && match d.status
       case PaymentPending => NoOutcome(d) && d.error.None?
       case Accepted => NoOutcome(d)
       case Running => NoOutcome(d)
       case ResultReady => d.result.Some? && d.error.None? && d.failureEvidence.None? && d.receipt.None?
       case SettlementPending =>
         d.error.Some? && d.failureEvidence.Some? && d.result.None? && d.resultEvidence.None? && d.receipt.None?
       case Succeeded => d.result.Some? && d.error.None? && d.failureEvidence.None? && d.receipt.Some?
       case Failed => d.error.Some? && (d.receipt.None? ==> d.result.None? && d.resultEvidence.None?)
       case Rejected => d.error.Some? && d.resultEvidence.None? && d.receipt.Some?
  }

  lemma WriteKeepsShape(hash: string -> string, m: Mutation, d: Deal, now: int)
    requires Shaped(d) && MutationError(m).None? && Guard(m, d)
    ensures Shaped(Write(hash, m, d, now))
  {
  }

  ghost predicate AllShaped(deals: map<string, Deal>) {
    forall d | d in deals :: Shaped(deals[d])
  }

  lemma MutatedKeepsShape(hash: string -> string, t: Tables, id: string, m: Mutation, now: int)
    requires AllShaped(t.deals)
    ensures AllShaped(Mutated(hash, t, id, m, now).tables.deals)
  {
    if MutationError(m).None? && id in t.deals && Guard(m, t.deals[id]) {
      WriteKeepsShape(hash, m, t.deals[id], now);
    }
  }

  lemma AdmittedKeepsShape(t: Tables, n: NewDeal)
    requires WellFormed(Admit(n)) && AllShaped(t.deals)
    ensures AllShaped(Admitted(t, n).tables.deals)
  {
    AdmittedAddsAtMost(t, n);
    assert Shaped(Inserted(n));
  }

  lemma NextKeepsShape(hash: string -> string, t: Tables, step: Step)
    requires WellFormed(step) && AllShaped(t.deals)
    ensures AllShaped(Next(hash, t, step).tables.deals)
  {
    match step
    case Admit(n) => AdmittedKeepsShape(t, n);
    case Mutate(id, m, now) => MutatedKeepsShape(hash, t, id, m, now);
    case _ =>
  }

  /** In every reachable state the status determines the shape of the row. */
  lemma {:induction false} StatusDeterminesShape(hash: string -> string, run: Run, k: nat)
    requires IsRun(hash, run) && k < |run.tables|
    ensures AllShaped(run.tables[k].deals)
  {
    if k > 0 {
      StatusDeterminesShape(hash, run, k - 1);
      assert Follows(hash, run, k - 1);
      NextKeepsShape(hash, run.tables[k - 1], run.steps[k - 1]);
    }
  }

  // ---------------------------------------------------------------- held deals

  ghost predicate Holds(step: Step, reply: Result<Reply, Error>, id: string) {
    step.Mutate? && step.dealId == id && step.mutation.HoldRunning? && reply == Ok(Changed(true))
  }

  /** Step `k` held the deal for reconciliation. */
  ghost predicate HoldsAt(hash: string -> string, run: Run, k: nat, id: string)
    requires IsRun(hash, run) && k < |run.steps|
  {
    Holds(run.steps[k], run.replies[k], id)
  }

  /** Step `m` held the deal with this message and no later step before `k` held it again. */
  ghost predicate LastHold(hash: string -> string, run: Run, m: nat, k: nat, id: string, message: string)
    requires IsRun(hash, run) && m < k < |run.tables|
  {
    && HoldsAt(hash, run, m, id) && run.steps[m].mutation.message == message
    && forall later | m < later < k :: !HoldsAt(hash, run, later, id)
  }

  /** A held deal is stored from then on. */
  lemma HeldIsStored(hash: string -> string, run: Run, m: nat, k: nat, id: string)
    requires IsRun(hash, run) && m < k < |run.tables| && HoldsAt(hash, run, m, id)
    ensures id in run.tables[m].deals && id in run.tables[k].deals
  {
    assert Follows(hash, run, m);
    DealsOnlyMoveForward(hash, run, m, k);
  }

  lemma WriteKeepsError(hash: string -> string, m: Mutation, d: Deal, now: int)
    requires Rank(Write(hash, m, d, now).status) <= 1 && !m.HoldRunning?
    ensures Write(hash, m, d, now).error == d.error
  {
  }

  /** Before any outcome is staged, only a hold writes the error. */
  lemma StepMovesError(hash: string -> string, t: Tables, step: Step, id: string)
    requires id in t.deals && id in Next(hash, t, step).tables.deals
    requires Rank(Next(hash, t, step).tables.deals[id].status) <= 1
    ensures Next(hash, t, step).tables.deals[id].error ==
      if Holds(step, Next(hash, t, step).reply, id) then Some(step.mutation.message) else t.deals[id].error
  {
    match step
    case Admit(n) => AdmittedAddsAtMost(t, n);
    case Mutate(d, m, now) =>
      if d == id && !m.HoldRunning? && Guard(m, t.deals[id]) && MutationError(m).None? {
        WriteKeepsError(hash, m, t.deals[id], now);
      }
    case _ =>
  }

  lemma NewDealHasNoError(hash: string -> string, t: Tables, step: Step, id: string)
    requires id !in t.deals && id in Next(hash, t, step).tables.deals
    ensures Next(hash, t, step).tables.deals[id].error.None? && !Holds(step, Next(hash, t, step).reply, id)
  {
    if step.Admit? {
      AdmittedAddsAtMost(t, step.deal);
    }
  }

  /** While no outcome is staged, a deal carries an error exactly when it was held, and then
      that of the last hold: retries, resets to accepted and payments neither set nor clear
      it. */
  lemma {:induction false} ErrorIsLastHold(hash: string -> string, run: Run, k: nat, id: string, message: string)
    requires IsRun(hash, run) && k < |run.tables|
    requires id in run.tables[k].deals && Rank(run.tables[k].deals[id].status) <= 1
    ensures run.tables[k].deals[id].error == Some(message) <==>
      exists m | 0 <= m < k :: LastHold(hash, run, m, k, id, message)
  {
    var p := k - 1;
    assert Follows(hash, run, p);
    if id !in run.tables[p].deals {
      NewDealHasNoError(hash, run.tables[p], run.steps[p], id);
      forall m | 0 <= m < k ensures !HoldsAt(hash, run, m, id) {
        if m < p && HoldsAt(hash, run, m, id) {
          HeldIsStored(hash, run, m, p, id);
        }
      }
    } else {
      NextEvolves(hash, run.tables[p], run.steps[p]);
      assert Evolves(run.tables[p].deals[id], run.tables[k].deals[id]);
      StepMovesError(hash, run.tables[p], run.steps[p], id);
      ErrorIsLastHold(hash, run, p, id, message);
      LastHoldMoves(hash, run, p, k, id, message);
    }
  }

  lemma LastHoldMoves(hash: string -> string, run: Run, p: nat, k: nat, id: string, message: string)
    requires IsRun(hash, run) && p + 1 == k < |run.tables|
    ensures (exists m | 0 <= m < k :: LastHold(hash, run, m, k, id, message)) <==>
      if HoldsAt(hash, run, p, id) then run.steps[p].mutation.message == message
      else exists m | 0 <= m < p :: LastHold(hash, run, m, p, id, message)
  {
    if HoldsAt(hash, run, p, id) {
      if run.steps[p].mutation.message == message {
        assert LastHold(hash, run, p, k, id, message);
      }
    } else {
      if m :| 0 <= m < p && LastHold(hash, run, m, p, id, message) {
        assert LastHold(hash, run, m, k, id, message);
      }
      if m :| 0 <= m < k && LastHold(hash, run, m, k, id, message) {
        assert LastHold(hash, run, m, p, id, message);
      }
    }
  }

  lemma {:induction false} SomeHoldIsLast(hash: string -> string, run: Run, m: nat, k: nat, id: string)
    returns (last: nat)
    requires IsRun(hash, run) && m < k < |run.tables| && HoldsAt(hash, run, m, id)
    ensures last < k && HoldsAt(hash, run, last, id)
    ensures LastHold(hash, run, last, k, id, run.steps[last].mutation.message)
    decreases k - m
  {
    if later :| m < later < k && HoldsAt(hash, run, later, id) {
      last := SomeHoldIsLast(hash, run, later, k, id);
    } else {
      last := m;
    }
  }

  /** An accepted or running deal has an error if and only if it was ever held. */
  lemma ErrorOnlyWhenHeld(hash: string -> string, run: Run, k: nat, id: string)
    requires IsRun(hash, run) && k < |run.tables|
    requires id in run.tables[k].deals && Rank(run.tables[k].deals[id].status) <= 1
    ensures run.tables[k].deals[id].error.Some? <==> exists m | 0 <= m < k :: HoldsAt(hash, run, m, id)
  {
    var error := run.tables[k].deals[id].error;
    if error.Some? {
      ErrorIsLastHold(hash, run, k, id, error.value);
      var m :| 0 <= m < k && LastHold(hash, run, m, k, id, error.value);
      assert HoldsAt(hash, run, m, id);
    }
    if m :| 0 <= m < k && HoldsAt(hash, run, m, id) {
      var last := SomeHoldIsLast(hash, run, m, k, id);
      ErrorIsLastHold(hash, run, k, id, run.steps[last].mutation.message);
    }
  }

  /** Such deals exist: held while running, and still with the error after the reset to
      accepted. */
  lemma HeldDealCarriesError() returns (hash: string -> string, run: Run)
    ensures IsRun(hash, run) && |run.steps| == 4
    ensures "d" in run.tables[3].deals && "d" in run.tables[4].deals
    ensures run.tables[3].deals["d"].status == Running && run.tables[3].deals["d"].error == Some("held")
    ensures run.tables[4].deals["d"].status == Accepted && run.tables[4].deals["d"].error == Some("held")
  {
    hash := text => text;
    var deal := NewDeal("d", None, "q", "h", "h", "s", None, None, None, Accepted, 0);
    run := RunsExist(hash, [
      Admit(deal), Mutate("d", MarkRunning, 1), Mutate("d", HoldRunning("held"), 2), Mutate("d", ResetRunning, 3)]);
    assert Follows(hash, run, 0);
    assert run.tables[1].deals == map["d" := Inserted(deal)];
    assert Follows(hash, run, 1);
    assert run.tables[2].deals["d"].status == Running;
    assert Follows(hash, run, 2);
    assert run.tables[3].deals["d"].status == Running && run.tables[3].deals["d"].error == Some("held");
    assert Follows(hash, run, 3);
  }

  // ---------------------------------------------------------------- results and outcomes

  ghost predicate HonestHash(hash: string -> string, explicit: Option<string>, result: string) {
    explicit.Some? ==> explicit.value == hash(result)
  }

  /** Callers that supply a result hash supply that of the result. */
  ghost predicate HonestStep(hash: string -> string, step: Step) {
    step.Mutate? ==>
      match step.mutation
      case CompleteSuccess(s) => HonestHash(hash, s.explicitHash, s.result)
      case CompleteSuccessIf(_, s) => HonestHash(hash, s.explicitHash, s.result)
      case StageResult(result, explicit, _) => HonestHash(hash, explicit, result)
      case _ => true
  }

  ghost predicate HashFits(hash: string -> string, d: Deal) {
    d.resultHash == if d.result.Some? then Some(hash(d.result.value)) else None
  }

  ghost predicate AllHashesFit(hash: string -> string, deals: map<string, Deal>) {
    forall d | d in deals :: HashFits(hash, deals[d])
  }

  lemma WriteKeepsHash(hash: string -> string, id: string, m: Mutation, d: Deal, now: int)
    requires HashFits(hash, d) && HonestStep(hash, Mutate(id, m, now))
    ensures HashFits(hash, Write(hash, m, d, now))
  {
  }

  lemma AdmittedKeepsHashes(hash: string -> string, t: Tables, n: NewDeal)
    requires AllHashesFit(hash, t.deals)
    ensures AllHashesFit(hash, Admitted(t, n).tables.deals)
  {
    AdmittedAddsAtMost(t, n);
    assert HashFits(hash, Inserted(n));
  }

  lemma NextKeepsHashes(hash: string -> string, t: Tables, step: Step)
    requires AllHashesFit(hash, t.deals) && HonestStep(hash, step)
    ensures AllHashesFit(hash, Next(hash, t, step).tables.deals)
  {
    match step
    case Admit(n) => AdmittedKeepsHashes(hash, t, n);
    case Mutate(id, m, now) =>
      if id in t.deals {
        WriteKeepsHash(hash, id, m, t.deals[id], now);
      }
    case _ =>
  }

  /** Every stored result carries its own hash, through staging, success, recovery and
      failure. */
  lemma {:induction false} ResultHashIsOfResult(hash: string -> string, run: Run, k: nat)
    requires IsRun(hash, run) && k < |run.tables|
    requires forall m | 0 <= m < k :: HonestStep(hash, run.steps[m])
    ensures AllHashesFit(hash, run.tables[k].deals)
  {
    if k > 0 {
      ResultHashIsOfResult(hash, run, k - 1);
      assert Follows(hash, run, k - 1);
      NextKeepsHashes(hash, run.tables[k - 1], run.steps[k - 1]);
    }
  }

  predicate Terminal(s: Status) {
    s == Succeeded || s == Failed || s == Rejected
  }

  /** The mutations that may rewrite a deal already in a terminal status: the unguarded
      completions, and a conditional one that expects a terminal status. */
  ghost predicate Overrides(step: Step, id: string) {
    step.Mutate? && step.dealId == id &&
    match step.mutation
    case CompleteSuccess(_) => true
    case CompleteFailure(_) => true
    case CompleteSuccessIf(expected, _) => Terminal(expected)
    case RecoveryFailure(expected, _, _) => Terminal(expected)
    case RejectIf(expected, _) => Terminal(expected)
    case CompleteFailureIf(expected, _) => Terminal(expected)
    case _ => false
  }

  lemma TerminalRowKept(hash: string -> string, t: Tables, step: Step, id: string)
    requires id in t.deals && Terminal(t.deals[id].status) && !Overrides(step, id)
    ensures id in Next(hash, t, step).tables.deals && Next(hash, t, step).tables.deals[id] == t.deals[id]
  {
    if step.Mutate? && step.dealId == id {
      assert !Guard(step.mutation, t.deals[id]);
    }
  }

  /** The first terminal outcome is final: until an overriding mutation comes, no admission,
      status change, recovery or restart touches any column of the deal. */
  lemma {:induction false} OutcomeIsFinal(hash: string -> string, run: Run, i: nat, k: nat, id: string)
    requires IsRun(hash, run) && i <= k < |run.tables|
    requires id in run.tables[i].deals && Terminal(run.tables[i].deals[id].status)
    requires forall m | i <= m < k :: !Overrides(run.steps[m], id)
    ensures id in run.tables[k].deals && run.tables[k].deals[id] == run.tables[i].deals[id]
    decreases k
  {
    if i < k {
      OutcomeIsFinal(hash, run, i, k - 1, id);
      assert Follows(hash, run, k - 1);
      TerminalRowKept(hash, run.tables[k - 1], run.steps[k - 1], id);
    }
  }

  /** A deal caught accepted or running by a restart stays failed with the restart message,
      without result, receipt or evidence of a result, until an overriding mutation comes. */
  lemma InterruptedStaysFailed(hash: string -> string, run: Run, i: nat, k: nat, id: string)
    requires IsRun(hash, run) && i < k < |run.tables| && run.steps[i].FailIncomplete?
    requires id in run.tables[i].deals
    requires run.tables[i].deals[id].status == Accepted || run.tables[i].deals[id].status == Running
    requires forall m | i < m < k :: !Overrides(run.steps[m], id)
    ensures id in run.tables[k].deals
    ensures var d := run.tables[k].deals[id];
      && d.status == Failed && d.error == Some(run.steps[i].message)
      && d.result.None? && d.resultHash.None? && d.receipt.None? && d.resultEvidence.None?
      && SameIdentity(run.tables[i].deals[id], d)
  {
    assert Follows(hash, run, i);
    StatusDeterminesShape(hash, run, i);
    assert Shaped(run.tables[i].deals[id]);
    OutcomeIsFinal(hash, run, i + 1, k, id);
  }

  // ---------------------------------------------------------------- replay

  /** Admission returns only a deal with the requested artifact hash; a reused idempotency
      key therefore always fails. */
  lemma AdmissionReturnsRequestedArtifact(hash: string -> string, run: Run, k: nat, n: NewDeal)
    requires IsRun(hash, run) && k < |run.tables| && WellFormed(Admit(n))
    ensures var t, r := run.tables[k], Admitted(run.tables[k], n).reply;
      && (r.Ok? ==> r.value.Admission? && r.value.deal.artifactHash == n.artifactHash)
      && (FindByHash(t, n.artifactHash).None? && FindByKey(t, n.key).Some? ==> r == Err(KeyReused))
  {
    RunKeepsInv(hash, run, k);
  }

  lemma AdmittedIsStored(t: Tables, n: NewDeal)
    requires Admitted(t, n).reply.Ok?
    ensures var o := Admitted(t, n);
      o.reply.value.Admission? && o.reply.value.dealId in o.tables.deals &&
      o.tables.deals[o.reply.value.dealId] == o.reply.value.deal
  {
  }

  lemma StoredArtifactIsReturned(t: Tables, id: string, n: NewDeal)
    requires Indexed(t) && id in t.deals && t.deals[id].artifactHash == n.artifactHash
    ensures Admitted(t, n) == Outcome(t, Ok(Admission(id, t.deals[id], false)))
  {
  }

  /** Replaying an admission with the same artifact, whatever its deal id, key or quote,
      changes nothing and returns the first deal in its current state. */
  lemma ReplayReturnsFirstDeal(hash: string -> string, run: Run, i: nat, k: nat, first: Reply, n: NewDeal)
    requires IsRun(hash, run) && i < k < |run.tables|
    requires run.steps[i].Admit? && run.replies[i] == Ok(first)
    requires n.artifactHash == run.steps[i].deal.artifactHash
    ensures first.Admission? && first.dealId in run.tables[k].deals
    ensures Evolves(first.deal, run.tables[k].deals[first.dealId])
    ensures Admitted(run.tables[k], n) ==
      Outcome(run.tables[k], Ok(Admission(first.dealId, run.tables[k].deals[first.dealId], false)))
  {
    AdmissionReturnsRequestedArtifact(hash, run, i, run.steps[i].deal);
    assert Follows(hash, run, i);
    AdmittedIsStored(run.tables[i], run.steps[i].deal);
    DealsOnlyMoveForward(hash, run, i + 1, k);
    assert Evolves(first.deal, run.tables[k].deals[first.dealId]);
    RunKeepsInv(hash, run, k);
    StoredArtifactIsReturned(run.tables[k], first.dealId, n);
  }
}
