/** What every run of publication transactions keeps: exact grants, activation epochs that
    never come back, agreement on shared offers, and identity reconciliation. */
module PublicationRuns {
  import opened Common
  import opened Ordering
  import opened Publications

  // ---------------------------------------------------------------- invariants

  ghost predicate RowSound(t: Tables, s: string)
    requires s in t.lifecycles
  {
    var row := t.lifecycles[s];
    && RevisionOf(t, s, row.selected)
    && row.active == ActiveHash(row.status, row.selected)
    && IsHex64(row.token)
  }

  ghost predicate RowsSound(t: Tables) {
    forall s | s in t.lifecycles :: RowSound(t, s)
  }

  /** Every grant names a service active on exactly that revision under exactly that token. */
  ghost predicate GrantsExact(t: Tables) {
    forall k | k in t.grants :: ExactlyActive(t, k, t.grants[k])
  }

  /** Active services that share an offer id agree on its hash. */
  ghost predicate OffersAgree(t: Tables) {
    forall a, b | a in t.lifecycles && b in t.lifecycles && OfferedBy(t, a).Some? && OfferedBy(t, b).Some? ::
      OfferedBy(t, a).value.0 == OfferedBy(t, b).value.0 ==> OfferedBy(t, a) == OfferedBy(t, b)
  }

  /** The (offer id, offer hash) a service currently advertises. */
  ghost function OfferedBy(t: Tables, s: string): Option<(string, string)> {
    if s in t.lifecycles && t.lifecycles[s].active.Some? && t.lifecycles[s].active.value in t.revisions then
      var r := t.revisions[t.lifecycles[s].active.value];
      Some((r.offerId, r.offerHash))
    else None
  }

  ghost predicate TokensDistinct(t: Tables) {
    forall a, b | a in t.lifecycles && b in t.lifecycles && a != b :: t.lifecycles[a].token != t.lifecycles[b].token
  }

  ghost predicate TokensFrom(t: Tables, drawn: set<string>) {
    forall s | s in t.lifecycles :: t.lifecycles[s].token in drawn
  }

  /** Log entries name revisions of their service; each revision is published once. */
  ghost predicate LogSound(t: Tables) {
    && (forall i | 0 <= i < |t.log| :: RevisionOf(t, t.log[i].service, t.log[i].revision))
    && (forall i, j | 0 <= i < j < |t.log| && t.log[i].operation == PublishOp && t.log[j].operation == PublishOp ::
          t.log[i].revision != t.log[j].revision)
  }

  ghost predicate Inv(t: Tables, drawn: set<string>) {
    && RowsSound(t)
    && GrantsExact(t)
    && OffersAgree(t)
    && TokensDistinct(t)
    && TokensFrom(t, drawn)
    && LogSound(t)
  }

  // ---------------------------------------------------------------- runs

  /** The token a step may draw from the random source. */
  ghost function Draw(step: Step): set<string> {
    if step.PublishStep? || step.MutateStep? then {step.newToken} else {}
  }

  ghost function Drawn(steps: seq<Step>, k: nat): set<string>
    requires k <= |steps|
  {
    if k == 0 then {} else Drawn(steps, k - 1) + Draw(steps[k - 1])
  }

  /** Random tokens: well formed, and never handed out twice in a run. */
  ghost predicate FreshTokens(steps: seq<Step>) {
    && (forall i | 0 <= i < |steps| :: forall x | x in Draw(steps[i]) :: IsHex64(x))
    && (forall i, j | 0 <= i < j < |steps| :: Draw(steps[i]) !! Draw(steps[j]))
  }

  /** A run: the transactions, the tables before and after each, and the replies. */
  datatype Run = Run(steps: seq<Step>, tables: seq<Tables>, replies: seq<Result<Reply, Error>>)

  ghost predicate Follows(env: Env, run: Run, k: nat)
    requires k < |run.steps| && k + 1 < |run.tables| && k < |run.replies|
  {
    Next(env, run.tables[k], run.steps[k]) == Outcome(run.tables[k + 1], run.replies[k])
  }

  /** The run starts from empty tables, every transaction does what `Next` says, and the
      random tokens are fresh. */
  ghost predicate IsRun(env: Env, run: Run) {
    && |run.tables| == |run.steps| + 1 && |run.replies| == |run.steps|
    && run.tables[0] == EMPTY
    && (forall k | 0 <= k < |run.steps| :: Follows(env, run, k))
    && FreshTokens(run.steps)
  }

  /** Every sequence of transactions with fresh tokens has a run. */
  lemma {:induction false} RunsExist(env: Env, steps: seq<Step>) returns (run: Run)
    requires FreshTokens(steps)
    ensures IsRun(env, run) && run.steps == steps
  {
    if steps == [] {
      run := Run([], [EMPTY], []);
    } else {
      var last := |steps| - 1;
      var before := RunsExist(env, steps[..last]);
      var o := Next(env, before.tables[last], steps[last]);
      run := Run(steps, before.tables + [o.tables], before.replies + [o.reply]);
      forall k | 0 <= k < |steps| ensures Follows(env, run, k) {
        if k < last {
          assert Follows(env, before, k);
        }
      }
    }
  }

  lemma {:induction false} DrawnMembers(steps: seq<Step>, k: nat, x: string)
    requires k <= |steps|
    ensures x in Drawn(steps, k) <==> exists i | 0 <= i < k :: x in Draw(steps[i])
  {
    if k > 0 {
      DrawnMembers(steps, k - 1, x);
    }
  }

  lemma DrawIsNew(steps: seq<Step>, k: nat)
    requires k < |steps| && FreshTokens(steps)
    ensures Draw(steps[k]) !! Drawn(steps, k)
  {
    forall x | x in Draw(steps[k]) ensures x !in Drawn(steps, k) {
      DrawnMembers(steps, k, x);
    }
  }

  // ---------------------------------------------------------------- one step

  ghost predicate Usable(step: Step, drawn: set<string>) {
    forall x | x in Draw(step) :: IsHex64(x) && x !in drawn
  }

  /** Statuses in the order one activation epoch goes through them. */
  function Rank(status: Status): nat {
    match status
    case Active => 0
    case Paused => 1
    case Unpublished => 2
  }

  /** The epoch of a service goes on: same token, same revision, status no further back. */
  ghost predicate Continues(rows: map<string, Lifecycle>, rows': map<string, Lifecycle>, s: string) {
    && s in rows && s in rows'
    && rows'[s].token == rows[s].token
    && rows'[s].selected == rows[s].selected
    && Rank(rows[s].status) <= Rank(rows'[s].status)
  }

  ghost predicate Extends(t: Tables, t': Tables) {
    forall h | h in t.revisions :: h in t'.revisions && t'.revisions[h] == t.revisions[h]
  }

  ghost predicate AgreesWithOthers(t: Tables, s: string) {
    forall x | x in t.lifecycles && x != s && OfferedBy(t, x).Some? && OfferedBy(t, s).Some? ::
      OfferedBy(t, x).value.0 == OfferedBy(t, s).value.0 ==> OfferedBy(t, x) == OfferedBy(t, s)
  }

  /** Either every grant of `s` is withdrawn, or no grant and nothing a grant names changes. */
  ghost predicate GrantsFollow(t: Tables, t': Tables, s: string) {
    || t'.grants == WithoutGrantsOf(t.grants, {s})
    || (&& t'.grants == t.grants
        && s in t.lifecycles && s in t'.lifecycles
        && t'.lifecycles[s].(updatedAt := 0) == t.lifecycles[s].(updatedAt := 0))
  }

  /** The effect of a publication or lifecycle mutation, as the invariants see it: the row
      of one service is replaced and everything else stays consistent with it. */
  ghost predicate ReplacesRow(t: Tables, t': Tables, s: string, newToken: string) {
    && Extends(t, t')
    && s in t'.lifecycles
    && t'.lifecycles == t.lifecycles[s := t'.lifecycles[s]]
    && RowSound(t', s)
    && (Continues(t.lifecycles, t'.lifecycles, s) || t'.lifecycles[s].token == newToken)
    && GrantsFollow(t, t', s)
    && AgreesWithOthers(t', s)
  }

  lemma ReplacedRows(t: Tables, t': Tables, s: string, newToken: string)
    requires ReplacesRow(t, t', s, newToken) && RowsSound(t)
    ensures RowsSound(t')
  {
    forall x | x in t'.lifecycles ensures RowSound(t', x) {
      assert x == s || RowSound(t, x);
    }
  }

  lemma ReplacedGrants(t: Tables, t': Tables, s: string, newToken: string)
    requires ReplacesRow(t, t', s, newToken) && GrantsExact(t)
    ensures GrantsExact(t')
  {
    forall k | k in t'.grants ensures ExactlyActive(t', k, t'.grants[k]) {
      assert k in t.grants && ExactlyActive(t, k, t.grants[k]);
    }
  }

  lemma ReplacedOffers(t: Tables, t': Tables, s: string, newToken: string)
    requires ReplacesRow(t, t', s, newToken) && RowsSound(t) && OffersAgree(t)
    ensures OffersAgree(t')
  {
    forall x | x in t.lifecycles && x != s ensures OfferedBy(t', x) == OfferedBy(t, x) {
      assert RowSound(t, x);
    }
  }

  lemma ReplacedTokens(t: Tables, t': Tables, s: string, newToken: string, drawn: set<string>)
    requires ReplacesRow(t, t', s, newToken) && newToken !in drawn
    requires TokensDistinct(t) && TokensFrom(t, drawn)
    ensures TokensDistinct(t') && TokensFrom(t', drawn + {newToken})
  {
  }

  lemma PublishReplacesRow(t: Tables, step: Step)
    requires step.PublishStep? && RowsSound(t) && IsHex64(step.newToken)
    ensures var o := Published(t, step);
      if o.reply.Ok? then ReplacesRow(t, o.tables, step.revision.service, step.newToken) else o.tables == t
  {
    var o := Published(t, step);
    if o.reply.Ok? {
      var t', s := o.tables, step.revision.service;
      if s in t.lifecycles {
        assert RowSound(t, s);
      }
      assert RowSound(t', s);
      var t1 := t.(revisions := t'.revisions);
      forall x | x in t'.lifecycles && x != s && OfferedBy(t', x).Some? && OfferedBy(t', s).Some?
        ensures OfferedBy(t', x).value.0 == OfferedBy(t', s).value.0 ==> OfferedBy(t', x) == OfferedBy(t', s)
      {
        assert RowSound(t, x);
        assert !ConflictsWith(t1, x, s, step.revision.offerId, step.revision.offerHash);
      }
    }
  }

  lemma PublishKeepsLog(t: Tables, step: Step)
    requires step.PublishStep? && LogSound(t)
    ensures LogSound(Published(t, step).tables)
  {
    var o := Published(t, step);
    var t' := o.tables;
    if o.reply.Ok? {
      assert t'.revisions[step.hash].service == step.revision.service;
      forall i | 0 <= i < |t'.log| ensures RevisionOf(t', t'.log[i].service, t'.log[i].revision) {
        if i < |t.log| { assert RevisionOf(t, t.log[i].service, t.log[i].revision); }
      }
      if t'.log != t.log {
        forall i | 0 <= i < |t.log| && t.log[i].operation == PublishOp ensures t.log[i].revision != step.hash {
          assert RevisionOf(t, t.log[i].service, t.log[i].revision);
        }
      }
    }
  }

  /** A mutation refuses, or leaves all but the managed offers alone, or replaces one row. */
  lemma MutateReplacesRow(env: Env, t: Tables, step: Step)
    requires step.MutateStep? && RowsSound(t) && IsHex64(step.newToken)
    ensures var t' := Mutated(env, t, step).tables;
      t'.(offers := t.offers) == t || ReplacesRow(t, t', step.service, step.newToken)
  {
    var o := Mutated(env, t, step);
    var t', s := o.tables, step.service;
    if o.reply.Ok? && t'.(offers := t.offers) != t {
      assert RowSound(t, s);
      var c := Requested(env, t, s, step.mutation).value;
      assert RowSound(t', s);
      forall x | x in t'.lifecycles && x != s && OfferedBy(t', x).Some? && OfferedBy(t', s).Some?
        ensures OfferedBy(t', x).value.0 == OfferedBy(t', s).value.0 ==> OfferedBy(t', x) == OfferedBy(t', s)
      {
        assert RowSound(t, x);
        var r := t.revisions[c.revision];
        assert !ConflictsWith(t, x, s, r.offerId, r.offerHash);
      }
    }
  }

  lemma MutateKeepsLog(env: Env, t: Tables, step: Step)
    requires step.MutateStep? && RowsSound(t) && LogSound(t)
    ensures LogSound(Mutated(env, t, step).tables)
  {
    var o := Mutated(env, t, step);
    if step.service in t.lifecycles {
      assert RowSound(t, step.service);
    }
    forall i | 0 <= i < |o.tables.log| ensures RevisionOf(o.tables, o.tables.log[i].service, o.tables.log[i].revision) {
      if i < |t.log| { assert RevisionOf(t, t.log[i].service, t.log[i].revision); }
    }
  }

  /** No invariant looks at the managed offers. */
  lemma OffersKeepInv(t: Tables, t': Tables, drawn: set<string>)
    requires Inv(t, drawn) && t'.(offers := t.offers) == t
    ensures Inv(t', drawn)
  {
    assert forall x | x in t.lifecycles :: RowSound(t, x) && RowSound(t', x);
    assert forall k | k in t.grants :: ExactlyActive(t, k, t.grants[k]) && ExactlyActive(t', k, t.grants[k]);
    assert forall x :: OfferedBy(t', x) == OfferedBy(t, x);
    forall i | 0 <= i < |t'.log| ensures RevisionOf(t', t'.log[i].service, t'.log[i].revision) {
      assert RevisionOf(t, t.log[i].service, t.log[i].revision);
    }
  }

  lemma ReplaceKeepsInv(t: Tables, t': Tables, s: string, newToken: string, drawn: set<string>)
    requires Inv(t, drawn) && newToken !in drawn
    requires t'.(offers := t.offers) == t || ReplacesRow(t, t', s, newToken)
    requires LogSound(t')
    ensures Inv(t', drawn + {newToken})
  {
    if t'.(offers := t.offers) == t {
      OffersKeepInv(t, t', drawn);
    } else {
      ReplacedRows(t, t', s, newToken);
      ReplacedGrants(t, t', s, newToken);
      ReplacedOffers(t, t', s, newToken);
      ReplacedTokens(t, t', s, newToken, drawn);
    }
  }

  // -- identity reconciliation

  lemma IdentityRows(env: Env, t: Tables, provider: string, now: int)
    requires RowsSound(t)
    ensures RowsSound(IdentityReconciled(env, t, provider, now).tables)
  {
    var t' := IdentityReconciled(env, t, provider, now).tables;
    forall s | s in t'.lifecycles ensures RowSound(t', s) {
      assert RowSound(t, s);
    }
  }

  lemma IdentityGrantsAndOffers(env: Env, t: Tables, provider: string, now: int)
    requires RowsSound(t) && GrantsExact(t) && OffersAgree(t)
    ensures GrantsExact(IdentityReconciled(env, t, provider, now).tables)
    ensures OffersAgree(IdentityReconciled(env, t, provider, now).tables)
  {
    var t' := IdentityReconciled(env, t, provider, now).tables;
    forall s | s in t.lifecycles ensures OfferedBy(t', s) == None || OfferedBy(t', s) == OfferedBy(t, s) {}
    forall k | k in t'.grants ensures ExactlyActive(t', k, t'.grants[k]) {
      assert k in t.grants && ExactlyActive(t, k, t.grants[k]);
    }
  }

  lemma IdentityTokens(env: Env, t: Tables, provider: string, now: int, drawn: set<string>)
    requires TokensDistinct(t) && TokensFrom(t, drawn)
    ensures TokensDistinct(IdentityReconciled(env, t, provider, now).tables)
    ensures TokensFrom(IdentityReconciled(env, t, provider, now).tables, drawn)
  {
    var t' := IdentityReconciled(env, t, provider, now).tables;
    assert forall s | s in t'.lifecycles :: s in t.lifecycles && t'.lifecycles[s].token == t.lifecycles[s].token;
  }

  lemma IdentityEntriesSound(env: Env, t: Tables, provider: string, now: int)
    requires RowsSound(t)
    ensures forall e | e in IdentityEntries(env, t, provider, now) ::
      e.operation == PauseOp && RevisionOf(t, e.service, e.revision)
  {
    var order := Ordered(ForeignServices(env, t, provider));
    var entries := IdentityEntries(env, t, provider, now);
    forall i | 0 <= i < |entries| ensures RevisionOf(t, entries[i].service, entries[i].revision) {
      assert order[i] in order;
      assert RowSound(t, order[i]);
    }
  }

  /** Appending entries that publish nothing keeps the log sound. */
  lemma AppendedLog(t: Tables, t': Tables, entries: seq<LogEntry>)
    requires LogSound(t) && t'.revisions == t.revisions && t'.log == t.log + entries
    requires forall e | e in entries :: e.operation == PauseOp && RevisionOf(t, e.service, e.revision)
    ensures LogSound(t')
  {
    forall i | 0 <= i < |t'.log|
      ensures RevisionOf(t', t'.log[i].service, t'.log[i].revision)
      ensures i >= |t.log| ==> t'.log[i].operation == PauseOp
    {
      if i < |t.log| {
        assert RevisionOf(t, t.log[i].service, t.log[i].revision);
      } else {
        assert t'.log[i] == entries[i - |t.log|] && t'.log[i] in entries;
      }
    }
  }

  lemma IdentityLog(env: Env, t: Tables, provider: string, now: int)
    requires RowsSound(t) && LogSound(t)
    ensures LogSound(IdentityReconciled(env, t, provider, now).tables)
  {
    var o := IdentityReconciled(env, t, provider, now);
    if o.reply.Ok? {
      IdentityEntriesSound(env, t, provider, now);
      AppendedLog(t, o.tables, IdentityEntries(env, t, provider, now));
    }
  }

  // -- all steps

  lemma FewerGrantsKeepInv(t: Tables, t': Tables, drawn: set<string>)
    requires Inv(t, drawn) && t'.(grants := t.grants) == t
    requires forall k | k in t'.grants :: ExactlyActive(t, k, t'.grants[k])
    ensures Inv(t', drawn)
  {
    assert forall s | s in t.lifecycles :: RowSound(t, s) && RowSound(t', s);
    assert forall s :: OfferedBy(t', s) == OfferedBy(t, s);
    forall i | 0 <= i < |t'.log| ensures RevisionOf(t', t'.log[i].service, t'.log[i].revision) {
      assert RevisionOf(t, t.log[i].service, t.log[i].revision);
    }
  }

  /** Grants are only written for the exact activation, and otherwise only removed. */
  lemma GrantStepsStayExact(env: Env, t: Tables, step: Step)
    requires GrantsExact(t)
    requires step.GrantStep? || step.WithdrawStep? || step.ReconcileGrantsStep? || step.ReconcileRelayStep?
    ensures var t' := Next(env, t, step).tables;
      t'.(grants := t.grants) == t && forall k | k in t'.grants :: ExactlyActive(t, k, t'.grants[k])
  {
    var grants := match step
      case GrantStep(_, _) => GrantPersisted(t, step).tables.grants
      case WithdrawStep(_, _, _, _, _) => GrantWithdrawn(t, step).tables.grants
      case ReconcileGrantsStep => ExactGrants(t)
      case ReconcileRelayStep(expected) => EndpointGrants(ExactGrants(t), expected);
    forall k | k in grants ensures ExactlyActive(t, k, grants[k]) {
      assert k in t.grants ==> ExactlyActive(t, k, t.grants[k]);
    }
  }

  lemma GrantStepKeepsInv(env: Env, t: Tables, step: Step, drawn: set<string>)
    requires Inv(t, drawn)
    requires step.GrantStep? || step.WithdrawStep? || step.ReconcileGrantsStep? || step.ReconcileRelayStep?
    ensures Inv(Next(env, t, step).tables, drawn)
  {
    GrantStepsStayExact(env, t, step);
    FewerGrantsKeepInv(t, Next(env, t, step).tables, drawn);
  }

  lemma IdentityKeepsInv(env: Env, t: Tables, provider: string, now: int, drawn: set<string>)
    requires Inv(t, drawn)
    ensures Inv(IdentityReconciled(env, t, provider, now).tables, drawn)
  {
    IdentityRows(env, t, provider, now);
    IdentityGrantsAndOffers(env, t, provider, now);
    IdentityLog(env, t, provider, now);
    IdentityTokens(env, t, provider, now, drawn);
  }

  lemma PublishKeepsInv(t: Tables, step: Step, drawn: set<string>)
    requires step.PublishStep? && Inv(t, drawn) && Usable(step, drawn)
    ensures Inv(Published(t, step).tables, drawn + {step.newToken})
  {
    assert step.newToken in Draw(step);
    PublishReplacesRow(t, step);
    PublishKeepsLog(t, step);
    ReplaceKeepsInv(t, Published(t, step).tables, step.revision.service, step.newToken, drawn);
  }

  lemma MutateKeepsInv(env: Env, t: Tables, step: Step, drawn: set<string>)
    requires step.MutateStep? && Inv(t, drawn) && Usable(step, drawn)
    ensures Inv(Mutated(env, t, step).tables, drawn + {step.newToken})
  {
    assert step.newToken in Draw(step);
    MutateReplacesRow(env, t, step);
    MutateKeepsLog(env, t, step);
    ReplaceKeepsInv(t, Mutated(env, t, step).tables, step.service, step.newToken, drawn);
  }

  lemma NextKeepsInv(env: Env, t: Tables, step: Step, drawn: set<string>)
    requires Inv(t, drawn) && Usable(step, drawn)
    ensures Inv(Next(env, t, step).tables, drawn + Draw(step))
  {
    match step
    case PublishStep(_, _, _, _, _, _) => PublishKeepsInv(t, step, drawn);
    case MutateStep(_, _, _, _, _) => MutateKeepsInv(env, t, step, drawn);
    case ReconcileIdentityStep(provider, now) =>
      IdentityKeepsInv(env, t, provider, now, drawn);
      assert drawn + Draw(step) == drawn;
    case DefineOfferStep(_, _, _) =>
      OffersKeepInv(t, Next(env, t, step).tables, drawn);
      assert drawn + Draw(step) == drawn;
    case _ =>
      GrantStepKeepsInv(env, t, step, drawn);
      assert drawn + Draw(step) == drawn;
  }

  lemma StepKeepsInv(env: Env, run: Run, k: nat)
    requires IsRun(env, run) && k < |run.steps|
    requires Inv(run.tables[k], Drawn(run.steps, k))
    ensures Inv(run.tables[k + 1], Drawn(run.steps, k + 1))
  {
    DrawIsNew(run.steps, k);
    assert Follows(env, run, k);
    NextKeepsInv(env, run.tables[k], run.steps[k], Drawn(run.steps, k));
  }

  /** Every state of every run satisfies the invariants. */
  lemma {:induction false} RunKeepsInv(env: Env, run: Run, k: nat)
    requires IsRun(env, run) && k < |run.tables|
    ensures Inv(run.tables[k], Drawn(run.steps, k))
  {
    if k > 0 {
      RunKeepsInv(env, run, k - 1);
      StepKeepsInv(env, run, k - 1);
    }
  }

  // ---------------------------------------------------------------- grants are exact

  /** In every reachable state the base reconciliation finds nothing to delete. */
  lemma ReconciliationDeletesNothing(env: Env, run: Run, k: nat)
    requires IsRun(env, run) && k < |run.tables|
    ensures GrantsExact(run.tables[k])
    ensures Next(env, run.tables[k], ReconcileGrantsStep) ==
      Outcome(run.tables[k], Ok(Listing(GrantListing(run.tables[k], "relay"))))
  {
    RunKeepsInv(env, run, k);
    var t := run.tables[k];
    assert ExactGrants(t) == t.grants;
  }

  /** The listing of a transport holds every one of its grants, each once, with the offer of its
      revision, oldest first and grants of the same age by service. */
  ghost predicate ListsEveryGrant(t: Tables, transport: string, listing: seq<GrantRecord>) {
    && (forall key | key in t.grants && key.transport == transport ::
          exists i | 0 <= i < |listing| :: listing[i].key == key)
    && (forall i | 0 <= i < |listing| ::
          listing[i].key in t.grants && listing[i].key.transport == transport &&
          listing[i].grant == t.grants[listing[i].key] && OfferOfGrant(t, listing[i]))
    && (forall i, j | 0 <= i < j < |listing| :: listing[i].key != listing[j].key && Before(listing[i], listing[j]))
  }

  ghost predicate OfferOfGrant(t: Tables, r: GrantRecord) {
    && r.grant.revision in t.revisions
    && r.offerId == t.revisions[r.grant.revision].offerId && r.offerHash == t.revisions[r.grant.revision].offerHash
  }

  ghost predicate Before(a: GrantRecord, b: GrantRecord) {
    || a.grant.updatedAt < b.grant.updatedAt
    || (a.grant.updatedAt == b.grant.updatedAt && TextLeq(a.key.service, b.key.service))
  }

  lemma ExactGrantsHaveKeys(t: Tables, transport: string)
    requires RowsSound(t) && GrantsExact(t)
    ensures ListedKeys(t, transport) ==
      set k | k in t.grants && k.transport == transport :: (t.grants[k].updatedAt, k.service)
  {
    forall key | key in t.grants && key.transport == transport ensures Listed(t, key) {
      assert ExactlyActive(t, key, t.grants[key]) && RowSound(t, key.service);
    }
  }

  lemma ListingFollowsKeys(t: Tables, transport: string, keys: seq<(int, string)>)
    requires ListsSet(keys, ListedKeys(t, transport)) && Ascending(GrantOrder, keys)
    requires TotalOrder(GrantOrder)
    ensures var listing := GrantListing(t, transport);
      && |listing| == |keys|
      && forall i | 0 <= i < |keys| ::
           && listing[i].key == GrantKey(transport, keys[i].1)
           && listing[i].key in t.grants && listing[i].grant == t.grants[listing[i].key]
           && listing[i].grant.updatedAt == keys[i].0
           && OfferOfGrant(t, listing[i])
  {
    ListingUnique(keys, Sorted(ListedKeys(t, transport), GrantOrder), ListedKeys(t, transport), GrantOrder);
    assert forall i | 0 <= i < |keys| :: keys[i] in keys;
  }

  lemma ExactGrantsAreListed(t: Tables, transport: string)
    requires RowsSound(t) && GrantsExact(t)
    ensures ListsEveryGrant(t, transport, GrantListing(t, transport))
  {
    GrantOrderTotal();
    var keys := Sorted(ListedKeys(t, transport), GrantOrder);
    ListingFollowsKeys(t, transport, keys);
    ExactGrantsHaveKeys(t, transport);
    forall key | key in t.grants && key.transport == transport
      ensures exists i | 0 <= i < |keys| :: GrantListing(t, transport)[i].key == key
    {
      assert (t.grants[key].updatedAt, key.service) in keys;
      var i :| 0 <= i < |keys| && keys[i] == (t.grants[key].updatedAt, key.service);
      assert GrantListing(t, transport)[i].key == key;
    }
    var listing := GrantListing(t, transport);
    forall i, j | 0 <= i < j < |keys| ensures keys[i].1 != keys[j].1 && Before(listing[i], listing[j]) {
      assert GrantOrder(keys[i], keys[j]) && keys[i] != keys[j];
      assert keys[i] in keys && keys[j] in keys;
    }
  }

  /** In every reachable state the joins of the grant listing drop no row. */
  lemma ListingDropsNothing(env: Env, run: Run, k: nat, transport: string)
    requires IsRun(env, run) && k < |run.tables|
    ensures ListsEveryGrant(run.tables[k], transport, GrantListing(run.tables[k], transport))
  {
    RunKeepsInv(env, run, k);
    ExactGrantsAreListed(run.tables[k], transport);
  }

  // ---------------------------------------------------------------- activation epochs

  /** The lifecycle table after each step, and the tokens each step may draw. */
  ghost predicate EpochTrace(trace: seq<map<string, Lifecycle>>, draws: seq<set<string>>) {
    && |trace| == |draws| + 1
    && trace[0] == map[]
    && (forall i, j | 0 <= i < j < |draws| :: draws[i] !! draws[j])
    && (forall k | 0 <= k < |draws| :: EpochStep(trace[k], trace[k + 1], draws[k]))
    && (forall k | 0 <= k < |trace| :: DistinctRows(trace[k]))
  }

  ghost predicate EpochStep(rows: map<string, Lifecycle>, rows': map<string, Lifecycle>, draw: set<string>) {
    forall s | s in rows' :: Continues(rows, rows', s) || rows'[s].token in draw
  }

  ghost predicate DistinctRows(rows: map<string, Lifecycle>) {
    forall a, b | a in rows && b in rows && a != b :: rows[a].token != rows[b].token
  }

  lemma {:induction false} TraceTokenWasDrawn(
    trace: seq<map<string, Lifecycle>>, draws: seq<set<string>>, k: nat, s: string)
    requires EpochTrace(trace, draws) && k < |trace| && s in trace[k]
    ensures exists d | 0 <= d < k :: trace[k][s].token in draws[d]
  {
    if k > 0 {
      assert EpochStep(trace[k - 1], trace[k], draws[k - 1]);
      if trace[k][s].token !in draws[k - 1] {
        TraceTokenWasDrawn(trace, draws, k - 1, s);
      }
    }
  }

  /** A token seen at `i` can only be carried into `k`, never drawn again. */
  lemma OldTokenIsCarried(
    trace: seq<map<string, Lifecycle>>, draws: seq<set<string>>, i: nat, k: nat, a: string, b: string)
    requires EpochTrace(trace, draws) && i < k < |trace|
    requires a in trace[i] && b in trace[k] && trace[i][a].token == trace[k][b].token
    ensures Continues(trace[k - 1], trace[k], b)
  {
    TraceTokenWasDrawn(trace, draws, i, a);
    assert EpochStep(trace[k - 1], trace[k], draws[k - 1]);
  }

  lemma {:induction false} TraceTokenNamesOneEpoch(
    trace: seq<map<string, Lifecycle>>, draws: seq<set<string>>, i: nat, k: nat, a: string, b: string)
    requires EpochTrace(trace, draws) && i <= k < |trace|
    requires a in trace[i] && b in trace[k] && trace[i][a].token == trace[k][b].token
    ensures a == b && Continues(trace[i], trace[k], a)
    decreases k
  {
    if i < k {
      OldTokenIsCarried(trace, draws, i, k, a, b);
      TraceTokenNamesOneEpoch(trace, draws, i, k - 1, a, b);
    }
  }

  lemma {:induction false} TraceEpochNeverReturns(
    trace: seq<map<string, Lifecycle>>, draws: seq<set<string>>, i: nat, j: nat, k: nat, s: string, x: string)
    requires EpochTrace(trace, draws) && i <= j <= k < |trace|
    requires s in trace[i] && s in trace[j] && trace[j][s].token != trace[i][s].token
    requires x in trace[k]
    ensures trace[k][x].token != trace[i][s].token
    decreases k
  {
    if trace[k][x].token == trace[i][s].token {
      TraceTokenNamesOneEpoch(trace, draws, i, k, s, x);
      if j < k {
        OldTokenIsCarried(trace, draws, i, k, s, x);
        TraceEpochNeverReturns(trace, draws, i, j, k - 1, s, x);
      }
    }
  }

  lemma UntouchedRowsContinue(rows: map<string, Lifecycle>, rows': map<string, Lifecycle>, draw: set<string>)
    requires rows'.Keys == rows.Keys
    requires forall s | s in rows ::
      rows'[s].token == rows[s].token && rows'[s].selected == rows[s].selected &&
      Rank(rows[s].status) <= Rank(rows'[s].status)
    ensures EpochStep(rows, rows', draw)
  {
  }

  lemma ReplacedRowContinues(t: Tables, t': Tables, s: string, newToken: string)
    requires ReplacesRow(t, t', s, newToken)
    ensures EpochStep(t.lifecycles, t'.lifecycles, {newToken})
  {
  }

  lemma PublishContinuesEpochs(t: Tables, step: Step)
    requires step.PublishStep? && RowsSound(t) && IsHex64(step.newToken)
    ensures EpochStep(t.lifecycles, Published(t, step).tables.lifecycles, {step.newToken})
  {
    PublishReplacesRow(t, step);
    var o := Published(t, step);
    if o.reply.Ok? {
      ReplacedRowContinues(t, o.tables, step.revision.service, step.newToken);
    } else {
      UntouchedRowsContinue(t.lifecycles, t.lifecycles, {step.newToken});
    }
  }

  lemma MutateContinuesEpochs(env: Env, t: Tables, step: Step)
    requires step.MutateStep? && RowsSound(t) && IsHex64(step.newToken)
    ensures EpochStep(t.lifecycles, Mutated(env, t, step).tables.lifecycles, {step.newToken})
  {
    MutateReplacesRow(env, t, step);
    var t' := Mutated(env, t, step).tables;
    if t'.(offers := t.offers) == t {
      UntouchedRowsContinue(t.lifecycles, t'.lifecycles, {step.newToken});
    } else {
      ReplacedRowContinues(t, t', step.service, step.newToken);
    }
  }

  lemma IdentityContinuesEpochs(env: Env, t: Tables, provider: string, now: int)
    ensures EpochStep(t.lifecycles, IdentityReconciled(env, t, provider, now).tables.lifecycles, {})
  {
    UntouchedRowsContinue(t.lifecycles, IdentityReconciled(env, t, provider, now).tables.lifecycles, {});
  }

  lemma NextContinuesEpochs(env: Env, t: Tables, step: Step)
    requires RowsSound(t) && forall x | x in Draw(step) :: IsHex64(x)
    ensures EpochStep(t.lifecycles, Next(env, t, step).tables.lifecycles, Draw(step))
  {
    if step.PublishStep? {
      assert Draw(step) == {step.newToken} && step.newToken in Draw(step);
      PublishContinuesEpochs(t, step);
    } else if step.MutateStep? {
      assert Draw(step) == {step.newToken} && step.newToken in Draw(step);
      MutateContinuesEpochs(env, t, step);
    } else if step.ReconcileIdentityStep? {
      IdentityContinuesEpochs(env, t, step.provider, step.now);
    } else {
      assert Next(env, t, step).tables.lifecycles == t.lifecycles;
      UntouchedRowsContinue(t.lifecycles, t.lifecycles, Draw(step));
    }
  }

  ghost function RowsTrace(run: Run): seq<map<string, Lifecycle>> {
    seq(|run.tables|, k requires 0 <= k < |run.tables| => run.tables[k].lifecycles)
  }

  ghost function Draws(steps: seq<Step>): seq<set<string>> {
    seq(|steps|, k requires 0 <= k < |steps| => Draw(steps[k]))
  }

  lemma StepContinuesEpochs(env: Env, run: Run, k: nat)
    requires IsRun(env, run) && k < |run.steps|
    ensures EpochStep(run.tables[k].lifecycles, run.tables[k + 1].lifecycles, Draw(run.steps[k]))
  {
    RunKeepsInv(env, run, k);
    assert Follows(env, run, k);
    NextContinuesEpochs(env, run.tables[k], run.steps[k]);
  }

  lemma RowsAreDistinct(env: Env, run: Run, k: nat)
    requires IsRun(env, run) && k < |run.tables|
    ensures DistinctRows(run.tables[k].lifecycles)
  {
    RunKeepsInv(env, run, k);
  }

  lemma RunIsEpochTrace(env: Env, run: Run)
    requires IsRun(env, run)
    ensures EpochTrace(RowsTrace(run), Draws(run.steps))
  {
    var trace, draws := RowsTrace(run), Draws(run.steps);
    forall k | 0 <= k < |draws| ensures EpochStep(trace[k], trace[k + 1], draws[k]) {
      StepContinuesEpochs(env, run, k);
    }
    forall k | 0 <= k < |trace| ensures DistinctRows(trace[k]) {
      RowsAreDistinct(env, run, k);
    }
  }

  /** Over a whole run a token belongs to one service and one revision, and the status under
      it only moves active, paused, unpublished. */
  lemma TokenNamesOneEpoch(env: Env, run: Run, i: nat, k: nat, a: string, b: string)
    requires IsRun(env, run) && i <= k < |run.tables|
    requires a in run.tables[i].lifecycles && b in run.tables[k].lifecycles
    requires run.tables[i].lifecycles[a].token == run.tables[k].lifecycles[b].token
    ensures a == b && Continues(run.tables[i].lifecycles, run.tables[k].lifecycles, a)
  {
    RunIsEpochTrace(env, run);
    TraceTokenNamesOneEpoch(RowsTrace(run), Draws(run.steps), i, k, a, b);
  }

  /** Some step `i` had `token` as the token of `s`, and a later step `j` another one. */
  ghost predicate EpochEnded(run: Run, i: nat, j: nat, s: string, token: string)
    requires i <= j < |run.tables|
  {
    && s in run.tables[i].lifecycles && run.tables[i].lifecycles[s].token == token
    && s in run.tables[j].lifecycles && run.tables[j].lifecycles[s].token != token
  }

  /** Once a service has moved off a token, that token never becomes current again. */
  lemma EpochNeverReturns(env: Env, run: Run, i: nat, j: nat, k: nat, s: string, token: string)
    requires IsRun(env, run) && i <= j <= k < |run.tables|
    requires EpochEnded(run, i, j, s, token)
    ensures forall x | x in run.tables[k].lifecycles :: run.tables[k].lifecycles[x].token != token
  {
    RunIsEpochTrace(env, run);
    var trace: seq<map<string, Lifecycle>> := RowsTrace(run);
    forall x | x in trace[k] ensures trace[k][x].token != token {
      TraceEpochNeverReturns(trace, Draws(run.steps), i, j, k, s, x);
    }
  }

  lemma StaleTokenIsInert(env: Env, t: Tables, token: string, pause: Step, withdraw: Step)
    requires GrantsExact(t)
    requires forall x | x in t.lifecycles :: t.lifecycles[x].token != token
    requires pause.MutateStep? && pause.mutation.PauseExact? && pause.mutation.token == token
    requires withdraw.WithdrawStep? && withdraw.token == token
    ensures Next(env, t, pause).reply.Err? && Next(env, t, pause).tables == t
    ensures Next(env, t, withdraw) == Outcome(t, Ok(Removed(false)))
  {
    if withdraw.key in t.grants {
      assert ExactlyActive(t, withdraw.key, t.grants[withdraw.key]);
    }
  }

  /** A delayed exact pause or exact withdrawal that carries the token of an earlier epoch
      changes nothing in any later state, whatever revision is selected by then. */
  lemma DelayedExactOperationsAreInert(
    env: Env, run: Run, i: nat, j: nat, k: nat, s: string, token: string, pause: Step, withdraw: Step)
    requires IsRun(env, run) && i <= j <= k < |run.tables|
    requires EpochEnded(run, i, j, s, token)
    requires pause.MutateStep? && pause.mutation.PauseExact? && pause.mutation.token == token
    requires withdraw.WithdrawStep? && withdraw.token == token
    ensures Next(env, run.tables[k], pause).reply.Err?
    ensures Next(env, run.tables[k], pause).tables == run.tables[k]
    ensures Next(env, run.tables[k], withdraw) == Outcome(run.tables[k], Ok(Removed(false)))
  {
    EpochNeverReturns(env, run, i, j, k, s, token);
    RunKeepsInv(env, run, k);
    StaleTokenIsInert(env, run.tables[k], token, pause, withdraw);
  }

  // ---------------------------------------------------------------- offers, revisions, failures

  /** No reachable state has two active services that share an offer id but differ in hash. */
  lemma ActiveOffersAgree(env: Env, run: Run, k: nat, a: string, b: string)
    requires IsRun(env, run) && k < |run.tables|
    requires a in run.tables[k].lifecycles && run.tables[k].lifecycles[a].status == Active
    requires b in run.tables[k].lifecycles && run.tables[k].lifecycles[b].status == Active
    ensures var t := run.tables[k];
      var ra, rb := t.lifecycles[a].selected, t.lifecycles[b].selected;
      && t.lifecycles[a].active == Some(ra) && RevisionOf(t, a, ra)
      && t.lifecycles[b].active == Some(rb) && RevisionOf(t, b, rb)
      && (t.revisions[ra].offerId == t.revisions[rb].offerId ==>
            t.revisions[ra].offerHash == t.revisions[rb].offerHash)
  {
    RunKeepsInv(env, run, k);
    var t := run.tables[k];
    assert RowSound(t, a) && RowSound(t, b);
    assert OfferedBy(t, a).Some? && OfferedBy(t, b).Some?;
  }

  /** Another service advertises the offer id under a different hash. */
  ghost predicate Clashes(t: Tables, x: string, service: string, offerId: string, offerHash: string) {
    && x != service && OfferedBy(t, x).Some?
    && OfferedBy(t, x).value.0 == offerId && OfferedBy(t, x).value.1 != offerHash
  }

  lemma ConflictIsClash(t: Tables, service: string, offerId: string, offerHash: string)
    requires RowsSound(t)
    ensures OfferConflict(t, service, offerId, offerHash) <==> exists x :: Clashes(t, x, service, offerId, offerHash)
  {
    forall x | x in t.lifecycles
      ensures ConflictsWith(t, x, service, offerId, offerHash) <==> Clashes(t, x, service, offerId, offerHash)
    {
      assert RowSound(t, x);
    }
    if x :| Clashes(t, x, service, offerId, offerHash) {
      assert ConflictsWith(t, x, service, offerId, offerHash);
    }
  }

  lemma StoringKeepsOffers(t: Tables, hash: string, revision: Revision, now: int)
    requires RowsSound(t)
    ensures var t1 := t.(revisions := StoredRevisions(t, hash, revision, now));
      RowsSound(t1) && forall x :: OfferedBy(t1, x) == OfferedBy(t, x)
  {
    var t1 := t.(revisions := StoredRevisions(t, hash, revision, now));
    forall x | x in t.lifecycles ensures RowSound(t1, x) && OfferedBy(t1, x) == OfferedBy(t, x) {
      assert RowSound(t, x);
    }
  }

  /** A publish is accepted exactly when it asks for active or paused, does not contradict the
      stored revision of the same hash, and, to become active, clashes with no other service. */
  lemma PublishSucceedsExactly(env: Env, run: Run, k: nat, step: Step)
    requires IsRun(env, run) && k < |run.tables| && step.PublishStep?
    ensures var t, r := run.tables[k], step.revision;
      Next(env, t, step).reply.Ok? <==>
        && step.status != Unpublished
        && (step.hash in t.revisions ==> SameContent(t.revisions[step.hash], r))
        && (step.status == Active ==> !exists x :: Clashes(t, x, r.service, r.offerId, r.offerHash))
  {
    RunKeepsInv(env, run, k);
    var t, r := run.tables[k], step.revision;
    var t1 := t.(revisions := StoredRevisions(t, step.hash, r, step.now));
    StoringKeepsOffers(t, step.hash, r, step.now);
    ConflictIsClash(t1, r.service, r.offerId, r.offerHash);
    assert forall x ::
      Clashes(t1, x, r.service, r.offerId, r.offerHash) <==> Clashes(t, x, r.service, r.offerId, r.offerHash);
  }

  /** In a reachable state a resume fails only for an unknown or unpublished service, a
      revision row that does not decode, or a clash; a missing revision is impossible. */
  lemma ResumeSucceedsExactly(env: Env, run: Run, k: nat, step: Step)
    requires IsRun(env, run) && k < |run.tables| && step.MutateStep? && step.mutation == Resume
    ensures var t, s := run.tables[k], step.service;
      && Next(env, t, step).reply != Err(RevisionNotFound)
      && (Next(env, t, step).reply.Ok? <==>
            && s in t.lifecycles && t.lifecycles[s].status != Unpublished
            && t.lifecycles[s].selected in t.revisions
            && var r := t.revisions[t.lifecycles[s].selected];
               Decodes(env, r) && !exists x :: Clashes(t, x, s, r.offerId, r.offerHash))
  {
    RunKeepsInv(env, run, k);
    var t, s := run.tables[k], step.service;
    if s in t.lifecycles {
      assert RowSound(t, s);
      var r := t.revisions[t.lifecycles[s].selected];
      ConflictIsClash(t, s, r.offerId, r.offerHash);
    }
  }

  /** A rollback is accepted exactly when the service is known, the revision is one of its own
      and decodes, and no other service's active offer clashes; whatever the status. */
  lemma RollbackSucceedsExactly(env: Env, run: Run, k: nat, step: Step)
    requires IsRun(env, run) && k < |run.tables| && step.MutateStep? && step.mutation.Rollback?
    ensures var t, s, h := run.tables[k], step.service, step.mutation.revision;
      Next(env, t, step).reply.Ok? <==>
        && s in t.lifecycles && RevisionOf(t, s, h)
        && Decodes(env, t.revisions[h])
        && !exists x :: Clashes(t, x, s, t.revisions[h].offerId, t.revisions[h].offerHash)
  {
    RunKeepsInv(env, run, k);
    var t, h := run.tables[k], step.mutation.revision;
    RollbackAccepted(env, t, step);
    if h in t.revisions {
      ConflictIsClash(t, step.service, t.revisions[h].offerId, t.revisions[h].offerHash);
    }
  }

  lemma RollbackAccepted(env: Env, t: Tables, step: Step)
    requires step.MutateStep? && step.mutation.Rollback?
    ensures var s, h := step.service, step.mutation.revision;
      Mutated(env, t, step).reply.Ok? <==>
        && s in t.lifecycles && RevisionOf(t, s, h)
        && Decodes(env, t.revisions[h])
        && !OfferConflict(t, s, t.revisions[h].offerId, t.revisions[h].offerHash)
  {
  }

  // ---------------------------------------------------------------- repeated mutations

  /** The mutation asks for what the row already says. */
  ghost predicate Repeats(env: Env, t: Tables, row: Lifecycle, m: Mutation) {
    match m
    case Pause => row.status == Paused
    case PauseExact(revision, token) => row.status == Paused && row.selected == revision && row.token == token
    case Resume => row.status == Active && row.selected in t.revisions && Decodes(env, t.revisions[row.selected])
    case Unpublish => row.status == Unpublished
    case Rollback(revision) =>
      && row.status == Active && row.selected == revision
      && revision in t.revisions && Decodes(env, t.revisions[revision])
  }

  /** An active service does not clash with the others: their offers agree. */
  lemma ActiveDoesNotClash(t: Tables, s: string)
    requires RowsSound(t) && OffersAgree(t) && s in t.lifecycles && t.lifecycles[s].status == Active
    ensures RowSound(t, s)
    ensures var r := t.revisions[t.lifecycles[s].selected]; !OfferConflict(t, s, r.offerId, r.offerHash)
  {
    assert RowSound(t, s);
    var r := t.revisions[t.lifecycles[s].selected];
    assert OfferedBy(t, s) == Some((r.offerId, r.offerHash));
    ConflictIsClash(t, s, r.offerId, r.offerHash);
  }

  lemma RepeatOfRow(env: Env, t: Tables, step: Step)
    requires step.MutateStep? && step.service in t.lifecycles && RowSound(t, step.service)
    requires t.lifecycles[step.service].status == Active ==>
      var r := t.revisions[t.lifecycles[step.service].selected];
      !OfferConflict(t, step.service, r.offerId, r.offerHash)
    ensures Mutated(env, t, step).reply == Ok(Row(t.lifecycles[step.service])) <==>
      Repeats(env, t, t.lifecycles[step.service], step.mutation)
  {
  }

  /** In a reachable state a mutation is answered with the stored row exactly when it asks for
      what the row already says and, to stay active, the revision decodes; the shared-offer
      check cannot fail it. */
  lemma RepeatedExactly(env: Env, run: Run, k: nat, step: Step)
    requires IsRun(env, run) && k < |run.tables| && step.MutateStep? && step.service in run.tables[k].lifecycles
    ensures var t := run.tables[k];
      Next(env, t, step).reply == Ok(Row(t.lifecycles[step.service])) <==>
        Repeats(env, t, t.lifecycles[step.service], step.mutation)
  {
    RunKeepsInv(env, run, k);
    var t := run.tables[k];
    assert RowSound(t, step.service);
    if t.lifecycles[step.service].status == Active {
      ActiveDoesNotClash(t, step.service);
    }
    RepeatOfRow(env, t, step);
  }

  /** The managed offer of the revision is already stored as a rollback at `now` would. */
  ghost predicate OfferInPlace(env: Env, t: Tables, revision: string, now: int)
    requires revision in t.revisions
  {
    var r := t.revisions[revision];
    && r.offerId in t.offers
    && t.offers[r.offerId].definition == env.reserialized(r.definition)
    && t.offers[r.offerId].updatedAt == now
  }

  /** Such a repeated mutation leaves everything but the managed offers alone; and it rewrites
      those exactly when it is a rollback, to the revision the service is already active on,
      whose offer is not yet stored with that definition and time. */
  lemma RepeatChangesOnlyOffers(env: Env, run: Run, k: nat, step: Step)
    requires IsRun(env, run) && k < |run.tables|
    requires step.MutateStep? && step.service in run.tables[k].lifecycles
    requires Repeats(env, run.tables[k], run.tables[k].lifecycles[step.service], step.mutation)
    ensures var t, t' := run.tables[k], Next(env, run.tables[k], step).tables;
      && t'.(offers := t.offers) == t
      && (t' != t <==> step.mutation.Rollback? && !OfferInPlace(env, t, step.mutation.revision, step.now))
  {
    RepeatedExactly(env, run, k, step);
    RepeatIsUnchanged(env, run.tables[k], step);
  }

  lemma RepeatIsUnchanged(env: Env, t: Tables, step: Step)
    requires step.MutateStep? && step.service in t.lifecycles
    requires Mutated(env, t, step).reply == Ok(Row(t.lifecycles[step.service]))
    ensures Mutated(env, t, step).tables == t.(offers := OffersAfter(env, t, step.mutation, step.now))
    ensures !step.mutation.Rollback? ==> OffersAfter(env, t, step.mutation, step.now) == t.offers
  {
  }

  /** Such a rollback exists: publish, then roll back to the revision just published, one
      second later. The reply is the stored row and the committed managed offer is another. */
  lemma RepeatedRollbackRewritesOffer() returns (env: Env, run: Run)
    ensures IsRun(env, run) && |run.steps| == 2
    ensures run.steps[1].MutateStep? && run.steps[1].mutation.Rollback?
    ensures "s" in run.tables[1].lifecycles && run.replies[1] == Ok(Row(run.tables[1].lifecycles["s"]))
    ensures run.tables[2] != run.tables[1]
    ensures run.tables[1].offers == map["o" := ManagedOffer("d", 1, 1)]
    ensures run.tables[2].offers == map["o" := ManagedOffer("d", 1, 2)]
  {
    env := Env(_ => true, text => text, _ => None, (a, b) => a);
    var first, second := seq(64, _ => 'a'), seq(64, _ => 'b');
    var revision := Revision("s", "o", "h", "b", "signed", "d", 0);
    var publish := PublishStep("r", revision, Active, "e", first, 1);
    var rollback := MutateStep("s", Rollback("r"), "e", second, 2);
    assert first[0] != second[0];
    assert FreshTokens([publish, rollback]);
    run := RunsExist(env, [publish, rollback]);
    assert Follows(env, run, 0);
    var t := run.tables[1];
    assert !OfferConflict(EMPTY.(revisions := map["r" := revision.(createdAt := 1)]), "s", "o", "h");
    assert t.lifecycles.Keys == {"s"} && t.offers == map["o" := ManagedOffer("d", 1, 1)];
    assert Follows(env, run, 1);
    assert !OfferConflict(t, "s", "o", "h");
    assert run.tables[2].offers["o"].updatedAt == 2;
  }

  // ---------------------------------------------------------------- managed offers

  /** The offer id and definition that an accepted step stores, if it stores one: that of the
      published revision, of the rollback target as it is read back, or the one defined. */
  ghost function OfferWritten(env: Env, t: Tables, step: Step): Option<(string, string)> {
    match step
    case PublishStep(_, r, _, _, _, _) => Some((r.offerId, r.definition))
    case MutateStep(_, Rollback(h), _, _, _) =>
      if h in t.revisions then Some((t.revisions[h].offerId, env.reserialized(t.revisions[h].definition))) else None
    case DefineOfferStep(id, definition, _) => Some((id, definition))
    case _ => None
  }

  ghost predicate StoresOffer(env: Env, t: Tables, step: Step, reply: Result<Reply, Error>, id: string) {
    reply.Ok? && OfferWritten(env, t, step).Some? && OfferWritten(env, t, step).value.0 == id
  }

  /** An accepted step upserts the offer it names, if it names one, and no step touches another. */
  lemma StepMovesOffer(env: Env, t: Tables, step: Step, id: string)
    ensures var o := Next(env, t, step);
      if StoresOffer(env, t, step, o.reply, id)
      then
        && id in o.tables.offers
        && o.tables.offers[id] == ManagedOffer(
             OfferWritten(env, t, step).value.1, if id in t.offers then t.offers[id].createdAt else step.now, step.now)
      else (id in o.tables.offers <==> id in t.offers) && (id in t.offers ==> o.tables.offers[id] == t.offers[id])
  {
    if step.MutateStep? {
      MutationMovesOffers(env, t, step);
    } else if step.PublishStep? {
      PublishMovesOffers(t, step);
    }
  }

  lemma PublishMovesOffers(t: Tables, step: Step)
    requires step.PublishStep?
    ensures var o, r := Published(t, step), step.revision;
      o.tables.offers == if o.reply.Ok? then UpsertedOffer(t.offers, r.offerId, r.definition, step.now) else t.offers
  {
  }

  lemma MutationMovesOffers(env: Env, t: Tables, step: Step)
    requires step.MutateStep?
    ensures var o := Mutated(env, t, step);
      o.tables.offers == if o.reply.Ok? then OffersAfter(env, t, step.mutation, step.now) else t.offers
  {
  }

  ghost predicate StoresOfferAt(env: Env, run: Run, k: nat, id: string)
    requires IsRun(env, run) && k < |run.steps|
  {
    StoresOffer(env, run.tables[k], run.steps[k], run.replies[k], id)
  }

  /** Step `j` stored the offer, and no step between `j` and `k` stored it again. */
  ghost predicate LastStored(env: Env, run: Run, j: nat, k: nat, id: string)
    requires IsRun(env, run) && j < k < |run.tables|
  {
    StoresOfferAt(env, run, j, id) && forall m | j < m < k :: !StoresOfferAt(env, run, m, id)
  }

  /** Step `j` stored the offer for the first time. */
  ghost predicate FirstStored(env: Env, run: Run, j: nat, id: string)
    requires IsRun(env, run) && j < |run.steps|
  {
    StoresOfferAt(env, run, j, id) && forall m | 0 <= m < j :: !StoresOfferAt(env, run, m, id)
  }

  /** What the latest writer left: its definition and time, and the time of the first writer. */
  lemma {:induction false} ManagedOfferIsLastStored(env: Env, run: Run, i: nat, j: nat, k: nat, id: string)
    requires IsRun(env, run) && i <= j < k < |run.tables|
    requires FirstStored(env, run, i, id) && LastStored(env, run, j, k, id)
    ensures id in run.tables[k].offers
    ensures run.tables[k].offers[id] ==
      ManagedOffer(OfferWritten(env, run.tables[j], run.steps[j]).value.1, run.steps[i].now, run.steps[j].now)
    decreases k
  {
    var p := k - 1;
    assert Follows(env, run, p);
    StepMovesOffer(env, run.tables[p], run.steps[p], id);
    if j < p {
      assert !StoresOfferAt(env, run, p, id);
      ManagedOfferIsLastStored(env, run, i, j, p, id);
    } else if i < j {
      var before := LastStoredBefore(env, run, i, p, id);
      ManagedOfferIsLastStored(env, run, i, before, p, id);
    } else {
      NoOfferUnlessStored(env, run, p, id);
    }
  }

  /** A managed offer exists exactly when some accepted step stored it. */
  lemma ManagedOfferExistsExactly(env: Env, run: Run, k: nat, id: string)
    requires IsRun(env, run) && k < |run.tables|
    ensures id in run.tables[k].offers <==> exists m | 0 <= m < k :: StoresOfferAt(env, run, m, id)
  {
    if m :| 0 <= m < k && StoresOfferAt(env, run, m, id) {
      var i := FirstStoredUpTo(env, run, m, id);
      var j := LastStoredBefore(env, run, i, k, id);
      ManagedOfferIsLastStored(env, run, i, j, k, id);
    } else {
      NoOfferUnlessStored(env, run, k, id);
    }
  }

  lemma {:induction false} FirstStoredUpTo(env: Env, run: Run, m: nat, id: string) returns (i: nat)
    requires IsRun(env, run) && m < |run.steps| && StoresOfferAt(env, run, m, id)
    ensures i <= m && FirstStored(env, run, i, id)
  {
    if earlier :| 0 <= earlier < m && StoresOfferAt(env, run, earlier, id) {
      i := FirstStoredUpTo(env, run, earlier, id);
    } else {
      i := m;
    }
  }

  lemma {:induction false} LastStoredBefore(env: Env, run: Run, i: nat, k: nat, id: string) returns (j: nat)
    requires IsRun(env, run) && i < k < |run.tables| && StoresOfferAt(env, run, i, id)
    ensures i <= j < k && LastStored(env, run, j, k, id)
    decreases k - i
  {
    if m :| i < m < k && StoresOfferAt(env, run, m, id) {
      j := LastStoredBefore(env, run, m, k, id);
    } else {
      j := i;
    }
  }

  lemma {:induction false} NoOfferUnlessStored(env: Env, run: Run, k: nat, id: string)
    requires IsRun(env, run) && k < |run.tables|
    requires forall m | 0 <= m < k :: !StoresOfferAt(env, run, m, id)
    ensures id !in run.tables[k].offers
  {
    if k > 0 {
      NoOfferUnlessStored(env, run, k - 1, id);
      assert Follows(env, run, k - 1) && !StoresOfferAt(env, run, k - 1, id);
      StepMovesOffer(env, run.tables[k - 1], run.steps[k - 1], id);
    }
  }

  lemma NextAppends(env: Env, t: Tables, step: Step)
    ensures Extends(t, Next(env, t, step).tables)
    ensures t.log <= Next(env, t, step).tables.log
  {
  }

  lemma StepAppends(env: Env, run: Run, k: nat)
    requires IsRun(env, run) && k < |run.steps|
    ensures Extends(run.tables[k], run.tables[k + 1]) && run.tables[k].log <= run.tables[k + 1].log
  {
    assert Follows(env, run, k);
    NextAppends(env, run.tables[k], run.steps[k]);
  }

  /** Stored revisions never change and the operation log only grows. */
  lemma {:induction false} HistoryIsAppendOnly(env: Env, run: Run, i: nat, k: nat)
    requires IsRun(env, run) && i <= k < |run.tables|
    ensures Extends(run.tables[i], run.tables[k])
    ensures run.tables[i].log <= run.tables[k].log
    decreases k - i
  {
    if i < k {
      HistoryIsAppendOnly(env, run, i, k - 1);
      StepAppends(env, run, k - 1);
    }
  }

  /** A refused transaction leaves every table as it was. */
  lemma RefusalsChangeNothing(env: Env, run: Run, k: nat)
    requires IsRun(env, run) && k < |run.steps| && run.replies[k].Err?
    ensures run.tables[k + 1] == run.tables[k]
  {
    assert Follows(env, run, k);
  }

  /** Each (service, revision) is logged as published at most once, and only under the
      service the revision belongs to. */
  lemma PublishedOncePerRevision(env: Env, run: Run, k: nat)
    requires IsRun(env, run) && k < |run.tables|
    ensures LogSound(run.tables[k])
  {
    RunKeepsInv(env, run, k);
  }

  // ---------------------------------------------------------------- identity reconciliation

  /** A service is active on a revision signed by `provider` for exactly that hash. */
  ghost predicate ActiveFor(env: Env, t: Tables, provider: string, s: string)
    requires s in t.lifecycles
  {
    && RevisionOf(t, s, t.lifecycles[s].selected)
    && env.verified(t.revisions[t.lifecycles[s].selected].signed)
         == Some(SignedRevision(t.lifecycles[s].selected, provider))
  }

  /** Success leaves only the current provider's services active, reports exactly the
      others, in order, and touches nothing else but their grants and the log. */
  lemma IdentityReconciliationIsExact(env: Env, run: Run, k: nat, provider: string, now: int)
    requires IsRun(env, run) && k < |run.tables|
    requires Next(env, run.tables[k], ReconcileIdentityStep(provider, now)).reply.Ok?
    ensures var t, o := run.tables[k], Next(env, run.tables[k], ReconcileIdentityStep(provider, now));
      var t' := o.tables;
      && o.reply.value.PausedServices?
      && Ascending(TextLeq, o.reply.value.services)
      && t'.lifecycles.Keys == t.lifecycles.Keys
      && (forall s | s in t.lifecycles ::
            && (s in o.reply.value.services <==> t.lifecycles[s].status == Active && !ActiveFor(env, t, provider, s))
            && (s in o.reply.value.services ==>
                  t'.lifecycles[s] == t.lifecycles[s].(status := Paused, active := None, updatedAt := now))
            && (s !in o.reply.value.services ==> t'.lifecycles[s] == t.lifecycles[s]))
      && (forall s | s in t'.lifecycles && t'.lifecycles[s].status == Active :: ActiveFor(env, t', provider, s))
      && t'.revisions == t.revisions && t'.offers == t.offers
  {
    RunKeepsInv(env, run, k);
    var t := run.tables[k];
    forall s | s in t.lifecycles
      ensures s in ForeignServices(env, t, provider) <==>
        t.lifecycles[s].status == Active && !ActiveFor(env, t, provider, s)
    {
      assert RowSound(t, s);
      if t.lifecycles[s].status == Active {
        assert s in ActiveServices(t) && SoundlySigned(env, t, s);
      }
    }
  }

  /** A second reconciliation with the same identity pauses nothing and writes nothing. */
  lemma IdentityReconciliationIsIdempotent(env: Env, t: Tables, provider: string, now: int, later: int)
    requires IdentityReconciled(env, t, provider, now).reply.Ok?
    ensures var t' := IdentityReconciled(env, t, provider, now).tables;
      IdentityReconciled(env, t', provider, later) == Outcome(t', Ok(PausedServices([])))
  {
    var t' := IdentityReconciled(env, t, provider, now).tables;
    assert ActiveServices(t') <= ActiveServices(t);
    forall s | s in ActiveServices(t') ensures SoundlySigned(env, t', s) && !Foreign(env, t', provider, s) {
      assert SoundlySigned(env, t, s);
    }
    assert ForeignServices(env, t', provider) == {};
    assert Ordered({}) == [];
    assert PausedRows(t'.lifecycles, {}, later) == t'.lifecycles;
    assert WithoutGrantsOf(t'.grants, {}) == t'.grants;
  }

  /** It fails exactly on a malformed identity or an active revision whose signed document
      is invalid or names another hash; failing changes nothing. */
  lemma IdentityReconciliationFailsExactly(env: Env, run: Run, k: nat, provider: string, now: int)
    requires IsRun(env, run) && k < |run.tables|
    ensures var t, o := run.tables[k], Next(env, run.tables[k], ReconcileIdentityStep(provider, now));
      && (o.reply.Err? <==>
            || !IsHex64(provider)
            || exists s | s in t.lifecycles && t.lifecycles[s].status == Active ::
                 forall owner :: !ActiveFor(env, t, owner, s))
      && (o.reply.Err? ==> o.tables == t)
  {
    RunKeepsInv(env, run, k);
    var t := run.tables[k];
    forall s | s in t.lifecycles && t.lifecycles[s].status == Active
      ensures s in ActiveServices(t)
      ensures SoundlySigned(env, t, s) <==> exists owner :: ActiveFor(env, t, owner, s)
    {
      assert RowSound(t, s);
      if SoundlySigned(env, t, s) {
        assert ActiveFor(env, t, env.verified(ActiveRevision(t, s).signed).value.providerId, s);
      }
    }
  }
}
