/** What every publication transaction answers and stores, in terms of the tables before it and
    its arguments, and what that makes of a service over a whole run. */
module PublicationEffects {
  import opened Common
  import opened Ordering
  import opened Histories
  import opened Publications
  import opened PublicationRuns

  // ---------------------------------------------------------------- the shape of a change

  /** The grants of one service are gone, all others are as they were. */
  ghost predicate GrantsWithdrawn(grants: map<GrantKey, Grant>, grants': map<GrantKey, Grant>, service: string) {
    && (forall k :: k in grants' <==> k in grants && k.service != service)
    && (forall k | k in grants' :: grants'[k] == grants[k])
  }

  /** Answered with `row`, which replaces the row of the service alone; its grants are gone and
      the operation is logged. */
  ghost predicate Moves(t: Tables, o: Outcome, service: string, row: Lifecycle, entry: LogEntry) {
    && o.reply == Ok(Row(row))
    && o.tables.lifecycles == t.lifecycles[service := row]
    && o.tables.revisions == t.revisions
    && GrantsWithdrawn(t.grants, o.tables.grants, service)
    && o.tables.log == t.log + [entry]
  }

  ghost predicate Refused(t: Tables, o: Outcome, e: Error) {
    o == Outcome(t, Err(e))
  }

  // ---------------------------------------------------------------- pause and unpublish

  /** Whether an exact pause names the row's selection and token, and how it is refused. */
  ghost function ExactnessError(m: Mutation, row: Lifecycle): Option<Error> {
    if m.PauseExact? && row.selected != m.revision then Some(RevisionMismatch)
    else if m.PauseExact? && row.token != m.token then Some(TokenMismatch)
    else None
  }

  /** A pause, exact or not: refused for an unknown or unpublished service, and an exact one
      for another revision or token; repeated on a paused service it changes nothing; else
      the service is paused, with the same selection and token. */
  lemma PauseIsExact(env: Env, t: Tables, step: Step)
    requires step.MutateStep? && (step.mutation.Pause? || step.mutation.PauseExact?)
    ensures var o, s := Next(env, t, step), step.service;
      if s !in t.lifecycles then Refused(t, o, ServiceNotFound)
      else
        var row := t.lifecycles[s];
        if ExactnessError(step.mutation, row).Some? then Refused(t, o, ExactnessError(step.mutation, row).value)
        else if row.status == Unpublished then Refused(t, o, ServiceUnpublished)
        else if row.status == Paused then o == Outcome(t, Ok(Row(row)))
        else
          && Moves(t, o, s,
               Lifecycle(Paused, None, row.selected, row.token, row.createdAt, step.now),
               LogEntry(s, row.selected, PauseOp, step.evidence, step.now))
          && o.tables.offers == t.offers
  {
  }

  /** Unpublishing: refused for an unknown service; repeated it changes nothing; else the
      service is unpublished, with the same selection and token. */
  lemma UnpublishIsExact(env: Env, t: Tables, step: Step)
    requires step.MutateStep? && step.mutation.Unpublish?
    ensures var o, s := Next(env, t, step), step.service;
      if s !in t.lifecycles then Refused(t, o, ServiceNotFound)
      else
        var row := t.lifecycles[s];
        if row.status == Unpublished then o == Outcome(t, Ok(Row(row)))
        else
          && Moves(t, o, s,
               Lifecycle(Unpublished, None, row.selected, row.token, row.createdAt, step.now),
               LogEntry(s, row.selected, UnpublishOp, step.evidence, step.now))
          && o.tables.offers == t.offers
  {
  }

  // ---------------------------------------------------------------- resume and rollback

  /** Why a service cannot become active on one of its revisions. */
  ghost function ActivationRefusal(env: Env, t: Tables, service: string, h: string): Option<Error>
    requires h in t.revisions
  {
    if !env.parses(t.revisions[h].signed) || !env.parses(t.revisions[h].definition) then Some(Undecodable)
    else if exists x :: Clashes(t, x, service, t.revisions[h].offerId, t.revisions[h].offerHash)
    then Some(SharedOfferConflict)
    else None
  }

  lemma ActivationErrorIsRefusal(env: Env, t: Tables, service: string, h: string, c: Change)
    requires RowsSound(t) && RevisionOf(t, service, h) && c.status == Active && c.revision == h
    ensures ActivationError(env, t, service, c) == ActivationRefusal(env, t, service, h)
  {
    ConflictIsClash(t, service, t.revisions[h].offerId, t.revisions[h].offerHash);
  }

  /** A resume: refused for an unknown or unpublished service, a revision that does not decode
      or a clash; repeated on an active service it changes nothing; else the service is active
      on its selection again, under the new token. */
  lemma ResumeIsExact(env: Env, run: Run, k: nat, step: Step)
    requires IsRun(env, run) && k < |run.tables|
    requires step.MutateStep? && step.mutation.Resume?
    ensures var t, o, s := run.tables[k], Next(env, run.tables[k], step), step.service;
      if s !in t.lifecycles then Refused(t, o, ServiceNotFound)
      else
        var row := t.lifecycles[s];
        && row.selected in t.revisions
        && if row.status == Unpublished then Refused(t, o, ServiceUnpublished)
           else if ActivationRefusal(env, t, s, row.selected).Some? then
             Refused(t, o, ActivationRefusal(env, t, s, row.selected).value)
           else if row.status == Active then o == Outcome(t, Ok(Row(row)))
           else
             && Moves(t, o, s,
                  Lifecycle(Active, Some(row.selected), row.selected, step.newToken, row.createdAt, step.now),
                  LogEntry(s, row.selected, ResumeOp, step.evidence, step.now))
             && o.tables.offers == t.offers
  {
    RunKeepsInv(env, run, k);
    ResumedExactly(env, run.tables[k], step);
  }

  lemma ResumedExactly(env: Env, t: Tables, step: Step)
    requires RowsSound(t) && step.MutateStep? && step.mutation.Resume?
    ensures var o, s := Mutated(env, t, step), step.service;
      if s !in t.lifecycles then Refused(t, o, ServiceNotFound)
      else
        var row := t.lifecycles[s];
        && row.selected in t.revisions
        && if row.status == Unpublished then Refused(t, o, ServiceUnpublished)
           else if ActivationRefusal(env, t, s, row.selected).Some? then
             Refused(t, o, ActivationRefusal(env, t, s, row.selected).value)
           else if row.status == Active then o == Outcome(t, Ok(Row(row)))
           else
             && Moves(t, o, s,
                  Lifecycle(Active, Some(row.selected), row.selected, step.newToken, row.createdAt, step.now),
                  LogEntry(s, row.selected, ResumeOp, step.evidence, step.now))
             && o.tables.offers == t.offers
  {
    if step.service in t.lifecycles {
      var row := t.lifecycles[step.service];
      assert RowSound(t, step.service);
      ActivationErrorIsRefusal(
        env, t, step.service, row.selected, Change(Active, row.selected, row.status == Paused, true));
    }
  }

  /** A rollback: refused for an unknown service, a revision that is not one of its own or does
      not decode, or a clash; to the revision it is active on it keeps all but the managed
      offers; else the service is active on that revision, under the new token. */
  lemma RollbackIsExact(env: Env, run: Run, k: nat, step: Step)
    requires IsRun(env, run) && k < |run.tables|
    requires step.MutateStep? && step.mutation.Rollback?
    ensures var t, o, s, h := run.tables[k], Next(env, run.tables[k], step), step.service, step.mutation.revision;
      if s !in t.lifecycles then Refused(t, o, ServiceNotFound)
      else if h !in t.revisions || t.revisions[h].service != s then Refused(t, o, RevisionNotFound)
      else if ActivationRefusal(env, t, s, h).Some? then Refused(t, o, ActivationRefusal(env, t, s, h).value)
      else
        var row := t.lifecycles[s];
        if row.status == Active && row.selected == h
        then o.reply == Ok(Row(row)) && o.tables.(offers := t.offers) == t
        else
          Moves(t, o, s,
            Lifecycle(Active, Some(h), h, step.newToken, row.createdAt, step.now),
            LogEntry(s, h, RollbackOp, step.evidence, step.now))
  {
    RunKeepsInv(env, run, k);
    RolledBackExactly(env, run.tables[k], step);
  }

  lemma RolledBackExactly(env: Env, t: Tables, step: Step)
    requires RowsSound(t) && step.MutateStep? && step.mutation.Rollback?
    ensures var o, s, h := Mutated(env, t, step), step.service, step.mutation.revision;
      if s !in t.lifecycles then Refused(t, o, ServiceNotFound)
      else if h !in t.revisions || t.revisions[h].service != s then Refused(t, o, RevisionNotFound)
      else if ActivationRefusal(env, t, s, h).Some? then Refused(t, o, ActivationRefusal(env, t, s, h).value)
      else
        var row := t.lifecycles[s];
        if row.status == Active && row.selected == h
        then o.reply == Ok(Row(row)) && o.tables.(offers := t.offers) == t
        else
          Moves(t, o, s,
            Lifecycle(Active, Some(h), h, step.newToken, row.createdAt, step.now),
            LogEntry(s, h, RollbackOp, step.evidence, step.now))
  {
    var s, h := step.service, step.mutation.revision;
    if s in t.lifecycles && RevisionOf(t, s, h) {
      var row := t.lifecycles[s];
      ActivationErrorIsRefusal(env, t, s, h, Change(Active, h, row.status != Active || row.selected != h, true));
    }
  }

  // ---------------------------------------------------------------- publish

  /** The service already is what the publish asks for. */
  ghost predicate SameActivation(t: Tables, service: string, status: Status, h: string) {
    service in t.lifecycles && t.lifecycles[service].status == status && t.lifecycles[service].selected == h
  }

  ghost predicate LoggedAsPublished(log: seq<LogEntry>, service: string, h: string) {
    exists e | e in log :: e.operation == PublishOp && e.service == service && e.revision == h
  }

  /** The row an accepted publish leaves: the requested status on the published revision; the
      token and, of an old row, the creation time stay where nothing changes. */
  ghost function RowAfterPublish(t: Tables, step: Step): Lifecycle
    requires step.PublishStep?
  {
    var s := step.revision.service;
    Lifecycle(
      status := step.status,
      active := if step.status == Active then Some(step.hash) else None,
      selected := step.hash,
      token := if SameActivation(t, s, step.status, step.hash) then t.lifecycles[s].token else step.newToken,
      createdAt := if s in t.lifecycles then t.lifecycles[s].createdAt else step.now,
      updatedAt := step.now)
  }

  ghost predicate PublishesExactly(t: Tables, o: Outcome, step: Step)
    requires step.PublishStep?
  {
    var s, r := step.revision.service, step.revision;
    if step.status == Unpublished then Refused(t, o, InvalidInitialStatus)
    else if step.hash in t.revisions && t.revisions[step.hash].(createdAt := r.createdAt) != r then
      Refused(t, o, RevisionConflict)
    else if step.status == Active && exists x :: Clashes(t, x, s, r.offerId, r.offerHash) then
      Refused(t, o, SharedOfferConflict)
    else
      && o.reply == Ok(Row(RowAfterPublish(t, step)))
      && o.tables.lifecycles == t.lifecycles[s := RowAfterPublish(t, step)]
      && o.tables.revisions ==
           (if step.hash in t.revisions then t.revisions else t.revisions[step.hash := r.(createdAt := step.now)])
      && (if SameActivation(t, s, step.status, step.hash) then o.tables.grants == t.grants
          else GrantsWithdrawn(t.grants, o.tables.grants, s))
      && o.tables.log ==
           (if LoggedAsPublished(t.log, s, step.hash) then t.log
            else t.log + [LogEntry(s, step.hash, PublishOp, step.evidence, step.now)])
  }

  /** A publish: refused for an unpublished initial status, other content under a stored hash,
      or a clash when it becomes active; else the service has exactly the requested status on
      the published revision, under the new token unless it already had both, and no other
      service is touched. */
  lemma PublishIsExact(env: Env, run: Run, k: nat, step: Step)
    requires IsRun(env, run) && k < |run.tables| && step.PublishStep?
    ensures PublishesExactly(run.tables[k], Next(env, run.tables[k], step), step)
  {
    RunKeepsInv(env, run, k);
    PublishedExactly(run.tables[k], step);
  }

  lemma PublishedExactly(t: Tables, step: Step)
    requires RowsSound(t) && step.PublishStep?
    ensures PublishesExactly(t, Published(t, step), step)
  {
    var r := step.revision;
    var t1 := t.(revisions := StoredRevisions(t, step.hash, r, step.now));
    StoringKeepsOffers(t, step.hash, r, step.now);
    ConflictIsClash(t1, r.service, r.offerId, r.offerHash);
    assert forall x ::
      Clashes(t1, x, r.service, r.offerId, r.offerHash) <==> Clashes(t, x, r.service, r.offerId, r.offerHash);
    LoggedIsPublished(t.log, r.service, step.hash);
  }

  lemma LoggedIsPublished(log: seq<LogEntry>, service: string, h: string)
    ensures LoggedAsPublished(log, service, h) <==> AlreadyPublished(log, service, h)
  {
    if AlreadyPublished(log, service, h) {
      var i :| 0 <= i < |log| && log[i].operation == PublishOp && log[i].service == service && log[i].revision == h;
      assert log[i] in log;
    }
  }

  // ---------------------------------------------------------------- a service over a run

  /** The status a step gives a service, if it gives it one. */
  ghost function StatusWrite(step: Step, reply: Result<Reply, Error>, service: string): Option<Option<Status>> {
    if reply.Err? then None
    else
      match step
      case PublishStep(_, r, status, _, _, _) => if r.service == service then Some(Some(status)) else None
      case MutateStep(s, m, _, _, _) =>
        if s != service then None
        else
          (match m
           case Pause => Some(Some(Paused))
           case PauseExact(_, _) => Some(Some(Paused))
           case Resume => Some(Some(Active))
           case Unpublish => Some(Some(Unpublished))
           case Rollback(_) => Some(Some(Active)))
      case ReconcileIdentityStep(_, _) =>
        if reply.value.PausedServices? && service in reply.value.services then Some(Some(Paused)) else None
      case _ => None
  }

  /** The revision a step selects for a service, if it selects one. */
  ghost function SelectionWrite(step: Step, reply: Result<Reply, Error>, service: string): Option<Option<string>> {
    if reply.Err? then None
    else
      match step
      case PublishStep(h, r, _, _, _, _) => if r.service == service then Some(Some(h)) else None
      case MutateStep(s, Rollback(h), _, _, _) => if s == service then Some(Some(h)) else None
      case _ => None
  }

  ghost function StatusOf(t: Tables, service: string): Option<Status> {
    if service in t.lifecycles then Some(t.lifecycles[service].status) else None
  }

  ghost function SelectionOf(t: Tables, service: string): Option<string> {
    if service in t.lifecycles then Some(t.lifecycles[service].selected) else None
  }

  /** One step moves status and selection as written, and of no other service. */
  ghost predicate MovesService(t: Tables, o: Outcome, step: Step, service: string) {
    var status, selection := StatusWrite(step, o.reply, service), SelectionWrite(step, o.reply, service);
    && StatusOf(o.tables, service) == (if status.Some? then status.value else StatusOf(t, service))
    && SelectionOf(o.tables, service) == (if selection.Some? then selection.value else SelectionOf(t, service))
  }

  lemma PublishMovesService(t: Tables, step: Step, service: string)
    requires RowsSound(t) && step.PublishStep?
    ensures MovesService(t, Published(t, step), step, service)
  {
    PublishedExactly(t, step);
  }

  lemma MutateMovesService(env: Env, t: Tables, step: Step, service: string)
    requires step.MutateStep?
    ensures MovesService(t, Mutated(env, t, step), step, service)
  {
  }

  lemma IdentityMovesService(env: Env, t: Tables, step: Step, service: string)
    requires step.ReconcileIdentityStep?
    ensures MovesService(t, IdentityReconciled(env, t, step.provider, step.now), step, service)
  {
  }

  lemma StepMovesService(env: Env, t: Tables, step: Step, service: string)
    requires RowsSound(t)
    ensures MovesService(t, Next(env, t, step), step, service)
  {
    match step
    case PublishStep(_, _, _, _, _, _) => PublishMovesService(t, step, service);
    case MutateStep(_, _, _, _, _) => MutateMovesService(env, t, step, service);
    case ReconcileIdentityStep(_, _) => IdentityMovesService(env, t, step, service);
    case _ =>
  }

  lemma RunMovesService(env: Env, run: Run, k: nat, service: string)
    requires IsRun(env, run) && k < |run.steps|
    ensures MovesService(run.tables[k], Outcome(run.tables[k + 1], run.replies[k]), run.steps[k], service)
  {
    RunKeepsInv(env, run, k);
    assert Follows(env, run, k);
    StepMovesService(env, run.tables[k], run.steps[k], service);
  }

  ghost function StatusWrites(env: Env, run: Run, service: string): seq<Option<Option<Status>>>
    requires IsRun(env, run)
  {
    seq(|run.steps|, k requires 0 <= k < |run.steps| => StatusWrite(run.steps[k], run.replies[k], service))
  }

  ghost function SelectionWrites(env: Env, run: Run, service: string): seq<Option<Option<string>>>
    requires IsRun(env, run)
  {
    seq(|run.steps|, k requires 0 <= k < |run.steps| => SelectionWrite(run.steps[k], run.replies[k], service))
  }

  /** A service has the status that the last accepted publish, mutation or identity pause
      naming it gave it, and is unknown before the first. */
  lemma StatusIsLastGiven(env: Env, run: Run, k: nat, service: string, x: Option<Status>)
    requires IsRun(env, run) && k < |run.tables|
    ensures StatusOf(run.tables[k], service) == x <==> LastHolds(StatusWrites(env, run, service), None, k, x)
  {
    var writes := StatusWrites(env, run, service);
    var values := seq(|run.tables|, m requires 0 <= m < |run.tables| => StatusOf(run.tables[m], service));
    forall m | 0 <= m < |writes| ensures values[m + 1] == if writes[m].Some? then writes[m].value else values[m] {
      RunMovesService(env, run, m, service);
    }
    ValueIsLastWrite(writes, values, k, x);
  }

  /** A service selects the revision of the last accepted publish or rollback naming it. */
  lemma SelectionIsLastGiven(env: Env, run: Run, k: nat, service: string, x: Option<string>)
    requires IsRun(env, run) && k < |run.tables|
    ensures SelectionOf(run.tables[k], service) == x <==> LastHolds(SelectionWrites(env, run, service), None, k, x)
  {
    var writes := SelectionWrites(env, run, service);
    var values := seq(|run.tables|, m requires 0 <= m < |run.tables| => SelectionOf(run.tables[m], service));
    forall m | 0 <= m < |writes| ensures values[m + 1] == if writes[m].Some? then writes[m].value else values[m] {
      RunMovesService(env, run, m, service);
    }
    ValueIsLastWrite(writes, values, k, x);
  }

  // ---------------------------------------------------------------- grants

  /** A grant: refused when malformed, for an unknown service, or unless the service is active
      on exactly its revision and token; else stored with the endpoints asked for, keeping the
      creation time of the grant it replaces, beside all other grants. */
  lemma GrantIsExact(env: Env, run: Run, k: nat, step: Step)
    requires IsRun(env, run) && k < |run.tables| && step.GrantStep?
    ensures var t, o, key, g := run.tables[k], Next(env, run.tables[k], step), step.key, step.grant;
      if !ValidTransport(key.transport) || !IsHex64(g.token) || !ValidUrl(g.publicUrl) || !ValidUrl(g.controlUrl)
      then Refused(t, o, InvalidGrant)
      else if key.service !in t.lifecycles then Refused(t, o, ServiceNotFound)
      else
        var row := t.lifecycles[key.service];
        if row.status != Active || row.selected != g.revision || row.token != g.token then Refused(t, o, GrantMismatch)
        else
          var createdAt := if key in t.grants then t.grants[key].createdAt else g.updatedAt;
          var stored := Grant(g.revision, g.token, g.publicUrl, g.controlUrl, createdAt, g.updatedAt);
          && g.revision in t.revisions
          && o.reply == Ok(Granted(
               GrantRecord(key, stored, t.revisions[g.revision].offerId, t.revisions[g.revision].offerHash)))
          && o.tables == t.(grants := t.grants[key := stored])
  {
    RunKeepsInv(env, run, k);
    if step.key.service in run.tables[k].lifecycles {
      assert RowSound(run.tables[k], step.key.service);
    }
  }

  /** An exact withdrawal removes the grant with those coordinates and endpoints, and nothing
      else, and says whether there was one. */
  lemma WithdrawalIsExact(env: Env, t: Tables, step: Step)
    requires step.WithdrawStep?
    ensures var o := Next(env, t, step);
      var found :=
        step.key in t.grants && t.grants[step.key] == t.grants[step.key].(
          revision := step.revisionHash, token := step.token,
          publicUrl := step.publicUrl, controlUrl := step.controlUrl);
      && o.reply == Ok(Removed(found))
      && o.tables == t.(grants := if found then t.grants - {step.key} else t.grants)
  {
  }

  /** Startup keeps every grant of another transport, and a relay grant exactly when the
      configured endpoints are those it was approved for. */
  lemma RelayKeepsExactly(env: Env, run: Run, k: nat, expected: Option<(string, string)>)
    requires IsRun(env, run) && k < |run.tables|
    ensures var t, o := run.tables[k], Next(env, run.tables[k], ReconcileRelayStep(expected));
      && o.tables.(grants := t.grants) == t
      && (forall key :: key in o.tables.grants <==>
            && key in t.grants
            && (key.transport != "relay" || expected == Some((t.grants[key].publicUrl, t.grants[key].controlUrl))))
      && (forall key | key in o.tables.grants :: o.tables.grants[key] == t.grants[key])
      && o.reply == Ok(Listing(GrantListing(o.tables, "relay")))
  {
    ReconciliationDeletesNothing(env, run, k);
    assert ExactGrants(run.tables[k]) == run.tables[k].grants;
    EndpointsKept(run.tables[k].grants, expected);
  }

  lemma EndpointsKept(grants: map<GrantKey, Grant>, expected: Option<(string, string)>)
    ensures var kept := EndpointGrants(grants, expected);
      && (forall key :: key in kept <==>
            && key in grants
            && (key.transport != "relay" || expected == Some((grants[key].publicUrl, grants[key].controlUrl))))
      && (forall key | key in kept :: kept[key] == grants[key])
  {
  }

  // ---------------------------------------------------------------- identity reconciliation

  /** The log entry of one paused service: who signed it and who the provider is now. */
  ghost predicate IdentityLogged(env: Env, t: Tables, provider: string, now: int, s: string, e: LogEntry) {
    && s in t.lifecycles && t.lifecycles[s].selected in t.revisions
    && var doc := env.verified(t.revisions[t.lifecycles[s].selected].signed);
       doc.Some? &&
       e == LogEntry(s, t.lifecycles[s].selected, PauseOp, env.identityEvidence(doc.value.providerId, provider), now)
  }

  /** What identity reconciliation writes besides the rows: one log entry for each paused
      service, in order; and the grants of exactly those services are gone. */
  lemma IdentityWritesExactly(env: Env, run: Run, k: nat, provider: string, now: int)
    requires IsRun(env, run) && k < |run.tables|
    requires Next(env, run.tables[k], ReconcileIdentityStep(provider, now)).reply.Ok?
    ensures var t, o := run.tables[k], Next(env, run.tables[k], ReconcileIdentityStep(provider, now));
      && o.reply.value.PausedServices?
      && var services, entries := o.reply.value.services, o.tables.log;
         && |entries| == |t.log| + |services| && t.log <= entries
         && (forall i | 0 <= i < |services| ::
               IdentityLogged(env, t, provider, now, services[i], entries[|t.log| + i]))
         && (forall key :: key in o.tables.grants <==> key in t.grants && key.service !in services)
         && (forall key | key in o.tables.grants :: o.tables.grants[key] == t.grants[key])
  {
    RunKeepsInv(env, run, k);
    IdentityWritten(env, run.tables[k], provider, now);
  }

  lemma IdentityWritten(env: Env, t: Tables, provider: string, now: int)
    requires RowsSound(t) && IdentityReconciled(env, t, provider, now).reply.Ok?
    ensures var o, services := IdentityReconciled(env, t, provider, now), Ordered(ForeignServices(env, t, provider));
      && o.reply == Ok(PausedServices(services))
      && |o.tables.log| == |t.log| + |services| && t.log <= o.tables.log
      && (forall i | 0 <= i < |services| ::
            IdentityLogged(env, t, provider, now, services[i], o.tables.log[|t.log| + i]))
      && (forall key :: key in o.tables.grants <==> key in t.grants && key.service !in services)
      && (forall key | key in o.tables.grants :: o.tables.grants[key] == t.grants[key])
  {
    var services := Ordered(ForeignServices(env, t, provider));
    forall i | 0 <= i < |services|
      ensures IdentityLogged(env, t, provider, now, services[i], IdentityEntries(env, t, provider, now)[i])
    {
      assert services[i] in services;
      assert RowSound(t, services[i]);
    }
  }
}
