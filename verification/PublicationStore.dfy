/** The publication tables updated in place, one method per transaction of `src/db.rs`. */
module PublicationStores {
  import opened Common
  import opened Ordering
  import opened Publications

  class PublicationStore {
    const env: Env
    var revisions: map<string, Revision>
    var lifecycles: map<string, Lifecycle>
    var grants: map<GrantKey, Grant>
    var offers: map<string, ManagedOffer>
    var log: seq<LogEntry>

    function View(): Tables
      reads this
    {
      Tables(revisions, lifecycles, grants, offers, log)
    }

    constructor (env: Env)
      ensures this.env == env && View() == EMPTY
    {
      this.env := env;
      revisions, lifecycles, grants, offers, log := map[], map[], map[], map[], [];
    }

    /** `ROLLBACK`: every table goes back to what it was when the transaction began. */
    method Rollback(saved: Tables)
      modifies this
      ensures View() == saved
    {
      revisions, lifecycles, grants, offers, log :=
        saved.revisions, saved.lifecycles, saved.grants, saved.offers, saved.log;
    }

    method UpsertOffer(id: string, definition: string, now: int)
      modifies this`offers
      ensures offers == UpsertedOffer(old(offers), id, definition, now)
    {
      var createdAt := now;
      if id in offers {
        createdAt := offers[id].createdAt;
      }
      offers := offers[id := ManagedOffer(definition, createdAt, now)];
    }

    /** The provider's control interface stores an offer on its own. */
    method DefineOffer(offerId: string, definition: string, now: int) returns (r: Result<Reply, Error>)
      modifies this`offers
      ensures Outcome(View(), r) == Next(env, old(View()), DefineOfferStep(offerId, definition, now))
    {
      UpsertOffer(offerId, definition, now);
      r := Ok(OfferStored);
    }

    method DeleteGrantsOf(service: string)
      modifies this`grants
      ensures grants == WithoutGrantsOf(old(grants), {service})
    {
      grants := map k | k in grants && k.service != service :: grants[k];
    }

    method InsertOperation(service: string, revision: string, operation: Operation, evidence: string, now: int)
      modifies this`log
      ensures log == Logged(old(log), LogEntry(service, revision, operation, evidence, now))
    {
      var duplicate := false;
      if operation == PublishOp {
        duplicate := AlreadyPublished(log, service, revision);
      }
      if !duplicate {
        log := log + [LogEntry(service, revision, operation, evidence, now)];
      }
    }

    // -------------------------------------------------------------- publish

    method PublishInTransaction(
      hash: string, revision: Revision, status: Status, evidence: string, newToken: string, now: int)
      returns (r: Result<Reply, Error>)
      modifies this
      ensures var o := Published(old(View()), PublishStep(hash, revision, status, evidence, newToken, now));
        r == o.reply && (r.Ok? ==> View() == o.tables)
    {
      if status == Unpublished {
        return Err(InvalidInitialStatus);
      }
      if hash !in revisions {
        revisions := revisions[hash := revision.(createdAt := now)];
      }
      if !SameContent(revisions[hash], revision) {
        return Err(RevisionConflict);
      }
      if status == Active && OfferConflict(View(), revision.service, revision.offerId, revision.offerHash) {
        return Err(SharedOfferConflict);
      }
      UpsertOffer(revision.offerId, revision.definition, now);
      var preserves := false;
      var token, createdAt := newToken, now;
      if revision.service in lifecycles {
        var current := lifecycles[revision.service];
        createdAt := current.createdAt;
        if current.status == status && current.selected == hash {
          preserves := true;
          token := current.token;
        }
      }
      var row := Lifecycle(status, ActiveHash(status, hash), hash, token, createdAt, now);
      lifecycles := lifecycles[revision.service := row];
      if !preserves {
        DeleteGrantsOf(revision.service);
      }
      InsertOperation(revision.service, hash, PublishOp, evidence, now);
      r := Ok(Row(row));
    }

    method PublishRevision(
      hash: string, revision: Revision, status: Status, evidence: string, newToken: string, now: int)
      returns (r: Result<Reply, Error>)
      modifies this
      ensures Outcome(View(), r) ==
        Next(env, old(View()), PublishStep(hash, revision, status, evidence, newToken, now))
      ensures r.Err? ==> View() == old(View())
    {
      var saved := View();
      r := PublishInTransaction(hash, revision, status, evidence, newToken, now);
      if r.Err? {
        Rollback(saved);
      }
    }

    // -------------------------------------------------------------- lifecycle mutations

    method MutateInTransaction(service: string, mutation: Mutation, evidence: string, newToken: string, now: int)
      returns (r: Result<Reply, Error>)
      modifies this
      ensures var o := Mutated(env, old(View()), MutateStep(service, mutation, evidence, newToken, now));
        r == o.reply && (r.Ok? ==> View() == o.tables)
    {
      if service !in lifecycles {
        return Err(ServiceNotFound);
      }
      var current := lifecycles[service];
      var status, revision, changed, rotate := Paused, current.selected, false, false;
      match mutation {
        case Pause =>
          if current.status == Unpublished {
            return Err(ServiceUnpublished);
          }
          changed := current.status == Active;
        case PauseExact(expected, token) =>
          if current.selected != expected {
            return Err(RevisionMismatch);
          }
          if current.token != token {
            return Err(TokenMismatch);
          }
          if current.status == Unpublished {
            return Err(ServiceUnpublished);
          }
          changed := current.status == Active;
        case Resume =>
          if current.status == Unpublished {
            return Err(ServiceUnpublished);
          }
          status, changed, rotate := Active, current.status == Paused, true;
        case Unpublish =>
          status, changed := Unpublished, current.status != Unpublished;
        case Rollback(target) =>
          if target !in revisions || revisions[target].service != service {
            return Err(RevisionNotFound);
          }
          if !env.parses(revisions[target].signed) || !env.parses(revisions[target].definition) {
            return Err(Undecodable);
          }
          // The managed offer is written before the shared-offer check below.
          UpsertOffer(revisions[target].offerId, env.reserialized(revisions[target].definition), now);
          status, revision, rotate := Active, target, true;
          changed := current.status != Active || current.selected != target;
      }
      if status == Active {
        if revision !in revisions || revisions[revision].service != service {
          return Err(RevisionNotFound);
        }
        var target := revisions[revision];
        if !env.parses(target.signed) || !env.parses(target.definition) {
          return Err(Undecodable);
        }
        var conflict := OfferConflict(View(), service, target.offerId, target.offerHash);
        OffersDoNotConflict(old(View()), View(), service, target.offerId, target.offerHash);
        if conflict {
          return Err(SharedOfferConflict);
        }
      }
      if !changed {
        return Ok(Row(current));
      }
      var token := current.token;
      if rotate {
        token := newToken;
      }
      var active := None;
      if status == Active {
        active := Some(revision);
      }
      var row := Lifecycle(status, active, revision, token, current.createdAt, now);
      lifecycles := lifecycles[service := row];
      DeleteGrantsOf(service);
      InsertOperation(service, revision, OperationOf(mutation), evidence, now);
      r := Ok(Row(row));
    }

    method MutateLifecycle(service: string, mutation: Mutation, evidence: string, newToken: string, now: int)
      returns (r: Result<Reply, Error>)
      modifies this
      ensures Outcome(View(), r) ==
        Next(env, old(View()), MutateStep(service, mutation, evidence, newToken, now))
      ensures r.Err? ==> View() == old(View())
    {
      var saved := View();
      r := MutateInTransaction(service, mutation, evidence, newToken, now);
      if r.Err? {
        Rollback(saved);
      }
    }

    // -------------------------------------------------------------- transport grants

    method PersistGrant(key: GrantKey, grant: Grant) returns (r: Result<Reply, Error>)
      modifies this`grants
      ensures Outcome(View(), r) == Next(env, old(View()), GrantStep(key, grant))
    {
      if !ValidGrant(key, grant) {
        return Err(InvalidGrant);
      }
      if key.service !in lifecycles {
        return Err(ServiceNotFound);
      }
      var current := lifecycles[key.service];
      if current.status != Active || current.active != Some(grant.revision) || current.token != grant.token {
        return Err(GrantMismatch);
      }
      var saved := grants;
      var createdAt := grant.updatedAt;
      if key in grants {
        createdAt := grants[key].createdAt;
      }
      grants := grants[key := grant.(createdAt := createdAt)];
      if grant.revision !in revisions || revisions[grant.revision].service != key.service {
        grants := saved;
        return Err(RevisionNotFound);
      }
      r := Ok(Granted(Joined(View(), key)));
    }

    method WithdrawGrant(key: GrantKey, revision: string, token: string, publicUrl: string, controlUrl: string)
      returns (r: Result<Reply, Error>)
      modifies this`grants
      ensures Outcome(View(), r) ==
        Next(env, old(View()), WithdrawStep(key, revision, token, publicUrl, controlUrl))
    {
      if key in grants {
        var g := grants[key];
        if g.revision == revision && g.token == token && g.publicUrl == publicUrl && g.controlUrl == controlUrl {
          grants := grants - {key};
          return Ok(Removed(true));
        }
      }
      r := Ok(Removed(false));
    }

    method DeleteInexactGrants()
      modifies this`grants
      ensures grants == ExactGrants(old(View()))
    {
      grants := map k | k in grants && ExactlyActive(View(), k, grants[k]) :: grants[k];
    }

    method DeleteChangedEndpoints(expected: Option<(string, string)>)
      modifies this`grants
      ensures grants == EndpointGrants(old(grants), expected)
    {
      match expected {
        case Some((publicUrl, controlUrl)) =>
          grants := map k | k in grants &&
            !(k.transport == "relay" && (grants[k].publicUrl != publicUrl || grants[k].controlUrl != controlUrl))
            :: grants[k];
        case None =>
          grants := map k | k in grants && k.transport != "relay" :: grants[k];
      }
    }

    method ReconcileGrants() returns (r: Result<Reply, Error>)
      modifies this`grants
      ensures Outcome(View(), r) == Next(env, old(View()), ReconcileGrantsStep)
    {
      DeleteInexactGrants();
      r := Ok(Listing(GrantListing(View(), "relay")));
    }

    method ReconcileRelay(expected: Option<(string, string)>) returns (r: Result<Reply, Error>)
      modifies this`grants
      ensures Outcome(View(), r) == Next(env, old(View()), ReconcileRelayStep(expected))
    {
      DeleteInexactGrants();
      DeleteChangedEndpoints(expected);
      r := Ok(Listing(GrantListing(View(), "relay")));
    }

    // -------------------------------------------------------------- identity reconciliation

    /** First pass: verify every active revision and collect the foreign ones in order. */
    method ScanIdentities(provider: string) returns (r: Result<seq<Mismatch>, Error>)
      ensures r.Err? <==> exists s | s in ActiveServices(View()) :: !SoundlySigned(env, View(), s)
      ensures r.Err? ==> r.error == InvalidSignedRevision
      ensures r.Ok? ==> r.value == Mismatches(env, View(), provider, Ordered(ActiveServices(View())))
    {
      var order := Ordered(ActiveServices(View()));
      var mismatches: seq<Mismatch> := [];
      for i := 0 to |order|
        invariant forall j | 0 <= j < i :: order[j] in ActiveServices(View()) && SoundlySigned(env, View(), order[j])
        invariant mismatches == Mismatches(env, View(), provider, order[..i])
      {
        var s := order[i];
        assert s in order;
        var hash := lifecycles[s].active.value;
        var doc := env.verified(revisions[hash].signed);
        if doc.None? || doc.value.revisionHash != hash {
          return Err(InvalidSignedRevision);
        }
        assert SoundlySigned(env, View(), s);
        MismatchesSnoc(env, View(), provider, order, i);
        if doc.value.providerId != provider {
          mismatches := mismatches + [Mismatch(s, hash, doc.value.providerId)];
        }
      }
      assert order[..|order|] == order;
      r := Ok(mismatches);
    }

    /** One row of the second pass: a guarded `UPDATE`, then the grants and the log. When the
        guard misses, the source fails with a "changed during identity reconciliation" error. */
    method PauseForeign(m: Mismatch, provider: string, now: int) returns (missed: bool)
      modifies this`lifecycles, this`grants, this`log
      ensures missed <==> !StillActive(old(lifecycles), m)
      ensures missed ==> View() == old(View())
      ensures !missed ==>
        && lifecycles == old(lifecycles)[m.service := PausedRow(old(lifecycles)[m.service], now)]
        && grants == WithoutGrantsOf(old(grants), {m.service})
        && log == old(log) + [PauseEntry(env, m, provider, now)]
    {
      if m.service !in lifecycles {
        return true;
      }
      var row := lifecycles[m.service];
      if row.status != Active || row.active != Some(m.revision) {
        return true;
      }
      lifecycles := lifecycles[m.service := row.(status := Paused, active := None, updatedAt := now)];
      DeleteGrantsOf(m.service);
      InsertOperation(m.service, m.revision, PauseOp, env.identityEvidence(m.owner, provider), now);
      missed := false;
    }

    /** Second pass: no guard misses. */
    method PauseAll(mismatches: seq<Mismatch>, provider: string, now: int)
      requires Pausable(lifecycles, mismatches)
      modifies this`lifecycles, this`grants, this`log
      ensures lifecycles == PausedRows(old(lifecycles), Names(mismatches), now)
      ensures grants == WithoutGrantsOf(old(grants), Names(mismatches))
      ensures log == old(log) + PauseEntries(env, mismatches, provider, now)
    {
      ghost var entries := PauseEntries(env, mismatches, provider, now);
      assert PausedRows(lifecycles, {}, now) == lifecycles && WithoutGrantsOf(grants, {}) == grants;
      for i := 0 to |mismatches|
        invariant lifecycles == PausedRows(old(lifecycles), Names(mismatches[..i]), now)
        invariant grants == WithoutGrantsOf(old(grants), Names(mismatches[..i]))
        invariant log == old(log) + entries[..i]
      {
        var m := mismatches[i];
        PauseStep(old(lifecycles), old(grants), mismatches, i, now);
        var missed := PauseForeign(m, provider, now);
        assert !missed;
        assert entries[..i + 1] == entries[..i] + [entries[i]];
      }
      assert mismatches[..|mismatches|] == mismatches && entries[..|mismatches|] == entries;
    }

    method PauseForIdentity(provider: string, now: int) returns (r: Result<Reply, Error>)
      modifies this
      ensures Outcome(View(), r) == Next(env, old(View()), ReconcileIdentityStep(provider, now))
    {
      if !IsHex64(provider) {
        return Err(InvalidProviderIdentity);
      }
      var scan := ScanIdentities(provider);
      if scan.Err? {
        return Err(scan.error);
      }
      ScanFindsForeign(env, View(), provider, scan.value);
      EntriesAgree(env, View(), provider, now, scan.value);
      PauseAll(scan.value, provider, now);
      r := Ok(PausedServices(Services(scan.value)));
    }
  }

  /** The shared-offer check does not look at managed offers. */
  lemma OffersDoNotConflict(t: Tables, t': Tables, service: string, offerId: string, offerHash: string)
    requires t'.(offers := t.offers) == t
    ensures OfferConflict(t', service, offerId, offerHash) == OfferConflict(t, service, offerId, offerHash)
  {
    assert forall s | s in t.lifecycles ::
      ConflictsWith(t', s, service, offerId, offerHash) == ConflictsWith(t, s, service, offerId, offerHash);
  }

  datatype Mismatch = Mismatch(service: string, revision: string, owner: string)

  /** The scan's record of one foreign service. */
  function MismatchOf(env: Env, t: Tables, provider: string, s: string): Mismatch
    requires s in ForeignServices(env, t, provider)
  {
    Mismatch(s, t.lifecycles[s].active.value, env.verified(ActiveRevision(t, s).signed).value.providerId)
  }

  /** The foreign services among `order`, in that order. */
  function Mismatches(env: Env, t: Tables, provider: string, order: seq<string>): seq<Mismatch> {
    if order == [] then []
    else
      var rest, s := Mismatches(env, t, provider, order[..|order| - 1]), order[|order| - 1];
      if s in ForeignServices(env, t, provider) then rest + [MismatchOf(env, t, provider, s)] else rest
  }

  lemma MismatchesSnoc(env: Env, t: Tables, provider: string, order: seq<string>, i: nat)
    requires i < |order|
    ensures Mismatches(env, t, provider, order[..i + 1]) == Mismatches(env, t, provider, order[..i]) +
      (if order[i] in ForeignServices(env, t, provider) then [MismatchOf(env, t, provider, order[i])] else [])
  {
    assert order[..i + 1][..i] == order[..i];
  }

  function Services(list: seq<Mismatch>): (r: seq<string>)
    ensures |r| == |list| && forall i | 0 <= i < |r| :: r[i] == list[i].service
  {
    seq(|list|, i requires 0 <= i < |list| => list[i].service)
  }

  function Names(list: seq<Mismatch>): set<string> {
    set m | m in list :: m.service
  }

  lemma {:induction false} MismatchesAreForeign(env: Env, t: Tables, provider: string, order: seq<string>)
    requires Ascending(TextLeq, order)
    ensures var list := Mismatches(env, t, provider, order);
      && Ascending(TextLeq, Services(list))
      && (forall m | m in list :: m.service in order && m.service in ForeignServices(env, t, provider) &&
            m == MismatchOf(env, t, provider, m.service))
      && (forall s | s in order && s in ForeignServices(env, t, provider) :: MismatchOf(env, t, provider, s) in list)
  {
    if order != [] {
      var init, s := order[..|order| - 1], order[|order| - 1];
      MismatchesAreForeign(env, t, provider, init);
      assert forall x | x in order :: x in init || x == s;
      assert forall x | x in init :: TextLeq(x, s) && x != s;
    }
  }

  /** The scan lists exactly the foreign services, in the order of the query, and each is
      still active on the revision the scan saw: the guarded `UPDATE` of the second pass
      cannot miss, so the "changed during identity reconciliation" error is unreachable. */
  lemma ScanFindsForeign(env: Env, t: Tables, provider: string, list: seq<Mismatch>)
    requires list == Mismatches(env, t, provider, Ordered(ActiveServices(t)))
    ensures Services(list) == Ordered(ForeignServices(env, t, provider))
    ensures Names(list) == ForeignServices(env, t, provider)
    ensures forall m | m in list ::
      m.service in ForeignServices(env, t, provider) && m == MismatchOf(env, t, provider, m.service)
    ensures Pausable(t.lifecycles, list)
  {
    var foreign := ForeignServices(env, t, provider);
    MismatchesAreForeign(env, t, provider, Ordered(ActiveServices(t)));
    forall x ensures x in Services(list) <==> x in foreign {
      if x in Services(list) {
        var i :| 0 <= i < |list| && Services(list)[i] == x;
        assert list[i] in list;
      }
      if x in foreign {
        assert MismatchOf(env, t, provider, x) in list;
        var i :| 0 <= i < |list| && list[i] == MismatchOf(env, t, provider, x);
        assert Services(list)[i] == x;
      }
    }
    TextOrder();
    ListingUnique(Services(list), Ordered(foreign), foreign, TextLeq);
    forall x | x in foreign ensures x in Names(list) {
      assert MismatchOf(env, t, provider, x) in list;
    }
    forall i, j | 0 <= i < j < |list| ensures list[i].service != list[j].service {
      assert Services(list)[i] != Services(list)[j];
    }
  }

  lemma EntriesAgree(env: Env, t: Tables, provider: string, now: int, list: seq<Mismatch>)
    requires Services(list) == Ordered(ForeignServices(env, t, provider))
    requires forall m | m in list ::
      m.service in ForeignServices(env, t, provider) && m == MismatchOf(env, t, provider, m.service)
    ensures PauseEntries(env, list, provider, now) == IdentityEntries(env, t, provider, now)
  {
    assert forall i | 0 <= i < |list| :: list[i] in list;
  }

  /** Pausing one more service extends the set of paused ones. */
  lemma PauseStep(rows: map<string, Lifecycle>, grants: map<GrantKey, Grant>, list: seq<Mismatch>, i: nat, now: int)
    requires i < |list| && Pausable(rows, list)
    ensures var before, s := Names(list[..i]), list[i].service;
      var paused := PausedRows(rows, before, now);
      && StillActive(paused, list[i]) && paused[s] == rows[s]
      && PausedRows(rows, Names(list[..i + 1]), now) == paused[s := PausedRow(rows[s], now)]
      && WithoutGrantsOf(grants, Names(list[..i + 1])) == WithoutGrantsOf(WithoutGrantsOf(grants, before), {s})
  {
    assert list[i] in list;
    assert list[..i + 1] == list[..i] + [list[i]];
    assert Names(list[..i + 1]) == Names(list[..i]) + {list[i].service};
  }

  predicate StillActive(rows: map<string, Lifecycle>, m: Mismatch) {
    m.service in rows && rows[m.service].status == Active && rows[m.service].active == Some(m.revision)
  }

  /** Every scanned row is still active on the revision the scan saw, each service once. */
  ghost predicate Pausable(rows: map<string, Lifecycle>, mismatches: seq<Mismatch>) {
    && (forall m | m in mismatches :: StillActive(rows, m))
    && (forall i, j | 0 <= i < j < |mismatches| :: mismatches[i].service != mismatches[j].service)
  }

  function PauseEntry(env: Env, m: Mismatch, provider: string, now: int): LogEntry {
    LogEntry(m.service, m.revision, PauseOp, env.identityEvidence(m.owner, provider), now)
  }

  function PauseEntries(env: Env, mismatches: seq<Mismatch>, provider: string, now: int): (r: seq<LogEntry>)
    ensures |r| == |mismatches|
  {
    seq(|mismatches|, i requires 0 <= i < |mismatches| => PauseEntry(env, mismatches[i], provider, now))
  }
}
