/** The publication tables of `src/db.rs`: immutable revisions, one lifecycle row per
    service, durable transport grants, managed offers and the operation log.

    `Next` says what each transaction does to the tables; `PublicationStore` does it in
    place, field by field, the way the SQL statements do.
 */
module Publications {
  import opened Common
  import opened Ordering

  datatype Status = Active | Paused | Unpublished

  datatype Revision = Revision(
    service: string, offerId: string, offerHash: string, bindingHash: string,
    signed: string, definition: string, createdAt: int)

  datatype Lifecycle = Lifecycle(
    status: Status, active: Option<string>, selected: string, token: string,
    createdAt: int, updatedAt: int)

  datatype GrantKey = GrantKey(transport: string, service: string)

  datatype Grant = Grant(
    revision: string, token: string, publicUrl: string, controlUrl: string,
    createdAt: int, updatedAt: int)

  /** A grant joined with the offer coordinates of its revision. */
  datatype GrantRecord = GrantRecord(key: GrantKey, grant: Grant, offerId: string, offerHash: string)

  datatype ManagedOffer = ManagedOffer(definition: string, createdAt: int, updatedAt: int)

  datatype Operation = PublishOp | PauseOp | ResumeOp | UnpublishOp | RollbackOp

  datatype LogEntry = LogEntry(
    service: string, revision: string, operation: Operation, evidence: string, createdAt: int)

  datatype Tables = Tables(
    revisions: map<string, Revision>,
    lifecycles: map<string, Lifecycle>,
    grants: map<GrantKey, Grant>,
    offers: map<string, ManagedOffer>,
    log: seq<LogEntry>)

  const EMPTY := Tables(map[], map[], map[], map[], [])

  datatype SignedRevision = SignedRevision(revisionHash: string, providerId: string)

  /** JSON decoding, signature verification and evidence rendering are not part of this
      model: they are arbitrary functions. `verified` is `None` when a signed revision does
      not parse or does not verify. */
  datatype Env = Env(
    parses: string -> bool,
    reserialized: string -> string,
    verified: string -> Option<SignedRevision>,
    identityEvidence: (string, string) -> string)

  datatype Mutation =
    | Pause
    | PauseExact(revision: string, token: string)
    | Resume
    | Unpublish
    | Rollback(revision: string)

  datatype Error =
    | InvalidInitialStatus
    | RevisionConflict
    | SharedOfferConflict
    | ServiceNotFound
    | ServiceUnpublished
    | RevisionMismatch
    | TokenMismatch
    | RevisionNotFound
    | Undecodable
    | InvalidGrant
    | GrantMismatch
    | InvalidProviderIdentity
    | InvalidSignedRevision

  datatype Reply =
    | Row(row: Lifecycle)
    | Granted(record: GrantRecord)
    | Removed(removed: bool)
    | Listing(records: seq<GrantRecord>)
    | PausedServices(services: seq<string>)
    | OfferStored

  datatype Outcome = Outcome(tables: Tables, reply: Result<Reply, Error>)

  /** Each transaction with its arguments. `newToken` is the activation token that the
      operating system's random source would hand out if this transaction asks for one. */
  datatype Step =
    | PublishStep(hash: string, revision: Revision, status: Status, evidence: string, newToken: string, now: int)
    | MutateStep(service: string, mutation: Mutation, evidence: string, newToken: string, now: int)
    | GrantStep(key: GrantKey, grant: Grant)
    | WithdrawStep(key: GrantKey, revisionHash: string, token: string, publicUrl: string, controlUrl: string)
    | ReconcileGrantsStep
    | ReconcileRelayStep(expected: Option<(string, string)>)
    | ReconcileIdentityStep(provider: string, now: int)
    | DefineOfferStep(offerId: string, definition: string, now: int)

  // ---------------------------------------------------------------- shared pieces

  function Utf8Length(s: string): nat {
    if s == [] then 0
    else
      (if s[0] < '\U{80}' then 1 else if s[0] < '\U{800}' then 2 else if s[0] < '\U{10000}' then 3 else 4)
      + Utf8Length(s[1..])
  }

  predicate ValidTransport(s: string) {
    1 <= |s| <= 32 && forall i | 0 <= i < |s| :: s[i] < '\U{80}'
  }

  predicate ValidUrl(s: string) {
    && s != []
    && Utf8Length(s) <= 2048
    && forall i | 0 <= i < |s| :: !(s[i] < ' ' || '\U{7f}' <= s[i] <= '\U{9f}')
  }

  predicate ValidGrant(key: GrantKey, grant: Grant) {
    && ValidTransport(key.transport)
    && IsHex64(grant.token)
    && ValidUrl(grant.publicUrl)
    && ValidUrl(grant.controlUrl)
  }

  /** The stored revision and the one being published agree on every immutable column. */
  predicate SameContent(stored: Revision, offered: Revision) {
    stored.(createdAt := 0) == offered.(createdAt := 0)
  }

  /** Another active service offers the same offer id under a different hash. */
  predicate OfferConflict(t: Tables, service: string, offerId: string, offerHash: string) {
    exists s | s in t.lifecycles :: ConflictsWith(t, s, service, offerId, offerHash)
  }

  predicate ConflictsWith(t: Tables, s: string, service: string, offerId: string, offerHash: string)
    requires s in t.lifecycles
  {
    && s != service
    && t.lifecycles[s].status == Active
    && t.lifecycles[s].active.Some?
    && t.lifecycles[s].active.value in t.revisions
    && t.revisions[t.lifecycles[s].active.value].offerId == offerId
    && t.revisions[t.lifecycles[s].active.value].offerHash != offerHash
  }

  predicate RevisionOf(t: Tables, service: string, hash: string) {
    hash in t.revisions && t.revisions[hash].service == service
  }

  /** A revision row decodes only when both of its JSON columns parse. */
  predicate Decodes(env: Env, r: Revision) {
    env.parses(r.signed) && env.parses(r.definition)
  }

  /** `INSERT ... ON CONFLICT DO UPDATE` keeps the creation time of an existing offer. */
  function UpsertedOffer(offers: map<string, ManagedOffer>, id: string, definition: string, now: int)
    : map<string, ManagedOffer>
  {
    offers[id := ManagedOffer(definition, if id in offers then offers[id].createdAt else now, now)]
  }

  predicate AlreadyPublished(log: seq<LogEntry>, service: string, revision: string) {
    exists i | 0 <= i < |log| ::
      log[i].operation == PublishOp && log[i].service == service && log[i].revision == revision
  }

  /** `INSERT OR IGNORE` under the unique index on (service, revision) of publish entries. */
  function Logged(log: seq<LogEntry>, entry: LogEntry): seq<LogEntry> {
    if entry.operation == PublishOp && AlreadyPublished(log, entry.service, entry.revision)
    then log
    else log + [entry]
  }

  function WithoutGrantsOf(grants: map<GrantKey, Grant>, services: set<string>): map<GrantKey, Grant> {
    map k | k in grants && k.service !in services :: grants[k]
  }

  function ActiveHash(status: Status, hash: string): Option<string> {
    if status == Active then Some(hash) else None
  }

  // ---------------------------------------------------------------- publishing

  predicate PreservesActivation(t: Tables, service: string, status: Status, hash: string) {
    && service in t.lifecycles
    && t.lifecycles[service].status == status
    && t.lifecycles[service].selected == hash
  }

  function PublishedRow(t: Tables, service: string, status: Status, hash: string, newToken: string, now: int)
    : Lifecycle
  {
    Lifecycle(
      status, ActiveHash(status, hash), hash,
      if PreservesActivation(t, service, status, hash) then t.lifecycles[service].token else newToken,
      if service in t.lifecycles then t.lifecycles[service].createdAt else now,
      now)
  }

  function StoredRevisions(t: Tables, hash: string, revision: Revision, now: int): map<string, Revision> {
    if hash in t.revisions then t.revisions else t.revisions[hash := revision.(createdAt := now)]
  }

  function Published(t: Tables, step: Step): Outcome
    requires step.PublishStep?
  {
    var r := step.revision;
    var t1 := t.(revisions := StoredRevisions(t, step.hash, r, step.now));
    if step.status == Unpublished then Outcome(t, Err(InvalidInitialStatus))
    else if !SameContent(t1.revisions[step.hash], r) then Outcome(t, Err(RevisionConflict))
    else if step.status == Active && OfferConflict(t1, r.service, r.offerId, r.offerHash) then
      Outcome(t, Err(SharedOfferConflict))
    else
      var row := PublishedRow(t, r.service, step.status, step.hash, step.newToken, step.now);
      var kept := PreservesActivation(t, r.service, step.status, step.hash);
      Outcome(
        Tables(
          t1.revisions,
          t.lifecycles[r.service := row],
          if kept then t.grants else WithoutGrantsOf(t.grants, {r.service}),
          UpsertedOffer(t.offers, r.offerId, r.definition, step.now),
          Logged(t.log, LogEntry(r.service, step.hash, PublishOp, step.evidence, step.now))),
        Ok(Row(row)))
  }

  // ---------------------------------------------------------------- lifecycle mutations

  function OperationOf(m: Mutation): Operation {
    match m
    case Pause => PauseOp
    case PauseExact(_, _) => PauseOp
    case Resume => ResumeOp
    case Unpublish => UnpublishOp
    case Rollback(_) => RollbackOp
  }

  datatype Change = Change(status: Status, revision: string, changed: bool, rotate: bool)

  function PauseRequest(row: Lifecycle): Result<Change, Error> {
    match row.status
    case Active => Ok(Change(Paused, row.selected, true, false))
    case Paused => Ok(Change(Paused, row.selected, false, false))
    case Unpublished => Err(ServiceUnpublished)
  }

  /** What a mutation asks of the current row. */
  function Requested(env: Env, t: Tables, service: string, m: Mutation): Result<Change, Error>
    requires service in t.lifecycles
  {
    var row := t.lifecycles[service];
    match m
    case Pause => PauseRequest(row)
    case PauseExact(revision, token) =>
      if row.selected != revision then Err(RevisionMismatch)
      else if row.token != token then Err(TokenMismatch)
      else PauseRequest(row)
    case Resume =>
      if row.status == Unpublished then Err(ServiceUnpublished)
      else Ok(Change(Active, row.selected, row.status == Paused, true))
    case Unpublish => Ok(Change(Unpublished, row.selected, row.status != Unpublished, false))
    case Rollback(revision) =>
      if !RevisionOf(t, service, revision) then Err(RevisionNotFound)
      else if !Decodes(env, t.revisions[revision]) then Err(Undecodable)
      else Ok(Change(Active, revision, row.status != Active || row.selected != revision, true))
  }

  function MutatedRow(row: Lifecycle, c: Change, newToken: string, now: int): Lifecycle {
    Lifecycle(
      c.status, ActiveHash(c.status, c.revision), c.revision,
      if c.rotate then newToken else row.token, row.createdAt, now)
  }

  /** Rollback rewrites the managed offer of its target; no other mutation touches offers. */
  function OffersAfter(env: Env, t: Tables, m: Mutation, now: int): map<string, ManagedOffer> {
    if m.Rollback? && m.revision in t.revisions then
      var r := t.revisions[m.revision];
      UpsertedOffer(t.offers, r.offerId, env.reserialized(r.definition), now)
    else t.offers
  }

  /** The check every mutation that ends in `active` must pass. */
  function ActivationError(env: Env, t: Tables, service: string, c: Change): Option<Error> {
    if c.status != Active then None
    else if !RevisionOf(t, service, c.revision) then Some(RevisionNotFound)
    else
      var r := t.revisions[c.revision];
      if !Decodes(env, r) then Some(Undecodable)
      else if OfferConflict(t, service, r.offerId, r.offerHash) then Some(SharedOfferConflict)
      else None
  }

  function Mutated(env: Env, t: Tables, step: Step): Outcome
    requires step.MutateStep?
  {
    if step.service !in t.lifecycles then Outcome(t, Err(ServiceNotFound))
    else
      var row := t.lifecycles[step.service];
      match Requested(env, t, step.service, step.mutation)
      case Err(e) => Outcome(t, Err(e))
      case Ok(c) =>
        var error := ActivationError(env, t, step.service, c);
        var offers := OffersAfter(env, t, step.mutation, step.now);
        if error.Some? then Outcome(t, Err(error.value))
        else if !c.changed then Outcome(t.(offers := offers), Ok(Row(row)))
        else
          var row' := MutatedRow(row, c, step.newToken, step.now);
          Outcome(
            Tables(
              t.revisions,
              t.lifecycles[step.service := row'],
              WithoutGrantsOf(t.grants, {step.service}),
              offers,
              Logged(t.log, LogEntry(step.service, c.revision, OperationOf(step.mutation), step.evidence, step.now))),
            Ok(Row(row')))
  }

  // ---------------------------------------------------------------- transport grants

  /** The grant names a service that is active on its revision under its token. */
  predicate ExactlyActive(t: Tables, k: GrantKey, g: Grant) {
    && k.service in t.lifecycles
    && t.lifecycles[k.service].status == Active
    && t.lifecycles[k.service].active == Some(g.revision)
    && t.lifecycles[k.service].token == g.token
  }

  predicate Listed(t: Tables, k: GrantKey)
    requires k in t.grants
  {
    ExactlyActive(t, k, t.grants[k]) && RevisionOf(t, k.service, t.grants[k].revision)
  }

  function Joined(t: Tables, k: GrantKey): GrantRecord
    requires k in t.grants && t.grants[k].revision in t.revisions
  {
    var r := t.revisions[t.grants[k].revision];
    GrantRecord(k, t.grants[k], r.offerId, r.offerHash)
  }

  /** `ORDER BY updated_at ASC, service_id ASC`. */
  predicate GrantOrder(a: (int, string), b: (int, string)) {
    a.0 < b.0 || (a.0 == b.0 && TextLeq(a.1, b.1))
  }

  lemma GrantOrderTotal()
    ensures TotalOrder(GrantOrder)
  {
    TextOrder();
  }

  function ListedKeys(t: Tables, transport: string): set<(int, string)> {
    set k | k in t.grants && k.transport == transport && Listed(t, k) :: (t.grants[k].updatedAt, k.service)
  }

  /** The grants of one transport, joined with their lifecycle and revision rows. */
  function GrantListing(t: Tables, transport: string): seq<GrantRecord> {
    GrantOrderTotal();
    var keys := Sorted(ListedKeys(t, transport), GrantOrder);
    assert forall i | 0 <= i < |keys| :: keys[i] in keys;
    seq(|keys|, i requires 0 <= i < |keys| => Joined(t, GrantKey(transport, keys[i].1)))
  }

  function GrantPersisted(t: Tables, step: Step): Outcome
    requires step.GrantStep?
  {
    var k := step.key;
    if !ValidGrant(k, step.grant) then Outcome(t, Err(InvalidGrant))
    else if k.service !in t.lifecycles then Outcome(t, Err(ServiceNotFound))
    else if !ExactlyActive(t, k, step.grant) then Outcome(t, Err(GrantMismatch))
    else if !RevisionOf(t, k.service, step.grant.revision) then Outcome(t, Err(RevisionNotFound))
    else
      var g := step.grant.(createdAt := if k in t.grants then t.grants[k].createdAt else step.grant.updatedAt);
      var t' := t.(grants := t.grants[k := g]);
      Outcome(t', Ok(Granted(Joined(t', k))))
  }

  predicate MatchesExactly(t: Tables, step: Step)
    requires step.WithdrawStep?
  {
    && step.key in t.grants
    && t.grants[step.key].revision == step.revisionHash
    && t.grants[step.key].token == step.token
    && t.grants[step.key].publicUrl == step.publicUrl
    && t.grants[step.key].controlUrl == step.controlUrl
  }

  function GrantWithdrawn(t: Tables, step: Step): Outcome
    requires step.WithdrawStep?
  {
    if MatchesExactly(t, step) then Outcome(t.(grants := t.grants - {step.key}), Ok(Removed(true)))
    else Outcome(t, Ok(Removed(false)))
  }

  function ExactGrants(t: Tables): map<GrantKey, Grant> {
    map k | k in t.grants && ExactlyActive(t, k, t.grants[k]) :: t.grants[k]
  }

  /** Startup also drops relay grants whose approved endpoints are not the configured ones. */
  function EndpointGrants(grants: map<GrantKey, Grant>, expected: Option<(string, string)>): map<GrantKey, Grant> {
    map k | k in grants &&
      (k.transport == "relay" ==>
        expected.Some? && grants[k].publicUrl == expected.value.0 && grants[k].controlUrl == expected.value.1)
      :: grants[k]
  }

  function GrantsReconciled(t: Tables): Outcome {
    var t' := t.(grants := ExactGrants(t));
    Outcome(t', Ok(Listing(GrantListing(t', "relay"))))
  }

  function RelayReconciled(t: Tables, expected: Option<(string, string)>): Outcome {
    var t' := t.(grants := EndpointGrants(ExactGrants(t), expected));
    Outcome(t', Ok(Listing(GrantListing(t', "relay"))))
  }

  // ---------------------------------------------------------------- identity reconciliation

  /** The services scanned at startup: active, with their revision row present. */
  function ActiveServices(t: Tables): set<string> {
    set s | s in t.lifecycles && t.lifecycles[s].status == Active &&
      t.lifecycles[s].active.Some? && t.lifecycles[s].active.value in t.revisions
  }

  function ActiveRevision(t: Tables, s: string): Revision
    requires s in ActiveServices(t)
  {
    t.revisions[t.lifecycles[s].active.value]
  }

  /** The signed document parses, verifies and names the revision it is stored under. */
  predicate SoundlySigned(env: Env, t: Tables, s: string)
    requires s in ActiveServices(t)
  {
    var doc := env.verified(ActiveRevision(t, s).signed);
    doc.Some? && doc.value.revisionHash == t.lifecycles[s].active.value
  }

  predicate Foreign(env: Env, t: Tables, provider: string, s: string)
    requires s in ActiveServices(t)
  {
    SoundlySigned(env, t, s) && env.verified(ActiveRevision(t, s).signed).value.providerId != provider
  }

  function ForeignServices(env: Env, t: Tables, provider: string): set<string> {
    set s | s in ActiveServices(t) && Foreign(env, t, provider, s)
  }

  function IdentityEntry(env: Env, t: Tables, provider: string, now: int, s: string): LogEntry
    requires s in ActiveServices(t) && SoundlySigned(env, t, s)
  {
    var owner := env.verified(ActiveRevision(t, s).signed).value.providerId;
    LogEntry(s, t.lifecycles[s].active.value, PauseOp, env.identityEvidence(owner, provider), now)
  }

  /** The selection, the token and the creation time stay. */
  function PausedRow(row: Lifecycle, now: int): Lifecycle {
    row.(status := Paused, active := None, updatedAt := now)
  }

  function PausedRows(rows: map<string, Lifecycle>, services: set<string>, now: int): map<string, Lifecycle> {
    map s | s in rows ::
      if s in services then PausedRow(rows[s], now) else rows[s]
  }

  function Ordered(services: set<string>): (r: seq<string>)
    ensures ListsSet(r, services) && Ascending(TextLeq, r)
  {
    TextOrder();
    Sorted(services, TextLeq)
  }

  /** One pause entry per foreign service, in order. */
  function IdentityEntries(env: Env, t: Tables, provider: string, now: int): seq<LogEntry> {
    var order := Ordered(ForeignServices(env, t, provider));
    assert forall i | 0 <= i < |order| :: order[i] in order;
    seq(|order|, i requires 0 <= i < |order| => IdentityEntry(env, t, provider, now, order[i]))
  }

  function IdentityReconciled(env: Env, t: Tables, provider: string, now: int): Outcome {
    if !IsHex64(provider) then Outcome(t, Err(InvalidProviderIdentity))
    else if exists s | s in ActiveServices(t) :: !SoundlySigned(env, t, s) then Outcome(t, Err(InvalidSignedRevision))
    else
      var foreign := ForeignServices(env, t, provider);
      Outcome(
        Tables(
          t.revisions,
          PausedRows(t.lifecycles, foreign, now),
          WithoutGrantsOf(t.grants, foreign),
          t.offers,
          t.log + IdentityEntries(env, t, provider, now)),
        Ok(PausedServices(Ordered(foreign))))
  }

  // ---------------------------------------------------------------- managed offers alone

  function OfferDefined(t: Tables, offerId: string, definition: string, now: int): Outcome {
    Outcome(t.(offers := UpsertedOffer(t.offers, offerId, definition, now)), Ok(OfferStored))
  }

  // ---------------------------------------------------------------- the transition function

  function Next(env: Env, t: Tables, step: Step): Outcome {
    match step
    case PublishStep(_, _, _, _, _, _) => Published(t, step)
    case MutateStep(_, _, _, _, _) => Mutated(env, t, step)
    case GrantStep(_, _) => GrantPersisted(t, step)
    case WithdrawStep(_, _, _, _, _) => GrantWithdrawn(t, step)
    case ReconcileGrantsStep => GrantsReconciled(t)
    case ReconcileRelayStep(expected) => RelayReconciled(t, expected)
    case ReconcileIdentityStep(provider, now) => IdentityReconciled(env, t, provider, now)
    case DefineOfferStep(offerId, definition, now) => OfferDefined(t, offerId, definition, now)
  }
}
