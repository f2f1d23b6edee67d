/** Deal admission and the deal status machine of `src/deals.rs`.

    `Next` says what each statement or transaction does to the deals table and the
    single-use quote reservations; `DealStore` does it in place, statement by statement.
 */
module Deals {
  import opened Common

  datatype Status =
    | PaymentPending | Accepted | Running | ResultReady | SettlementPending
    | Succeeded | Failed | Rejected

  /** `artifactHash` is the keyed column, `signedHash` the hash inside the stored artifact. */
  datatype Deal = Deal(
    key: Option<string>, quote: string, artifactHash: string, signedHash: string, documents: string,
    status: Status, result: Option<string>, resultHash: Option<string>, error: Option<string>,
    paymentMethod: Option<string>, paymentToken: Option<string>, paymentAmount: Option<nat>,
    receipt: Option<string>, resultEvidence: Option<string>, failureEvidence: Option<string>,
    receiptHash: Option<string>, createdAt: int, updatedAt: int)

  datatype Usage = Usage(deal: string, artifactHash: string, createdAt: int)

  /** The deals and the quote reservations, each with the UNIQUE indexes of the schema:
      `byHash` and `byKey` find a deal by artifact hash and by idempotency key, `usageOf`
      finds the quote that an artifact hash has reserved. */
  datatype Tables = Tables(
    deals: map<string, Deal>, byHash: map<string, string>, byKey: map<string, string>,
    usages: map<string, Usage>, usageOf: map<string, string>)

  const EMPTY := Tables(map[], map[], map[], map[], map[])

  datatype NewDeal = NewDeal(
    id: string, key: Option<string>, quote: string, artifactHash: string, signedHash: string, documents: string,
    paymentMethod: Option<string>, paymentToken: Option<string>, paymentAmount: Option<nat>,
    status: Status, createdAt: int)

  datatype Success = Success(
    result: string, explicitHash: Option<string>, receipt: string,
    resultEvidence: Option<string>, receiptHash: Option<string>)

  datatype Failure = Failure(
    error: string, receipt: string, failureEvidence: Option<string>, receiptHash: Option<string>)

  /** The conditional and unconditional `UPDATE`s of one deal. */
  datatype Mutation =
    | MarkRunning
    | ResetRunning
    | AcceptFromPending
    | MaterializePayment(token: string, amount: nat, next: Status)
    | CompleteSuccess(success: Success)
    | CompleteSuccessIf(expected: Status, success: Success)
    | StageResult(result: string, explicitHash: Option<string>, resultEvidence: Option<string>)
    | StageSettlementPending(error: string, evidence: string)
    | RecoveryFailure(expected: Status, failure: Failure, preserveResult: bool)
    | RejectIf(expected: Status, failure: Failure)
    | CompleteFailure(failure: Failure)
    | CompleteFailureIf(expected: Status, failure: Failure)
    | CancelUnadmitted(error: string, evidence: string)
    | HoldRunning(message: string)

  datatype Step =
    | Admit(deal: NewDeal)
    | ReserveQuote(quote: string, dealId: string, artifactHash: string, now: int)
    | ReleaseQuote(quote: string, artifactHash: string)
    | Mutate(dealId: string, mutation: Mutation, now: int)
    | FailIncomplete(message: string, now: int)

  datatype Error =
    | KeyReused
    | AmountTooLarge
    | QuoteAlreadyUsed
    | AdmissionInProgress
    | InsertFailed
    | UnsupportedStatus

  datatype Reply =
    | Admission(dealId: string, deal: Deal, created: bool)
    | Changed(changed: bool)
    | Done

  datatype Outcome = Outcome(tables: Tables, reply: Result<Reply, Error>)

  // ---------------------------------------------------------------- lookups

  function FindByHash(t: Tables, hash: string): Option<string> {
    if hash in t.byHash && t.byHash[hash] in t.deals then Some(t.byHash[hash]) else None
  }

  function FindByKey(t: Tables, key: Option<string>): Option<string> {
    if key.Some? && key.value in t.byKey && t.byKey[key.value] in t.deals then Some(t.byKey[key.value]) else None
  }

  /** The deal indexes list exactly the stored deals. */
  ghost predicate DealsIndexed(deals: map<string, Deal>, byHash: map<string, string>, byKey: map<string, string>) {
    && (forall d | d in deals :: deals[d].artifactHash in byHash && byHash[deals[d].artifactHash] == d)
    && (forall d | d in deals && deals[d].key.Some? :: deals[d].key.value in byKey && byKey[deals[d].key.value] == d)
    && (forall h | h in byHash :: byHash[h] in deals && deals[byHash[h]].artifactHash == h)
    && (forall k | k in byKey :: byKey[k] in deals && deals[byKey[k]].key == Some(k))
  }

  /** The reservation index lists exactly the reservations. */
  ghost predicate UsagesIndexed(usages: map<string, Usage>, usageOf: map<string, string>) {
    && (forall q | q in usages :: usages[q].artifactHash in usageOf && usageOf[usages[q].artifactHash] == q)
    && (forall h | h in usageOf :: usageOf[h] in usages && usages[usageOf[h]].artifactHash == h)
  }

  ghost predicate Indexed(t: Tables) {
    DealsIndexed(t.deals, t.byHash, t.byKey) && UsagesIndexed(t.usages, t.usageOf)
  }

  // ---------------------------------------------------------------- quote reservations

  /** `INSERT OR IGNORE` takes effect when neither the quote nor the artifact hash is taken. */
  predicate QuoteFree(t: Tables, quote: string, hash: string) {
    quote !in t.usages && hash !in t.usageOf
  }

  predicate ReservedTo(t: Tables, quote: string, hash: string) {
    quote in t.usages && t.usages[quote].artifactHash == hash
  }

  function WithUsage(t: Tables, quote: string, dealId: string, hash: string, now: int): Tables {
    t.(usages := t.usages[quote := Usage(dealId, hash, now)], usageOf := t.usageOf[hash := quote])
  }

  /** Reservation inside admission: the same artifact may reserve its quote again. */
  function Reserved(t: Tables, quote: string, dealId: string, hash: string, now: int): Result<Tables, Error> {
    if QuoteFree(t, quote, hash) then Ok(WithUsage(t, quote, dealId, hash, now))
    else if ReservedTo(t, quote, hash) then Ok(t)
    else Err(QuoteAlreadyUsed)
  }

  /** Reservation before external side effects: only the first caller gets `true`. */
  function Permitted(t: Tables, quote: string, dealId: string, hash: string, now: int): Outcome {
    if QuoteFree(t, quote, hash) then Outcome(WithUsage(t, quote, dealId, hash, now), Ok(Changed(true)))
    else if !ReservedTo(t, quote, hash) then Outcome(t, Err(QuoteAlreadyUsed))
    else if FindByHash(t, hash).Some? then Outcome(t, Ok(Changed(false)))
    else Outcome(t, Err(AdmissionInProgress))
  }

  function WithoutUsage(t: Tables, quote: string, hash: string): Tables {
    t.(usages := t.usages - {quote}, usageOf := t.usageOf - {hash})
  }

  function Released(t: Tables, quote: string, hash: string): Outcome {
    if FindByHash(t, hash).Some? then Outcome(t, Ok(Changed(false)))
    else if ReservedTo(t, quote, hash) then Outcome(WithoutUsage(t, quote, hash), Ok(Changed(true)))
    else Outcome(t, Ok(Changed(false)))
  }

  // ---------------------------------------------------------------- admission

  function Inserted(n: NewDeal): Deal {
    Deal(
      n.key, n.quote, n.artifactHash, n.signedHash, n.documents, n.status,
      None, None, None, n.paymentMethod, n.paymentToken, n.paymentAmount,
      None, None, None, None, n.createdAt, n.createdAt)
  }

  predicate AmountFits(amount: Option<nat>) {
    amount.Some? ==> amount.value <= I64_MAX
  }

  function WithDeal(t: Tables, n: NewDeal): Tables {
    t.(deals := t.deals[n.id := Inserted(n)],
       byHash := t.byHash[n.artifactHash := n.id],
       byKey := if n.key.Some? then t.byKey[n.key.value := n.id] else t.byKey)
  }

  /** The whole admission transaction: on an error nothing is kept. */
  function Admitted(t: Tables, n: NewDeal): Outcome {
    var byHash, byKey := FindByHash(t, n.artifactHash), FindByKey(t, n.key);
    if byHash.Some? then Outcome(t, Ok(Admission(byHash.value, t.deals[byHash.value], false)))
    else if byKey.Some? then
      if t.deals[byKey.value].signedHash != n.signedHash then Outcome(t, Err(KeyReused))
      else Outcome(t, Ok(Admission(byKey.value, t.deals[byKey.value], false)))
    else if !AmountFits(n.paymentAmount) then Outcome(t, Err(AmountTooLarge))
    else
      var reserved := Reserved(t, n.quote, n.id, n.artifactHash, n.createdAt);
      if reserved.Err? then Outcome(t, Err(reserved.error))
      else if n.id in t.deals then Outcome(t, Err(InsertFailed))
      else Outcome(WithDeal(reserved.value, n), Ok(Admission(n.id, Inserted(n), true)))
  }

  // ---------------------------------------------------------------- status mutations

  /** The `WHERE` clause, beyond the deal id. */
  predicate Guard(m: Mutation, d: Deal) {
    match m
    case MarkRunning => d.status == Accepted
    case ResetRunning => d.status == Running
    case AcceptFromPending => d.status == PaymentPending
    case MaterializePayment(_, _, _) => d.status == PaymentPending
    case CompleteSuccess(_) => true
    case CompleteSuccessIf(expected, _) => d.status == expected
    case StageResult(_, _, _) => d.status == Running
    case StageSettlementPending(_, _) => d.status == Running
    case RecoveryFailure(expected, _, _) => d.status == expected
    case RejectIf(expected, _) => d.status == expected
    case CompleteFailure(_) => true
    case CompleteFailureIf(expected, _) => d.status == expected
    case CancelUnadmitted(_, _) => d.status == PaymentPending && d.receipt.None? && d.receiptHash.None?
    case HoldRunning(_) => d.status == Running
  }

  function Coalesce(a: Option<string>, b: Option<string>): Option<string> {
    if a.Some? then a else b
  }

  function ResultHash(hash: string -> string, explicit: Option<string>, result: string): string {
    if explicit.Some? then explicit.value else hash(result)
  }

  function SucceededRow(hash: string -> string, d: Deal, s: Success, now: int): Deal {
    d.(status := Succeeded, result := Some(s.result),
       resultHash := Some(ResultHash(hash, s.explicitHash, s.result)),
       error := None, receipt := Some(s.receipt),
       resultEvidence := Coalesce(s.resultEvidence, d.resultEvidence), failureEvidence := None,
       receiptHash := Coalesce(s.receiptHash, d.receiptHash), updatedAt := now)
  }

  /** The columns no status mutation touches. */
  predicate SameIdentity(a: Deal, b: Deal) {
    && a.key == b.key && a.quote == b.quote && a.artifactHash == b.artifactHash
    && a.signedHash == b.signedHash && a.documents == b.documents
    && a.paymentMethod == b.paymentMethod && a.createdAt == b.createdAt
  }

  /** The `SET` clause. `hash` stands for SHA-256 over canonical JSON. */
  function Write(hash: string -> string, m: Mutation, d: Deal, now: int): (d': Deal)
    ensures SameIdentity(d, d')
  {
    match m
    case MarkRunning => d.(status := Running, updatedAt := now)
    case ResetRunning => d.(status := Accepted, updatedAt := now)
    case AcceptFromPending => d.(status := Accepted, updatedAt := now)
    case MaterializePayment(token, amount, next) =>
      d.(paymentToken := Some(token), paymentAmount := Some(amount), status := next, updatedAt := now)
    case CompleteSuccess(s) => SucceededRow(hash, d, s, now)
    case CompleteSuccessIf(_, s) => SucceededRow(hash, d, s, now)
    case StageResult(result, explicit, evidence) =>
      d.(status := ResultReady, result := Some(result), resultHash := Some(ResultHash(hash, explicit, result)),
         error := None, receipt := None, resultEvidence := Coalesce(evidence, d.resultEvidence),
         failureEvidence := None, receiptHash := None, updatedAt := now)
    case StageSettlementPending(error, evidence) =>
      d.(status := SettlementPending, result := None, resultHash := None, error := Some(error),
         receipt := None, resultEvidence := None, failureEvidence := Some(evidence), receiptHash := None,
         updatedAt := now)
    case RecoveryFailure(_, f, preserve) =>
      d.(status := Failed,
         result := if preserve then d.result else None,
         resultHash := if preserve then d.resultHash else None,
         error := Some(f.error), receipt := Some(f.receipt),
         resultEvidence := if preserve then d.resultEvidence else None,
         failureEvidence := f.failureEvidence, receiptHash := f.receiptHash, updatedAt := now)
    case RejectIf(_, f) =>
      d.(status := Rejected, error := Some(f.error), receipt := Some(f.receipt), resultEvidence := None,
         failureEvidence := Coalesce(f.failureEvidence, d.failureEvidence),
         receiptHash := Coalesce(f.receiptHash, d.receiptHash), updatedAt := now)
    case CompleteFailure(f) =>
      d.(status := Failed, error := Some(f.error), receipt := Some(f.receipt), resultEvidence := None,
         failureEvidence := Coalesce(f.failureEvidence, d.failureEvidence),
         receiptHash := Coalesce(f.receiptHash, d.receiptHash), updatedAt := now)
    case CompleteFailureIf(_, f) =>
      d.(status := Failed, error := Some(f.error), receipt := Some(f.receipt),
         failureEvidence := Coalesce(f.failureEvidence, d.failureEvidence),
         receiptHash := Coalesce(f.receiptHash, d.receiptHash), updatedAt := now)
    case CancelUnadmitted(error, evidence) =>
      d.(status := Failed, error := Some(error), failureEvidence := Some(evidence), updatedAt := now)
    case HoldRunning(message) => d.(error := Some(message), updatedAt := now)
  }

  /** Arguments refused before the statement runs. */
  function MutationError(m: Mutation): Option<Error> {
    match m
    case MaterializePayment(_, amount, next) =>
      if next != Accepted && next != PaymentPending then Some(UnsupportedStatus)
      else if amount > I64_MAX then Some(AmountTooLarge)
      else None
    case _ => None
  }

  /** The unguarded completions report no row count. */
  function MutationReply(m: Mutation, changed: bool): Reply {
    if m.CompleteSuccess? || m.CompleteFailure? then Done else Changed(changed)
  }

  function Mutated(hash: string -> string, t: Tables, id: string, m: Mutation, now: int): Outcome {
    if MutationError(m).Some? then Outcome(t, Err(MutationError(m).value))
    else if id in t.deals && Guard(m, t.deals[id]) then
      Outcome(t.(deals := t.deals[id := Write(hash, m, t.deals[id], now)]), Ok(MutationReply(m, true)))
    else Outcome(t, Ok(MutationReply(m, false)))
  }

  function FailedIfIncomplete(d: Deal, message: string, now: int): Deal {
    if d.status == Accepted || d.status == Running
    then d.(status := Failed, error := Some(message), updatedAt := now)
    else d
  }

  function IncompleteFailed(t: Tables, message: string, now: int): Outcome {
    Outcome(t.(deals := map d | d in t.deals :: FailedIfIncomplete(t.deals[d], message, now)), Ok(Done))
  }

  function Next(hash: string -> string, t: Tables, step: Step): Outcome {
    match step
    case Admit(n) => Admitted(t, n)
    case ReserveQuote(q, d, h, now) => Permitted(t, q, d, h, now)
    case ReleaseQuote(q, h) => Released(t, q, h)
    case Mutate(d, m, now) => Mutated(hash, t, d, m, now)
    case FailIncomplete(message, now) => IncompleteFailed(t, message, now)
  }
}
