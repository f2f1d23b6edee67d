/** The deals and quote reservations updated in place, one method per function of
    `src/deals.rs`, and the hold that startup recovery puts on a running deal. */
module DealStores {
  import opened Common
  import opened Deals

  class DealStore {
    /** SHA-256 over canonical JSON, left uninterpreted. */
    const hash: string -> string
    var deals: map<string, Deal>
    var byHash: map<string, string>
    var byKey: map<string, string>
    var usages: map<string, Usage>
    var usageOf: map<string, string>

    function View(): Tables
      reads this
    {
      Tables(deals, byHash, byKey, usages, usageOf)
    }

    constructor (hash: string -> string)
      ensures this.hash == hash && View() == EMPTY
    {
      this.hash := hash;
      deals, byHash, byKey, usages, usageOf := map[], map[], map[], map[], map[];
    }

    /** `INSERT OR IGNORE INTO quote_usages`. */
    method InsertUsage(quote: string, dealId: string, artifactHash: string, now: int) returns (inserted: bool)
      modifies this`usages, this`usageOf
      ensures inserted == QuoteFree(old(View()), quote, artifactHash)
      ensures View() == if inserted then WithUsage(old(View()), quote, dealId, artifactHash, now) else old(View())
    {
      inserted := quote !in usages && artifactHash !in usageOf;
      if inserted {
        usages := usages[quote := Usage(dealId, artifactHash, now)];
        usageOf := usageOf[artifactHash := quote];
      }
    }

    method ReserveQuoteUsage(quote: string, dealId: string, artifactHash: string, now: int)
      returns (error: Option<Error>)
      modifies this`usages, this`usageOf
      ensures var r := Reserved(old(View()), quote, dealId, artifactHash, now);
        if r.Ok? then error.None? && View() == r.value else error == Some(r.error) && View() == old(View())
    {
      var inserted := InsertUsage(quote, dealId, artifactHash, now);
      if inserted {
        return None;
      }
      if quote in usages && usages[quote].artifactHash == artifactHash {
        return None;
      }
      error := Some(QuoteAlreadyUsed);
    }

    /** `INSERT INTO deals`: fails when the primary key or a unique index is violated. */
    method InsertDeal(n: NewDeal) returns (inserted: bool)
      modifies this`deals, this`byHash, this`byKey
      ensures inserted <==>
        && n.id !in old(deals)
        && FindByHash(old(View()), n.artifactHash).None?
        && FindByKey(old(View()), n.key).None?
      ensures View() == if inserted then WithDeal(old(View()), n) else old(View())
    {
      inserted :=
        n.id !in deals && FindByHash(View(), n.artifactHash).None? && FindByKey(View(), n.key).None?;
      if inserted {
        deals := deals[n.id := Inserted(n)];
        byHash := byHash[n.artifactHash := n.id];
        if n.key.Some? {
          byKey := byKey[n.key.value := n.id];
        }
      }
    }

    /** The body of the admission transaction, as the source orders it. */
    method AdmitInTransaction(n: NewDeal) returns (r: Result<Reply, Error>)
      modifies this
      ensures r == Admitted(old(View()), n).reply
      ensures r.Ok? ==> View() == Admitted(old(View()), n).tables
    {
      var existing := FindByHash(View(), n.artifactHash);
      if existing.Some? {
        return Ok(Admission(existing.value, deals[existing.value], false));
      }
      existing := FindByKey(View(), n.key);
      if existing.Some? {
        if deals[existing.value].signedHash != n.signedHash {
          return Err(KeyReused);
        }
        return Ok(Admission(existing.value, deals[existing.value], false));
      }
      if !AmountFits(n.paymentAmount) {
        return Err(AmountTooLarge);
      }
      var error := ReserveQuoteUsage(n.quote, n.id, n.artifactHash, n.createdAt);
      if error.Some? {
        return Err(error.value);
      }
      var inserted := InsertDeal(n);
      if inserted {
        return Ok(Admission(n.id, deals[n.id], true));
      }
      // The lookups repeated after a failed insert find nothing: the deals did not change.
      assert FindByHash(View(), n.artifactHash).None?;
      assert FindByKey(View(), n.key).None?;
      r := Err(InsertFailed);
    }

    method InsertOrGetDeal(n: NewDeal) returns (r: Result<Reply, Error>)
      modifies this
      ensures Outcome(View(), r) == Next(hash, old(View()), Admit(n))
      ensures r.Err? ==> View() == old(View())
    {
      var saved := View();
      r := AdmitInTransaction(n);
      if r.Err? {
        deals, byHash, byKey, usages, usageOf :=
          saved.deals, saved.byHash, saved.byKey, saved.usages, saved.usageOf;
      }
    }

    method ReserveBeforeSideEffects(quote: string, dealId: string, artifactHash: string, now: int)
      returns (r: Result<Reply, Error>)
      modifies this`usages, this`usageOf
      ensures Outcome(View(), r) == Next(hash, old(View()), ReserveQuote(quote, dealId, artifactHash, now))
    {
      var inserted := InsertUsage(quote, dealId, artifactHash, now);
      if inserted {
        return Ok(Changed(true));
      }
      if quote !in usages || usages[quote].artifactHash != artifactHash {
        return Err(QuoteAlreadyUsed);
      }
      if FindByHash(View(), artifactHash).Some? {
        return Ok(Changed(false));
      }
      r := Err(AdmissionInProgress);
    }

    method ReleaseForUnpersistedDeal(quote: string, artifactHash: string) returns (r: Result<Reply, Error>)
      modifies this`usages, this`usageOf
      ensures Outcome(View(), r) == Next(hash, old(View()), ReleaseQuote(quote, artifactHash))
    {
      if FindByHash(View(), artifactHash).Some? {
        return Ok(Changed(false));
      }
      if quote in usages && usages[quote].artifactHash == artifactHash {
        usages := usages - {quote};
        usageOf := usageOf - {artifactHash};
        return Ok(Changed(true));
      }
      r := Ok(Changed(false));
    }

    // -------------------------------------------------------------- status updates

    method TryMarkRunning(dealId: string, now: int) returns (updated: bool)
      modifies this`deals
      ensures Outcome(View(), Ok(Changed(updated))) == Next(hash, old(View()), Mutate(dealId, MarkRunning, now))
    {
      updated := dealId in deals && deals[dealId].status == Accepted;
      if updated {
        var row := deals[dealId];
        deals := deals[dealId := row.(status := Running, updatedAt := now)];
      }
    }

    method ResetRunningToAccepted(dealId: string, now: int) returns (updated: bool)
      modifies this`deals
      ensures Outcome(View(), Ok(Changed(updated))) == Next(hash, old(View()), Mutate(dealId, ResetRunning, now))
    {
      updated := dealId in deals && deals[dealId].status == Running;
      if updated {
        var row := deals[dealId];
        deals := deals[dealId := row.(status := Accepted, updatedAt := now)];
      }
    }

    method TryMarkAcceptedFromPaymentPending(dealId: string, now: int) returns (updated: bool)
      modifies this`deals
      ensures Outcome(View(), Ok(Changed(updated))) == Next(hash, old(View()), Mutate(dealId, AcceptFromPending, now))
    {
      updated := dealId in deals && deals[dealId].status == PaymentPending;
      if updated {
        var row := deals[dealId];
        deals := deals[dealId := row.(status := Accepted, updatedAt := now)];
      }
    }

    method MaterializePayment(dealId: string, token: string, amount: nat, next: Status, now: int)
      returns (r: Result<bool, Error>)
      modifies this`deals
      ensures Outcome(View(), if r.Ok? then Ok(Changed(r.value)) else Err(r.error)) ==
        Next(hash, old(View()), Mutate(dealId, Mutation.MaterializePayment(token, amount, next), now))
    {
      if next != Accepted && next != PaymentPending {
        return Err(UnsupportedStatus);
      }
      if amount > I64_MAX {
        return Err(AmountTooLarge);
      }
      if dealId in deals && deals[dealId].status == PaymentPending {
        var row := deals[dealId];
        deals := deals[dealId := row.(
          paymentToken := Some(token), paymentAmount := Some(amount), status := next, updatedAt := now)];
        return Ok(true);
      }
      r := Ok(false);
    }

    method CompleteSuccess(dealId: string, s: Success, now: int)
      modifies this`deals
      ensures Outcome(View(), Ok(Done)) == Next(hash, old(View()), Mutate(dealId, Mutation.CompleteSuccess(s), now))
    {
      var resultHash := hash(s.result);
      if s.explicitHash.Some? {
        resultHash := s.explicitHash.value;
      }
      if dealId in deals {
        var row := deals[dealId];
        deals := deals[dealId := row.(
          status := Succeeded, result := Some(s.result), resultHash := Some(resultHash), error := None,
          receipt := Some(s.receipt),
          resultEvidence := if s.resultEvidence.Some? then s.resultEvidence else row.resultEvidence,
          failureEvidence := None,
          receiptHash := if s.receiptHash.Some? then s.receiptHash else row.receiptHash,
          updatedAt := now)];
      }
    }

    method CompleteSuccessIfStatus(dealId: string, expected: Status, s: Success, now: int)
      returns (updated: bool)
      modifies this`deals
      ensures Outcome(View(), Ok(Changed(updated))) ==
        Next(hash, old(View()), Mutate(dealId, CompleteSuccessIf(expected, s), now))
    {
      var resultHash := hash(s.result);
      if s.explicitHash.Some? {
        resultHash := s.explicitHash.value;
      }
      updated := dealId in deals && deals[dealId].status == expected;
      if updated {
        var row := deals[dealId];
        deals := deals[dealId := row.(
          status := Succeeded, result := Some(s.result), resultHash := Some(resultHash), error := None,
          receipt := Some(s.receipt),
          resultEvidence := if s.resultEvidence.Some? then s.resultEvidence else row.resultEvidence,
          failureEvidence := None,
          receiptHash := if s.receiptHash.Some? then s.receiptHash else row.receiptHash,
          updatedAt := now)];
      }
    }

    method StageResultReady(
      dealId: string, result: string, explicitHash: Option<string>, resultEvidence: Option<string>, now: int)
      returns (updated: bool)
      modifies this`deals
      ensures Outcome(View(), Ok(Changed(updated))) ==
        Next(hash, old(View()), Mutate(dealId, StageResult(result, explicitHash, resultEvidence), now))
    {
      var resultHash := hash(result);
      if explicitHash.Some? {
        resultHash := explicitHash.value;
      }
      updated := dealId in deals && deals[dealId].status == Running;
      if updated {
        var row := deals[dealId];
        deals := deals[dealId := row.(
          status := ResultReady, result := Some(result), resultHash := Some(resultHash), error := None, receipt := None,
          resultEvidence := if resultEvidence.Some? then resultEvidence else row.resultEvidence,
          failureEvidence := None, receiptHash := None, updatedAt := now)];
      }
    }

    method StageSettlementPendingFailure(dealId: string, error: string, evidence: string, now: int)
      returns (updated: bool)
      modifies this`deals
      ensures Outcome(View(), Ok(Changed(updated))) ==
        Next(hash, old(View()), Mutate(dealId, StageSettlementPending(error, evidence), now))
    {
      updated := dealId in deals && deals[dealId].status == Running;
      if updated {
        var row := deals[dealId];
        deals := deals[dealId := row.(
          status := SettlementPending, result := None, resultHash := None, error := Some(error), receipt := None,
          resultEvidence := None, failureEvidence := Some(evidence), receiptHash := None, updatedAt := now)];
      }
    }

    method CompleteRecoveryFailureIfStatus(dealId: string, expected: Status, f: Failure, preserveResult: bool, now: int)
      returns (updated: bool)
      modifies this`deals
      ensures Outcome(View(), Ok(Changed(updated))) ==
        Next(hash, old(View()), Mutate(dealId, RecoveryFailure(expected, f, preserveResult), now))
    {
      updated := dealId in deals && deals[dealId].status == expected;
      if updated {
        var row := deals[dealId];
        deals := deals[dealId := row.(
          status := Failed,
          result := if preserveResult then row.result else None,
          resultHash := if preserveResult then row.resultHash else None,
          error := Some(f.error), receipt := Some(f.receipt),
          resultEvidence := if preserveResult then row.resultEvidence else None,
          failureEvidence := f.failureEvidence, receiptHash := f.receiptHash, updatedAt := now)];
      }
    }

    method RejectIfStatus(dealId: string, expected: Status, f: Failure, now: int) returns (updated: bool)
      modifies this`deals
      ensures Outcome(View(), Ok(Changed(updated))) ==
        Next(hash, old(View()), Mutate(dealId, RejectIf(expected, f), now))
    {
      updated := dealId in deals && deals[dealId].status == expected;
      if updated {
        var row := deals[dealId];
        deals := deals[dealId := row.(
          status := Rejected, error := Some(f.error), receipt := Some(f.receipt), resultEvidence := None,
          failureEvidence := if f.failureEvidence.Some? then f.failureEvidence else row.failureEvidence,
          receiptHash := if f.receiptHash.Some? then f.receiptHash else row.receiptHash,
          updatedAt := now)];
      }
    }

    method RejectAdmission(dealId: string, f: Failure, now: int) returns (updated: bool)
      modifies this`deals
      ensures Outcome(View(), Ok(Changed(updated))) ==
        Next(hash, old(View()), Mutate(dealId, RejectIf(Accepted, f), now))
    {
      updated := RejectIfStatus(dealId, Accepted, f, now);
    }

    method CompleteFailure(dealId: string, f: Failure, now: int)
      modifies this`deals
      ensures Outcome(View(), Ok(Done)) == Next(hash, old(View()), Mutate(dealId, Mutation.CompleteFailure(f), now))
    {
      if dealId in deals {
        var row := deals[dealId];
        deals := deals[dealId := row.(
          status := Failed, error := Some(f.error), receipt := Some(f.receipt), resultEvidence := None,
          failureEvidence := if f.failureEvidence.Some? then f.failureEvidence else row.failureEvidence,
          receiptHash := if f.receiptHash.Some? then f.receiptHash else row.receiptHash,
          updatedAt := now)];
      }
    }

    method CancelUnadmitted(dealId: string, message: string, evidence: string, now: int)
      returns (updated: bool)
      modifies this`deals
      ensures Outcome(View(), Ok(Changed(updated))) ==
        Next(hash, old(View()), Mutate(dealId, Mutation.CancelUnadmitted(message, evidence), now))
    {
      updated := dealId in deals && deals[dealId].status == PaymentPending &&
        deals[dealId].receipt.None? && deals[dealId].receiptHash.None?;
      if updated {
        var row := deals[dealId];
        deals := deals[dealId := row.(
          status := Failed, error := Some(message), failureEvidence := Some(evidence), updatedAt := now)];
      }
    }

    /** Unlike `CompleteFailure`, this one leaves the result evidence alone. */
    method CompleteFailureIfStatus(dealId: string, expected: Status, f: Failure, now: int)
      returns (updated: bool)
      modifies this`deals
      ensures Outcome(View(), Ok(Changed(updated))) ==
        Next(hash, old(View()), Mutate(dealId, CompleteFailureIf(expected, f), now))
    {
      updated := dealId in deals && deals[dealId].status == expected;
      if updated {
        var row := deals[dealId];
        deals := deals[dealId := row.(
          status := Failed, error := Some(f.error), receipt := Some(f.receipt),
          failureEvidence := if f.failureEvidence.Some? then f.failureEvidence else row.failureEvidence,
          receiptHash := if f.receiptHash.Some? then f.receiptHash else row.receiptHash,
          updatedAt := now)];
      }
    }

    /** Startup recovery: a running deal whose external outcome is unknown is held, with the
        reason as its error, instead of being retried. */
    method HoldForReconciliation(dealId: string, message: string, now: int) returns (updated: bool)
      modifies this`deals
      ensures Outcome(View(), Ok(Changed(updated))) ==
        Next(hash, old(View()), Mutate(dealId, HoldRunning(message), now))
    {
      updated := dealId in deals && deals[dealId].status == Running;
      if updated {
        var row := deals[dealId];
        deals := deals[dealId := row.(error := Some(message), updatedAt := now)];
      }
    }

    method FailIncompleteDeals(message: string, now: int)
      modifies this`deals
      ensures Outcome(View(), Ok(Done)) == Next(hash, old(View()), FailIncomplete(message, now))
    {
      deals := map d | d in deals ::
        if deals[d].status == Accepted || deals[d].status == Running
        then deals[d].(status := Failed, error := Some(message), updatedAt := now)
        else deals[d];
    }
  }
}
