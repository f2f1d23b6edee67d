/** What the deal operations answer and store, over whole runs and in terms of their arguments:
    the exact outcome of an admission, the last writer of every column, when an update takes
    effect, who may run unpaid, and who holds a quote. */
module DealEffects {
  import opened Common
  import opened Histories
  import opened Deals
  import opened DealRuns

  // ---------------------------------------------------------------- admission

  ghost predicate HasArtifact(t: Tables, d: string, artifactHash: string) {
    d in t.deals && t.deals[d].artifactHash == artifactHash
  }

  ghost predicate HasKey(t: Tables, d: string, key: Option<string>) {
    key.Some? && d in t.deals && t.deals[d].key == key
  }

  /** The quote is reserved to this artifact, or it is free and so is the artifact. */
  ghost predicate QuoteOpen(t: Tables, quote: string, artifactHash: string) {
    if quote in t.usages then t.usages[quote].artifactHash == artifactHash
    else forall q | q in t.usages :: t.usages[q].artifactHash != artifactHash
  }

  /** The row of a new deal: the caller's columns, and no outcome. */
  function NewRow(n: NewDeal): Deal {
    Deal(
      key := n.key, quote := n.quote, artifactHash := n.artifactHash, signedHash := n.signedHash,
      documents := n.documents, status := n.status, result := None, resultHash := None, error := None,
      paymentMethod := n.paymentMethod, paymentToken := n.paymentToken, paymentAmount := n.paymentAmount,
      receipt := None, resultEvidence := None, failureEvidence := None, receiptHash := None,
      createdAt := n.createdAt, updatedAt := n.createdAt)
  }

  ghost predicate Known(t: Tables, n: NewDeal) {
    exists d :: HasArtifact(t, d, n.artifactHash)
  }

  ghost predicate KeyTaken(t: Tables, n: NewDeal) {
    exists d :: HasKey(t, d, n.key)
  }

  lemma LookupsAreExact(t: Tables, n: NewDeal)
    requires Inv(t)
    ensures FindByHash(t, n.artifactHash).Some? <==> Known(t, n)
    ensures FindByKey(t, n.key).Some? <==> KeyTaken(t, n)
    ensures forall d | HasArtifact(t, d, n.artifactHash) :: FindByHash(t, n.artifactHash) == Some(d)
    ensures FindByKey(t, n.key).Some? ==> HasKey(t, FindByKey(t, n.key).value, n.key)
  {
    if FindByHash(t, n.artifactHash).Some? {
      assert HasArtifact(t, FindByHash(t, n.artifactHash).value, n.artifactHash);
    }
    if FindByKey(t, n.key).Some? {
      assert HasKey(t, FindByKey(t, n.key).value, n.key);
    }
  }

  lemma QuoteOpenIsReserved(t: Tables, n: NewDeal)
    requires Inv(t)
    ensures var r := Reserved(t, n.quote, n.id, n.artifactHash, n.createdAt);
      && (r.Ok? <==> QuoteOpen(t, n.quote, n.artifactHash))
      && (r.Err? ==> r.error == QuoteAlreadyUsed)
      && (r.Ok? ==>
            && r.value.deals == t.deals
            && r.value.usages ==
                 if n.quote in t.usages then t.usages
                 else t.usages[n.quote := Usage(n.id, n.artifactHash, n.createdAt)])
  {
    if n.quote !in t.usages && n.artifactHash in t.usageOf {
      assert t.usages[t.usageOf[n.artifactHash]].artifactHash == n.artifactHash;
    }
  }

  /** The outcome of an admission in a reachable state, case by case. A known artifact is
      returned as it stands; else a taken key, an amount over the integer range, a quote that
      is not open and a used deal id are refused, in that order, and change nothing; else the
      deal is stored with the caller's columns, and the quote is reserved to it. */
  lemma AdmissionIsExact(hash: string -> string, run: Run, k: nat, n: NewDeal)
    requires IsRun(hash, run) && k < |run.tables| && WellFormed(Admit(n))
    ensures var t, o := run.tables[k], Next(hash, run.tables[k], Admit(n));
      && (forall d | HasArtifact(t, d, n.artifactHash) :: o == Outcome(t, Ok(Admission(d, t.deals[d], false))))
      && (!Known(t, n) ==>
            if KeyTaken(t, n) then o == Outcome(t, Err(KeyReused))
            else if n.paymentAmount.Some? && n.paymentAmount.value > I64_MAX then o == Outcome(t, Err(AmountTooLarge))
            else if !QuoteOpen(t, n.quote, n.artifactHash) then o == Outcome(t, Err(QuoteAlreadyUsed))
            else if n.id in t.deals then o == Outcome(t, Err(InsertFailed))
            else
              && o.reply == Ok(Admission(n.id, NewRow(n), true))
              && o.tables.deals == t.deals[n.id := NewRow(n)]
              && o.tables.usages ==
                   if n.quote in t.usages then t.usages
                   else t.usages[n.quote := Usage(n.id, n.artifactHash, n.createdAt)])
  {
    RunKeepsInv(hash, run, k);
    AdmittedExactly(run.tables[k], n);
  }

  lemma AdmittedExactly(t: Tables, n: NewDeal)
    requires Inv(t) && n.artifactHash == n.signedHash
    ensures var o := Admitted(t, n);
      && (forall d | HasArtifact(t, d, n.artifactHash) :: o == Outcome(t, Ok(Admission(d, t.deals[d], false))))
      && (!Known(t, n) ==>
            if KeyTaken(t, n) then o == Outcome(t, Err(KeyReused))
            else if n.paymentAmount.Some? && n.paymentAmount.value > I64_MAX then o == Outcome(t, Err(AmountTooLarge))
            else if !QuoteOpen(t, n.quote, n.artifactHash) then o == Outcome(t, Err(QuoteAlreadyUsed))
            else if n.id in t.deals then o == Outcome(t, Err(InsertFailed))
            else
              && o.reply == Ok(Admission(n.id, NewRow(n), true))
              && o.tables.deals == t.deals[n.id := NewRow(n)]
              && o.tables.usages ==
                   if n.quote in t.usages then t.usages
                   else t.usages[n.quote := Usage(n.id, n.artifactHash, n.createdAt)])
  {
    LookupsAreExact(t, n);
    QuoteOpenIsReserved(t, n);
    var byKey := FindByKey(t, n.key);
    if !Known(t, n) && byKey.Some? {
      assert !HasArtifact(t, byKey.value, n.artifactHash);
    }
  }

  ghost predicate Created(reply: Result<Reply, Error>) {
    reply.Ok? && reply.value.Admission? && reply.value.created
  }

  /** An admission stores one new row and its reservation, or nothing. */
  lemma AdmittedEither(t: Tables, n: NewDeal)
    requires Inv(t) && WellFormed(Admit(n))
    ensures var o := Admitted(t, n);
      if Created(o.reply)
      then
        && n.id !in t.deals && o.tables.deals == t.deals[n.id := NewRow(n)]
        && o.tables.usages ==
             if n.quote in t.usages then t.usages
             else t.usages[n.quote := Usage(n.id, n.artifactHash, n.createdAt)]
      else o.tables == t
  {
    AdmittedExactly(t, n);
    if d :| HasArtifact(t, d, n.artifactHash) {
      assert Admitted(t, n) == Outcome(t, Ok(Admission(d, t.deals[d], false)));
    }
  }

  // ---------------------------------------------------------------- columns

  datatype Column =
    | KeyColumn | QuoteColumn | ArtifactHashColumn | SignedHashColumn | DocumentsColumn
    | StatusColumn | ResultColumn | ResultHashColumn | ErrorColumn
    | PaymentMethodColumn | PaymentTokenColumn | PaymentAmountColumn
    | ReceiptColumn | ReceiptHashColumn | ResultEvidenceColumn | FailureEvidenceColumn
    | CreatedAtColumn | UpdatedAtColumn

  datatype Cell = Null | Text(text: string) | Number(number: int) | State(status: Status)

  function OptionalText(o: Option<string>): Cell {
    if o.Some? then Text(o.value) else Null
  }

  function OptionalNumber(o: Option<nat>): Cell {
    if o.Some? then Number(o.value) else Null
  }

  function CellOf(d: Deal, c: Column): Cell {
    match c
    case KeyColumn => OptionalText(d.key)
    case QuoteColumn => Text(d.quote)
    case ArtifactHashColumn => Text(d.artifactHash)
    case SignedHashColumn => Text(d.signedHash)
    case DocumentsColumn => Text(d.documents)
    case StatusColumn => State(d.status)
    case ResultColumn => OptionalText(d.result)
    case ResultHashColumn => OptionalText(d.resultHash)
    case ErrorColumn => OptionalText(d.error)
    case PaymentMethodColumn => OptionalText(d.paymentMethod)
    case PaymentTokenColumn => OptionalText(d.paymentToken)
    case PaymentAmountColumn => OptionalNumber(d.paymentAmount)
    case ReceiptColumn => OptionalText(d.receipt)
    case ReceiptHashColumn => OptionalText(d.receiptHash)
    case ResultEvidenceColumn => OptionalText(d.resultEvidence)
    case FailureEvidenceColumn => OptionalText(d.failureEvidence)
    case CreatedAtColumn => Number(d.createdAt)
    case UpdatedAtColumn => Number(d.updatedAt)
  }

  /** A column that an argument sets when it is given, and otherwise leaves alone. */
  function IfGiven(argument: Option<string>): Option<Cell> {
    if argument.Some? then Some(Text(argument.value)) else None
  }

  /** The status an update assigns; a hold assigns none. */
  function StatusAfter(m: Mutation): Option<Status> {
    match m
    case MarkRunning => Some(Running)
    case ResetRunning => Some(Accepted)
    case AcceptFromPending => Some(Accepted)
    case MaterializePayment(_, _, next) => Some(next)
    case CompleteSuccess(_) => Some(Succeeded)
    case CompleteSuccessIf(_, _) => Some(Succeeded)
    case StageResult(_, _, _) => Some(ResultReady)
    case StageSettlementPending(_, _) => Some(SettlementPending)
    case RecoveryFailure(_, _, _) => Some(Failed)
    case RejectIf(_, _) => Some(Rejected)
    case CompleteFailure(_) => Some(Failed)
    case CompleteFailureIf(_, _) => Some(Failed)
    case CancelUnadmitted(_, _) => Some(Failed)
    case HoldRunning(_) => None
  }

  function SuccessCell(hash: string -> string, s: Success, c: Column): Option<Cell> {
    match c
    case ResultColumn => Some(Text(s.result))
    case ResultHashColumn => Some(Text(if s.explicitHash.Some? then s.explicitHash.value else hash(s.result)))
    case ErrorColumn => Some(Null)
    case ReceiptColumn => Some(Text(s.receipt))
    case ReceiptHashColumn => IfGiven(s.receiptHash)
    case ResultEvidenceColumn => IfGiven(s.resultEvidence)
    case FailureEvidenceColumn => Some(Null)
    case _ => None
  }

  /** A failure keeps the evidence already there unless it brings its own. */
  function FailureCell(f: Failure, clearsResultEvidence: bool, c: Column): Option<Cell> {
    match c
    case ErrorColumn => Some(Text(f.error))
    case ReceiptColumn => Some(Text(f.receipt))
    case ReceiptHashColumn => IfGiven(f.receiptHash)
    case ResultEvidenceColumn => if clearsResultEvidence then Some(Null) else None
    case FailureEvidenceColumn => IfGiven(f.failureEvidence)
    case _ => None
  }

  function StageCell(hash: string -> string, m: Mutation, c: Column): Option<Cell>
    requires m.StageResult? || m.StageSettlementPending?
  {
    match m
    case StageResult(result, explicit, evidence) =>
      (match c
       case ResultColumn => Some(Text(result))
       case ResultHashColumn => Some(Text(if explicit.Some? then explicit.value else hash(result)))
       case ErrorColumn => Some(Null)
       case ReceiptColumn => Some(Null)
       case ReceiptHashColumn => Some(Null)
       case ResultEvidenceColumn => IfGiven(evidence)
       case FailureEvidenceColumn => Some(Null)
       case _ => None)
    case StageSettlementPending(error, evidence) =>
      (match c
       case ErrorColumn => Some(Text(error))
       case FailureEvidenceColumn => Some(Text(evidence))
       case ResultColumn => Some(Null)
       case ResultHashColumn => Some(Null)
       case ReceiptColumn => Some(Null)
       case ReceiptHashColumn => Some(Null)
       case ResultEvidenceColumn => Some(Null)
       case _ => None)
  }

  /** A recovery failure replaces every outcome column; it keeps the result only when asked. */
  function RecoveryCell(f: Failure, preserve: bool, c: Column): Option<Cell> {
    match c
    case ErrorColumn => Some(Text(f.error))
    case ReceiptColumn => Some(Text(f.receipt))
    case ReceiptHashColumn => Some(OptionalText(f.receiptHash))
    case FailureEvidenceColumn => Some(OptionalText(f.failureEvidence))
    case ResultColumn => if preserve then None else Some(Null)
    case ResultHashColumn => if preserve then None else Some(Null)
    case ResultEvidenceColumn => if preserve then None else Some(Null)
    case _ => None
  }

  function PaymentCell(token: string, amount: nat, c: Column): Option<Cell> {
    match c
    case PaymentTokenColumn => Some(Text(token))
    case PaymentAmountColumn => Some(Number(amount))
    case _ => None
  }

  /** What an update that takes effect assigns to a column, from its arguments alone; `None`
      when the column is not in its assignments. */
  function Assigned(hash: string -> string, m: Mutation, now: int, c: Column): Option<Cell> {
    if c == UpdatedAtColumn then Some(Number(now))
    else if c == StatusColumn then (if StatusAfter(m).Some? then Some(State(StatusAfter(m).value)) else None)
    else
      match m
      case MaterializePayment(token, amount, _) => PaymentCell(token, amount, c)
      case CompleteSuccess(s) => SuccessCell(hash, s, c)
      case CompleteSuccessIf(_, s) => SuccessCell(hash, s, c)
      case StageResult(_, _, _) => StageCell(hash, m, c)
      case StageSettlementPending(_, _) => StageCell(hash, m, c)
      case RecoveryFailure(_, f, preserve) => RecoveryCell(f, preserve, c)
      case RejectIf(_, f) => FailureCell(f, true, c)
      case CompleteFailure(f) => FailureCell(f, true, c)
      case CompleteFailureIf(_, f) => FailureCell(f, false, c)
      case CancelUnadmitted(error, evidence) =>
        if c == ErrorColumn then Some(Text(error))
        else if c == FailureEvidenceColumn then Some(Text(evidence))
        else None
      case HoldRunning(message) => if c == ErrorColumn then Some(Text(message)) else None
      case _ => None
  }

  /** The cell after an update whose assignments are `a`. */
  function After(a: Option<Cell>, before: Cell): Cell {
    if a.Some? then a.value else before
  }

  lemma SuccessAssigns(hash: string -> string, m: Mutation, d: Deal, now: int, c: Column)
    requires m.CompleteSuccess? || m.CompleteSuccessIf?
    ensures CellOf(Write(hash, m, d, now), c) == After(Assigned(hash, m, now, c), CellOf(d, c))
  {
  }

  lemma StageAssigns(hash: string -> string, m: Mutation, d: Deal, now: int, c: Column)
    requires m.StageResult? || m.StageSettlementPending?
    ensures CellOf(Write(hash, m, d, now), c) == After(Assigned(hash, m, now, c), CellOf(d, c))
  {
  }

  lemma RecoveryAssigns(hash: string -> string, m: Mutation, d: Deal, now: int, c: Column)
    requires m.RecoveryFailure?
    ensures CellOf(Write(hash, m, d, now), c) == After(Assigned(hash, m, now, c), CellOf(d, c))
  {
  }

  lemma FailureAssigns(hash: string -> string, m: Mutation, d: Deal, now: int, c: Column)
    requires m.RejectIf? || m.CompleteFailure? || m.CompleteFailureIf?
    ensures CellOf(Write(hash, m, d, now), c) == After(Assigned(hash, m, now, c), CellOf(d, c))
  {
  }

  lemma OtherAssigns(hash: string -> string, m: Mutation, d: Deal, now: int, c: Column)
    requires m.MarkRunning? || m.ResetRunning? || m.AcceptFromPending? || m.MaterializePayment? ||
      m.CancelUnadmitted? || m.HoldRunning?
    ensures CellOf(Write(hash, m, d, now), c) == After(Assigned(hash, m, now, c), CellOf(d, c))
  {
  }

  lemma WriteAssigns(hash: string -> string, m: Mutation, d: Deal, now: int, c: Column)
    ensures CellOf(Write(hash, m, d, now), c) == After(Assigned(hash, m, now, c), CellOf(d, c))
  {
    if m.CompleteSuccess? || m.CompleteSuccessIf? {
      SuccessAssigns(hash, m, d, now, c);
    } else if m.StageResult? || m.StageSettlementPending? {
      StageAssigns(hash, m, d, now, c);
    } else if m.RecoveryFailure? {
      RecoveryAssigns(hash, m, d, now, c);
    } else if m.RejectIf? || m.CompleteFailure? || m.CompleteFailureIf? {
      FailureAssigns(hash, m, d, now, c);
    } else {
      OtherAssigns(hash, m, d, now, c);
    }
  }

  /** A restart fails the deals it finds accepted or running. */
  function RestartCell(message: string, now: int, c: Column): Option<Cell> {
    match c
    case StatusColumn => Some(State(Failed))
    case ErrorColumn => Some(Text(message))
    case UpdatedAtColumn => Some(Number(now))
    case _ => None
  }

  /** The reply says that the update took effect; the unguarded completions say nothing, but
      take effect on every deal there is. */
  ghost predicate TookEffect(t: Tables, reply: Result<Reply, Error>, id: string) {
    id in t.deals && (reply == Ok(Changed(true)) || reply == Ok(Done))
  }

  ghost predicate Interrupted(t: Tables, id: string) {
    id in t.deals && (t.deals[id].status == Accepted || t.deals[id].status == Running)
  }

  /** What one step writes to a column of a deal: a created admission the caller's value, an
      update its assignment. The inner `None` would be a deal that is not there. */
  ghost function ColumnWrite(
    hash: string -> string, t: Tables, step: Step, reply: Result<Reply, Error>, id: string, c: Column)
    : Option<Option<Cell>>
  {
    match step
    case Admit(n) =>
      if n.id == id && Created(reply) then Some(Some(CellOf(NewRow(n), c))) else None
    case Mutate(d, m, now) =>
      if d == id && TookEffect(t, reply, id) && Assigned(hash, m, now, c).Some?
      then Some(Assigned(hash, m, now, c))
      else None
    case FailIncomplete(message, now) =>
      if Interrupted(t, id) && RestartCell(message, now, c).Some? then Some(RestartCell(message, now, c)) else None
    case _ => None
  }

  ghost function ColumnIn(deals: map<string, Deal>, id: string, c: Column): Option<Cell> {
    if id in deals then Some(CellOf(deals[id], c)) else None
  }

  ghost function ColumnOf(t: Tables, id: string, c: Column): Option<Cell> {
    ColumnIn(t.deals, id, c)
  }

  lemma MutatedEither(hash: string -> string, t: Tables, d: string, m: Mutation, now: int)
    ensures var o := Mutated(hash, t, d, m, now);
      if TookEffect(t, o.reply, d) then o.tables.deals == t.deals[d := Write(hash, m, t.deals[d], now)]
      else o.tables == t
  {
  }

  /** A row rewritten as assigned, seen through one column of any deal. */
  lemma RewrittenColumn(deals: map<string, Deal>, d: string, row: Deal, id: string, c: Column, a: Option<Cell>)
    requires d in deals && CellOf(row, c) == After(a, CellOf(deals[d], c))
    ensures ColumnIn(deals[d := row], id, c) == if d == id && a.Some? then a else ColumnIn(deals, id, c)
  {
  }

  lemma MutationMovesColumn(hash: string -> string, t: Tables, d: string, m: Mutation, now: int, id: string, c: Column)
    ensures var o := Mutated(hash, t, d, m, now);
      var a := Assigned(hash, m, now, c);
      ColumnOf(o.tables, id, c) == if d == id && TookEffect(t, o.reply, id) && a.Some? then a else ColumnOf(t, id, c)
  {
    MutatedEither(hash, t, d, m, now);
    if TookEffect(t, Mutated(hash, t, d, m, now).reply, d) {
      var row := Write(hash, m, t.deals[d], now);
      WriteAssigns(hash, m, t.deals[d], now, c);
      RewrittenColumn(t.deals, d, row, id, c, Assigned(hash, m, now, c));
    }
  }

  lemma AdmissionMovesColumn(t: Tables, n: NewDeal, id: string, c: Column)
    requires Inv(t) && WellFormed(Admit(n))
    ensures var o := Admitted(t, n);
      ColumnOf(o.tables, id, c) ==
        if n.id == id && Created(o.reply) then Some(CellOf(NewRow(n), c)) else ColumnOf(t, id, c)
  {
    AdmittedEither(t, n);
  }

  lemma RestartMovesColumn(hash: string -> string, t: Tables, message: string, now: int, id: string, c: Column)
    ensures var o := IncompleteFailed(t, message, now);
      var w := ColumnWrite(hash, t, FailIncomplete(message, now), o.reply, id, c);
      ColumnOf(o.tables, id, c) == if w.Some? then w.value else ColumnOf(t, id, c)
  {
  }

  lemma StepMovesColumn(hash: string -> string, t: Tables, step: Step, id: string, c: Column)
    requires Inv(t) && WellFormed(step)
    ensures var o := Next(hash, t, step);
      var w := ColumnWrite(hash, t, step, o.reply, id, c);
      ColumnOf(o.tables, id, c) == if w.Some? then w.value else ColumnOf(t, id, c)
  {
    match step
    case Admit(n) => AdmissionMovesColumn(t, n, id, c);
    case Mutate(d, m, now) => MutationMovesColumn(hash, t, d, m, now, id, c);
    case FailIncomplete(message, now) => RestartMovesColumn(hash, t, message, now, id, c);
    case _ =>
  }

  ghost function ColumnWrites(hash: string -> string, run: Run, id: string, c: Column): seq<Option<Option<Cell>>>
    requires IsRun(hash, run)
  {
    seq(|run.steps|, k requires 0 <= k < |run.steps| =>
      ColumnWrite(hash, run.tables[k], run.steps[k], run.replies[k], id, c))
  }

  ghost function ColumnValues(run: Run, id: string, c: Column): seq<Option<Cell>> {
    seq(|run.tables|, k requires 0 <= k < |run.tables| => ColumnOf(run.tables[k], id, c))
  }

  lemma ColumnIsTracked(hash: string -> string, run: Run, id: string, c: Column)
    requires IsRun(hash, run)
    ensures Tracks(ColumnWrites(hash, run, id, c), ColumnValues(run, id, c))
    ensures ColumnValues(run, id, c)[0] == None
  {
    var writes, values := ColumnWrites(hash, run, id, c), ColumnValues(run, id, c);
    forall k | 0 <= k < |writes| ensures values[k + 1] == if writes[k].Some? then writes[k].value else values[k] {
      RunMovesColumn(hash, run, k, id, c);
    }
  }

  lemma RunMovesColumn(hash: string -> string, run: Run, k: nat, id: string, c: Column)
    requires IsRun(hash, run) && k < |run.steps|
    ensures var w := ColumnWrite(hash, run.tables[k], run.steps[k], run.replies[k], id, c);
      ColumnOf(run.tables[k + 1], id, c) == if w.Some? then w.value else ColumnOf(run.tables[k], id, c)
  {
    RunKeepsInv(hash, run, k);
    assert Follows(hash, run, k) && WellFormed(run.steps[k]);
    StepMovesColumn(hash, run.tables[k], run.steps[k], id, c);
  }

  /** Every column of every deal, in every reachable state, holds what the last step that wrote
      it wrote: the admission its caller's value, an update its argument. In particular the
      payment is that of the last materialization, else of the admission. */
  lemma ColumnIsLastWritten(hash: string -> string, run: Run, k: nat, id: string, c: Column, x: Option<Cell>)
    requires IsRun(hash, run) && k < |run.tables|
    ensures ColumnOf(run.tables[k], id, c) == x <==> LastHolds(ColumnWrites(hash, run, id, c), None, k, x)
  {
    ColumnIsTracked(hash, run, id, c);
    ValueIsLastWrite(ColumnWrites(hash, run, id, c), ColumnValues(run, id, c), k, x);
  }

  ghost predicate MaterializesAt(hash: string -> string, run: Run, k: nat, id: string)
    requires IsRun(hash, run) && k < |run.steps|
  {
    Materializes(run.steps[k], run.replies[k], id)
  }

  lemma WritePays(hash: string -> string, m: Mutation, d: Deal, now: int)
    ensures var d' := Write(hash, m, d, now);
      if m.MaterializePayment? then d'.paymentToken == Some(m.token) && d'.paymentAmount == Some(m.amount)
      else d'.paymentToken == d.paymentToken && d'.paymentAmount == d.paymentAmount
  {
  }

  ghost predicate Materializes(step: Step, reply: Result<Reply, Error>, id: string) {
    step.Mutate? && step.dealId == id && step.mutation.MaterializePayment? && reply == Ok(Changed(true))
  }

  lemma MutationPays(hash: string -> string, t: Tables, d: string, m: Mutation, now: int, id: string)
    requires id in t.deals
    ensures var o := Mutated(hash, t, d, m, now);
      && id in o.tables.deals
      && var row := o.tables.deals[id];
         if Materializes(Mutate(d, m, now), o.reply, id)
         then row.paymentToken == Some(m.token) && row.paymentAmount == Some(m.amount)
         else row.paymentToken == t.deals[id].paymentToken && row.paymentAmount == t.deals[id].paymentAmount
  {
    MutatedEither(hash, t, d, m, now);
    WritePays(hash, m, t.deals[id], now);
  }

  lemma AdmissionPays(t: Tables, n: NewDeal, id: string)
    requires Inv(t) && WellFormed(Admit(n)) && id in t.deals
    ensures id in Admitted(t, n).tables.deals && Admitted(t, n).tables.deals[id] == t.deals[id]
  {
    AdmittedEither(t, n);
  }

  ghost predicate Paid(deals: map<string, Deal>, id: string, token: Option<string>, amount: Option<nat>) {
    id in deals && deals[id].paymentToken == token && deals[id].paymentAmount == amount
  }

  /** Only a materialization moves the payment of a stored deal. */
  lemma StepPays(hash: string -> string, run: Run, p: nat, id: string)
    requires IsRun(hash, run) && p < |run.steps| && id in run.tables[p].deals
    ensures
      if MaterializesAt(hash, run, p, id)
      then Paid(run.tables[p + 1].deals, id, Some(run.steps[p].mutation.token), Some(run.steps[p].mutation.amount))
      else
        var d := run.tables[p].deals[id];
        Paid(run.tables[p + 1].deals, id, d.paymentToken, d.paymentAmount)
  {
    RunKeepsInv(hash, run, p);
    assert Follows(hash, run, p) && WellFormed(run.steps[p]);
    match run.steps[p]
    case Admit(n) => AdmissionPays(run.tables[p], n, id);
    case Mutate(d, m, now) => MutationPays(hash, run.tables[p], d, m, now, id);
    case _ =>
  }

  lemma MaterializedIsStored(hash: string -> string, run: Run, p: nat, id: string)
    requires IsRun(hash, run) && p < |run.steps| && MaterializesAt(hash, run, p, id)
    ensures id in run.tables[p].deals
  {
    assert Follows(hash, run, p);
  }

  /** A deal carries the token and the amount of its last materialized payment. */
  lemma {:induction false} PaymentIsRecorded(hash: string -> string, run: Run, j: nat, k: nat, id: string)
    requires IsRun(hash, run) && j < k < |run.tables| && MaterializesAt(hash, run, j, id)
    requires forall m | j < m < k :: !MaterializesAt(hash, run, m, id)
    ensures Paid(run.tables[k].deals, id, Some(run.steps[j].mutation.token), Some(run.steps[j].mutation.amount))
    decreases k
  {
    var p := k - 1;
    if j < p {
      PaymentIsRecorded(hash, run, j, p, id);
      assert !MaterializesAt(hash, run, p, id);
    } else {
      MaterializedIsStored(hash, run, p, id);
    }
    StepPays(hash, run, p, id);
  }

  // ---------------------------------------------------------------- when updates take effect

  /** The status an update starts from; the unguarded completions start from any. */
  function StatusBefore(m: Mutation): Option<Status> {
    match m
    case MarkRunning => Some(Accepted)
    case ResetRunning => Some(Running)
    case AcceptFromPending => Some(PaymentPending)
    case MaterializePayment(_, _, _) => Some(PaymentPending)
    case CompleteSuccess(_) => None
    case CompleteSuccessIf(expected, _) => Some(expected)
    case StageResult(_, _, _) => Some(Running)
    case StageSettlementPending(_, _) => Some(Running)
    case RecoveryFailure(expected, _, _) => Some(expected)
    case RejectIf(expected, _) => Some(expected)
    case CompleteFailure(_) => None
    case CompleteFailureIf(expected, _) => Some(expected)
    case CancelUnadmitted(_, _) => Some(PaymentPending)
    case HoldRunning(_) => Some(Running)
  }

  /** In a reachable state an update is answered as its arguments and the stored status say:
      a payment with an unsupported status or too large an amount is refused, a guarded update
      reports whether the deal is in the status it starts from, and the receipt test of a
      cancellation is never what stops it. */
  lemma UpdateIsAnsweredExactly(hash: string -> string, run: Run, k: nat, id: string, m: Mutation, now: int)
    requires IsRun(hash, run) && k < |run.tables|
    ensures var t := run.tables[k];
      Next(hash, t, Mutate(id, m, now)).reply ==
        if m.MaterializePayment? && m.next != Accepted && m.next != PaymentPending then Err(UnsupportedStatus)
        else if m.MaterializePayment? && m.amount > I64_MAX then Err(AmountTooLarge)
        else if StatusBefore(m).None? then Ok(Done)
        else Ok(Changed(id in t.deals && t.deals[id].status == StatusBefore(m).value))
  {
    StatusDeterminesShape(hash, run, k);
    UpdateAnswered(hash, run.tables[k], id, m, now);
  }

  lemma UpdateAnswered(hash: string -> string, t: Tables, id: string, m: Mutation, now: int)
    requires id in t.deals ==> Shaped(t.deals[id])
    ensures Mutated(hash, t, id, m, now).reply ==
      if m.MaterializePayment? && m.next != Accepted && m.next != PaymentPending then Err(UnsupportedStatus)
      else if m.MaterializePayment? && m.amount > I64_MAX then Err(AmountTooLarge)
      else if StatusBefore(m).None? then Ok(Done)
      else Ok(Changed(id in t.deals && t.deals[id].status == StatusBefore(m).value))
  {
    if id in t.deals {
      GuardIsStatus(m, t.deals[id]);
    }
  }

  lemma GuardIsStatus(m: Mutation, d: Deal)
    requires Shaped(d)
    ensures Guard(m, d) <==> StatusBefore(m).None? || d.status == StatusBefore(m).value
  {
  }

  // ---------------------------------------------------------------- no unpaid deal runs

  /** The step made the deal accepted work: admitted as accepted, accepted from
      payment_pending, or materialized as accepted. */
  ghost predicate Accepts(step: Step, reply: Result<Reply, Error>, id: string) {
    match step
    case Admit(n) => n.id == id && n.status == Accepted && Created(reply)
    case Mutate(d, m, _) =>
      d == id && reply == Ok(Changed(true)) &&
      (m.AcceptFromPending? || (m.MaterializePayment? && m.next == Accepted))
    case _ => false
  }

  ghost predicate AcceptsAt(hash: string -> string, run: Run, k: nat, id: string)
    requires IsRun(hash, run) && k < |run.steps|
  {
    Accepts(run.steps[k], run.replies[k], id)
  }

  ghost predicate IsUnderWay(deals: map<string, Deal>, id: string) {
    id in deals && UnderWay(deals[id].status)
  }

  predicate UnderWay(s: Status) {
    s == Accepted || s == Running || s == ResultReady || s == SettlementPending
  }

  lemma WriteGetsUnderWay(hash: string -> string, m: Mutation, d: Deal, now: int)
    requires Guard(m, d) && MutationError(m).None? && UnderWay(Write(hash, m, d, now).status)
    ensures UnderWay(d.status) || m.AcceptFromPending? || (m.MaterializePayment? && m.next == Accepted)
  {
  }

  lemma MutationGetsUnderWay(hash: string -> string, t: Tables, d: string, m: Mutation, now: int, id: string)
    requires IsUnderWay(Mutated(hash, t, d, m, now).tables.deals, id)
    ensures IsUnderWay(t.deals, id) || Accepts(Mutate(d, m, now), Mutated(hash, t, d, m, now).reply, id)
  {
    if d == id && id in t.deals && Guard(m, t.deals[id]) && MutationError(m).None? {
      WriteGetsUnderWay(hash, m, t.deals[id], now);
    }
  }

  /** A deal gets under way only from another status under way or by being accepted. */
  lemma StepGetsUnderWay(hash: string -> string, t: Tables, step: Step, id: string)
    requires Inv(t) && WellFormed(step) && IsUnderWay(Next(hash, t, step).tables.deals, id)
    ensures IsUnderWay(t.deals, id) || Accepts(step, Next(hash, t, step).reply, id)
  {
    match step
    case Admit(n) => AdmittedEither(t, n);
    case Mutate(d, m, now) => MutationGetsUnderWay(hash, t, d, m, now, id);
    case _ =>
  }

  /** No deal is accepted, run or staged unless it was admitted as accepted or its payment was
      accepted before. */
  lemma {:induction false} NoUnpaidDealRuns(hash: string -> string, run: Run, k: nat, id: string)
    requires IsRun(hash, run) && k < |run.tables|
    requires id in run.tables[k].deals && UnderWay(run.tables[k].deals[id].status)
    ensures exists m | 0 <= m < k :: AcceptsAt(hash, run, m, id)
  {
    var p := k - 1;
    RunKeepsInv(hash, run, p);
    assert Follows(hash, run, p) && WellFormed(run.steps[p]);
    StepGetsUnderWay(hash, run.tables[p], run.steps[p], id);
    if !AcceptsAt(hash, run, p, id) {
      NoUnpaidDealRuns(hash, run, p, id);
    }
  }

  // ---------------------------------------------------------------- reservations

  /** What one step does to the reservation of a quote: a permission makes one, a created
      admission makes one unless the quote has it already, a release drops it. */
  ghost function UsageWrite(t: Tables, step: Step, reply: Result<Reply, Error>, quote: string): Option<Option<Usage>> {
    match step
    case Admit(n) =>
      if n.quote == quote && quote !in t.usages && Created(reply)
      then Some(Some(Usage(n.id, n.artifactHash, n.createdAt)))
      else None
    case ReserveQuote(q, d, h, now) =>
      if q == quote && reply == Ok(Changed(true)) then Some(Some(Usage(d, h, now))) else None
    case ReleaseQuote(q, _) => if q == quote && reply == Ok(Changed(true)) then Some(None) else None
    case _ => None
  }

  ghost function UsageOf(t: Tables, quote: string): Option<Usage> {
    if quote in t.usages then Some(t.usages[quote]) else None
  }

  lemma StepMovesUsage(hash: string -> string, t: Tables, step: Step, quote: string)
    requires Inv(t) && WellFormed(step)
    ensures var o := Next(hash, t, step);
      var w := UsageWrite(t, step, o.reply, quote);
      UsageOf(o.tables, quote) == if w.Some? then w.value else UsageOf(t, quote)
  {
    if step.Admit? {
      AdmittedEither(t, step.deal);
    }
  }

  ghost function UsageWrites(hash: string -> string, run: Run, quote: string): seq<Option<Option<Usage>>>
    requires IsRun(hash, run)
  {
    seq(|run.steps|, k requires 0 <= k < |run.steps| =>
      UsageWrite(run.tables[k], run.steps[k], run.replies[k], quote))
  }

  ghost function UsageValues(run: Run, quote: string): seq<Option<Usage>> {
    seq(|run.tables|, k requires 0 <= k < |run.tables| => UsageOf(run.tables[k], quote))
  }

  /** A quote is reserved as the last permission or created admission reserved it, and free if
      there was none or it was released since. */
  lemma ReservationIsLastMade(hash: string -> string, run: Run, k: nat, quote: string, u: Option<Usage>)
    requires IsRun(hash, run) && k < |run.tables|
    ensures UsageOf(run.tables[k], quote) == u <==> LastHolds(UsageWrites(hash, run, quote), None, k, u)
  {
    var writes, values := UsageWrites(hash, run, quote), UsageValues(run, quote);
    forall m | 0 <= m < |writes| ensures values[m + 1] == if writes[m].Some? then writes[m].value else values[m] {
      RunKeepsInv(hash, run, m);
      assert Follows(hash, run, m) && WellFormed(run.steps[m]);
      StepMovesUsage(hash, run.tables[m], run.steps[m], quote);
    }
    ValueIsLastWrite(writes, values, k, u);
  }

  /** The quote is reserved to the artifact, as the steps before `k` tell. */
  ghost predicate ReservedBefore(hash: string -> string, run: Run, k: nat, quote: string, artifactHash: string)
    requires IsRun(hash, run) && k < |run.tables|
  {
    exists u: Usage :: u.artifactHash == artifactHash && LastHolds(UsageWrites(hash, run, quote), None, k, Some(u))
  }

  lemma ReservedIsStored(hash: string -> string, run: Run, k: nat, quote: string, artifactHash: string)
    requires IsRun(hash, run) && k < |run.tables|
    ensures ReservedBefore(hash, run, k, quote, artifactHash) <==> ReservedTo(run.tables[k], quote, artifactHash)
  {
    forall u: Usage
      ensures UsageOf(run.tables[k], quote) == Some(u) <==> LastHolds(UsageWrites(hash, run, quote), None, k, Some(u))
    {
      ReservationIsLastMade(hash, run, k, quote, Some(u));
    }
    if ReservedTo(run.tables[k], quote, artifactHash) {
      assert LastHolds(UsageWrites(hash, run, quote), None, k, Some(run.tables[k].usages[quote]));
    }
  }

  /** A deal with this artifact was created before `k`. */
  ghost predicate CreatedBefore(hash: string -> string, run: Run, k: nat, artifactHash: string)
    requires IsRun(hash, run) && k < |run.tables|
  {
    exists m | 0 <= m < k :: CreatesAt(hash, run, m, artifactHash)
  }

  ghost predicate CreatesAt(hash: string -> string, run: Run, m: nat, artifactHash: string)
    requires IsRun(hash, run) && m < |run.steps|
  {
    run.steps[m].Admit? && run.steps[m].deal.artifactHash == artifactHash && Created(run.replies[m])
  }

  ghost predicate ArtifactStored(deals: map<string, Deal>, artifactHash: string) {
    exists d :: d in deals && deals[d].artifactHash == artifactHash
  }

  lemma {:induction false} StoredIsCreated(hash: string -> string, run: Run, k: nat, artifactHash: string)
    requires IsRun(hash, run) && k < |run.tables|
    ensures ArtifactStored(run.tables[k].deals, artifactHash) <==> CreatedBefore(hash, run, k, artifactHash)
  {
    if k > 0 {
      var p := k - 1;
      StoredIsCreated(hash, run, p, artifactHash);
      RunKeepsInv(hash, run, p);
      assert Follows(hash, run, p) && WellFormed(run.steps[p]);
      StepStoresArtifact(hash, run.tables[p], run.steps[p], artifactHash);
      assert CreatesAt(hash, run, p, artifactHash) ==> CreatedBefore(hash, run, k, artifactHash);
    }
  }

  lemma NoNewDeals(hash: string -> string, t: Tables, step: Step)
    requires !step.Admit?
    ensures Next(hash, t, step).tables.deals.Keys == t.deals.Keys
  {
  }

  lemma SameArtifacts(a: map<string, Deal>, b: map<string, Deal>, artifactHash: string)
    requires AllEvolve(a, b) && b.Keys == a.Keys
    ensures ArtifactStored(b, artifactHash) <==> ArtifactStored(a, artifactHash)
  {
    if d :| d in b && b[d].artifactHash == artifactHash {
      assert Evolves(a[d], b[d]);
    }
  }

  lemma StepStoresArtifact(hash: string -> string, t: Tables, step: Step, artifactHash: string)
    requires Inv(t) && WellFormed(step)
    ensures var o := Next(hash, t, step);
      ArtifactStored(o.tables.deals, artifactHash) <==>
        || ArtifactStored(t.deals, artifactHash)
        || (step.Admit? && step.deal.artifactHash == artifactHash && Created(o.reply))
  {
    if step.Admit? {
      AdmissionStoresArtifact(t, step.deal, artifactHash);
    } else {
      NextEvolves(hash, t, step);
      NoNewDeals(hash, t, step);
      SameArtifacts(t.deals, Next(hash, t, step).tables.deals, artifactHash);
    }
  }

  lemma AdmissionStoresArtifact(t: Tables, n: NewDeal, artifactHash: string)
    requires Inv(t) && WellFormed(Admit(n))
    ensures var o := Admitted(t, n);
      ArtifactStored(o.tables.deals, artifactHash) <==>
        ArtifactStored(t.deals, artifactHash) || (n.artifactHash == artifactHash && Created(o.reply))
  {
    AdmittedEither(t, n);
    if Created(Admitted(t, n).reply) {
      AddedArtifact(t.deals, n.id, NewRow(n), artifactHash);
    }
  }

  lemma AddedArtifact(deals: map<string, Deal>, id: string, row: Deal, artifactHash: string)
    requires id !in deals
    ensures ArtifactStored(deals[id := row], artifactHash) <==>
      ArtifactStored(deals, artifactHash) || row.artifactHash == artifactHash
  {
    if d :| d in deals && deals[d].artifactHash == artifactHash {
      assert deals[id := row][d].artifactHash == artifactHash;
    }
    if row.artifactHash == artifactHash {
      assert deals[id := row][id].artifactHash == artifactHash;
    }
  }

  lemma FoundIsStored(t: Tables, artifactHash: string)
    requires Inv(t)
    ensures FindByHash(t, artifactHash).Some? <==> ArtifactStored(t.deals, artifactHash)
  {
    if FindByHash(t, artifactHash).Some? {
      assert t.deals[FindByHash(t, artifactHash).value].artifactHash == artifactHash;
    }
  }

  /** Nothing is reserved under the quote, nor to the artifact, by the steps before. */
  ghost predicate Unreserved(hash: string -> string, run: Run, k: nat, quote: string, artifactHash: string)
    requires IsRun(hash, run) && k < |run.tables|
  {
    && (forall h :: !ReservedBefore(hash, run, k, quote, h))
    && (forall q :: !ReservedBefore(hash, run, k, q, artifactHash))
  }

  lemma UnreservedIsFree(hash: string -> string, run: Run, k: nat, quote: string, artifactHash: string)
    requires IsRun(hash, run) && k < |run.tables|
    ensures Unreserved(hash, run, k, quote, artifactHash) <==> QuoteFree(run.tables[k], quote, artifactHash)
  {
    var t := run.tables[k];
    RunKeepsInv(hash, run, k);
    forall q, h ensures ReservedBefore(hash, run, k, q, h) <==> ReservedTo(t, q, h) {
      ReservedIsStored(hash, run, k, q, h);
    }
    if quote in t.usages {
      assert ReservedTo(t, quote, t.usages[quote].artifactHash);
    }
    if artifactHash in t.usageOf {
      assert ReservedTo(t, t.usageOf[artifactHash], artifactHash);
    }
  }

  /** The caller is told to go ahead with external side effects if and only if, by the steps
      before, nothing is reserved under the quote or to the artifact. A repeated call for the
      same artifact is told that its deal exists or that its admission is under way; any
      other is refused. */
  lemma PermissionIsExact(hash: string -> string, run: Run, k: nat)
    requires IsRun(hash, run) && k < |run.steps| && run.steps[k].ReserveQuote?
    ensures var quote, artifact := run.steps[k].quote, run.steps[k].artifactHash;
      run.replies[k] ==
        if Unreserved(hash, run, k, quote, artifact) then Ok(Changed(true))
        else if !ReservedBefore(hash, run, k, quote, artifact) then Err(QuoteAlreadyUsed)
        else if CreatedBefore(hash, run, k, artifact) then Ok(Changed(false))
        else Err(AdmissionInProgress)
  {
    var quote, artifact := run.steps[k].quote, run.steps[k].artifactHash;
    assert Follows(hash, run, k);
    UnreservedIsFree(hash, run, k, quote, artifact);
    ReservedIsStored(hash, run, k, quote, artifact);
    StoredIsCreated(hash, run, k, artifact);
    RunKeepsInv(hash, run, k);
    FoundIsStored(run.tables[k], artifact);
  }

  /** A release succeeds if and only if, by the steps before, the quote is reserved to the
      artifact and no deal was created for it. */
  lemma ReleaseIsExact(hash: string -> string, run: Run, k: nat)
    requires IsRun(hash, run) && k < |run.steps| && run.steps[k].ReleaseQuote?
    ensures var step := run.steps[k];
      run.replies[k] == Ok(Changed(
        ReservedBefore(hash, run, k, step.quote, step.artifactHash) && !CreatedBefore(hash, run, k, step.artifactHash)))
  {
    assert Follows(hash, run, k);
    ReservedIsStored(hash, run, k, run.steps[k].quote, run.steps[k].artifactHash);
    StoredIsCreated(hash, run, k, run.steps[k].artifactHash);
    RunKeepsInv(hash, run, k);
    FoundIsStored(run.tables[k], run.steps[k].artifactHash);
  }
}
