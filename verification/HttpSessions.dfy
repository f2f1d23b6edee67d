/** Whole sessions of the generated module: any sequence of `alloc` calls, host writes and
    `run` calls, until one of them traps. */
module HttpSessions {
  import opened Common
  import opened HttpModule

  /** A range the allocator returned; `host` when the host asked for it. */
  datatype Region = Region(start: nat, length: nat, host: bool)

  datatype Call =
    | AllocCall(n: Word, growthAllowed: bool)
    | WriteCall(at: nat, bytes: seq<Byte>)
    | RunCall(p: Word, n: Word, growthAllowed: bool)

  datatype Session = Session(machine: Machine, regions: seq<Region>, passed: seq<seq<Byte>>)

  ghost predicate Within(at: nat, n: nat, r: Region) {
    r.start <= at && at + n <= r.start + r.length
  }

  ghost predicate InHostRegion(s: Session, at: nat, n: nat) {
    exists i | 0 <= i < |s.regions| :: s.regions[i].host && Within(at, n, s.regions[i])
  }

  /** The host writes and names inputs only inside ranges that `alloc` returned to it. */
  ghost predicate Permitted(s: Session, call: Call) {
    match call
    case AllocCall(_, _) => true
    case WriteCall(at, bytes) => InHostRegion(s, at, |bytes|)
    case RunCall(p, n, _) => InHostRegion(s, p, n)
  }

  ghost function RunResult(prefix: seq<Byte>, s: Session, p: nat, n: nat, growthAllowed: bool): Session
    requires s.machine.heap <= |s.machine.memory| && Splices(s.machine, prefix, p, n, growthAllowed)
  {
    Session(
      Spliced(s.machine, prefix, p, n, growthAllowed),
      s.regions + [Region(s.machine.heap, |prefix| + n + 1, false)],
      s.passed + [Handed(s.machine, prefix, p, n, growthAllowed)])
  }

  /** One call; `None` when it traps. */
  ghost function Do(prefix: seq<Byte>, s: Session, call: Call): Option<Session>
    requires s.machine.heap <= |s.machine.memory|
  {
    var m := s.machine;
    match call
    case AllocCall(n, growthAllowed) =>
      var after := Allocated(m, n, growthAllowed);
      if after.None? then None
      else Some(Session(after.value, s.regions + [Region(m.heap, n, true)], s.passed))
    case WriteCall(at, bytes) =>
      if at + |bytes| > |m.memory| then None
      else Some(s.(machine := m.(memory := Written(m.memory, at, bytes))))
    case RunCall(p, n, growthAllowed) =>
      if Splices(m, prefix, p, n, growthAllowed)
      then Some(RunResult(prefix, s, p, n, growthAllowed))
      else None
  }

  /** The calls that did not trap, and the session before and after each. */
  datatype Trace = Trace(calls: seq<Call>, states: seq<Session>)

  ghost predicate Follows(prefix: seq<Byte>, t: Trace, k: nat)
    requires k < |t.calls| && k + 1 < |t.states|
  {
    && t.states[k].machine.heap <= |t.states[k].machine.memory|
    && Permitted(t.states[k], t.calls[k])
    && Do(prefix, t.states[k], t.calls[k]) == Some(t.states[k + 1])
  }

  ghost predicate IsTrace(prefix: seq<Byte>, t: Trace) {
    && InitialPages(|prefix|) <= MAX_PAGES
    && |t.states| == |t.calls| + 1
    && t.states[0] == Session(Start(prefix), [], [])
    && (forall k | 0 <= k < |t.calls| :: Follows(prefix, t, k))
  }

  // ---------------------------------------------------------------- invariant

  /** Regions lie between the heap base and the heap pointer, one after the other. */
  ghost predicate RegionsApart(prefix: seq<Byte>, s: Session) {
    && (forall i | 0 <= i < |s.regions| ::
          HeapBase(|prefix|) <= s.regions[i].start && s.regions[i].start + s.regions[i].length <= s.machine.heap)
    && (forall i, j | 0 <= i < j < |s.regions| :: s.regions[i].start + s.regions[i].length <= s.regions[j].start)
  }

  ghost predicate Inv(prefix: seq<Byte>, s: Session) {
    && WellFormed(s.machine)
    && HeapBase(|prefix|) <= s.machine.heap
    && s.machine.memory[..|prefix|] == prefix
    && RegionsApart(prefix, s)
  }

  /** Bytes below `heap` that a call leaves alone. */
  ghost predicate Untouched(call: Call, lo: nat, hi: nat) {
    call.WriteCall? ==> call.at + |call.bytes| <= lo || hi <= call.at
  }

  /** The bytes of a range below the heap pointer are the same in `s'` as in `s`. */
  ghost predicate SameBytes(s: Session, s': Session, lo: nat, hi: nat) {
    && lo <= hi <= s.machine.heap <= |s.machine.memory|
    && hi <= s'.machine.heap <= |s'.machine.memory|
    && s'.machine.memory[lo..hi] == s.machine.memory[lo..hi]
  }

  /** Writing a block above or below a range leaves the range alone. */
  lemma WrittenElsewhere(memory: seq<Byte>, at: nat, bytes: seq<Byte>, lo: nat, hi: nat)
    requires lo <= hi <= |memory| && at + |bytes| <= |memory|
    requires at + |bytes| <= lo || hi <= at
    ensures Written(memory, at, bytes)[lo..hi] == memory[lo..hi]
  {
  }

  lemma RunKeepsBytes(prefix: seq<Byte>, s: Session, p: nat, n: nat, growthAllowed: bool, lo: nat, hi: nat)
    requires s.machine.heap <= |s.machine.memory| && Splices(s.machine, prefix, p, n, growthAllowed)
    requires lo <= hi <= s.machine.heap
    ensures SameBytes(s, RunResult(prefix, s, p, n, growthAllowed), lo, hi)
  {
    var m := s.machine;
    var grown := Allocated(m, |prefix| + n + 1, growthAllowed).value;
    WrittenElsewhere(grown.memory, m.heap, Handed(m, prefix, p, n, growthAllowed), lo, hi);
  }

  lemma CallKeepsBytes(prefix: seq<Byte>, s: Session, call: Call, lo: nat, hi: nat)
    requires s.machine.heap <= |s.machine.memory| && lo <= hi <= s.machine.heap && Untouched(call, lo, hi)
    requires Do(prefix, s, call).Some?
    ensures SameBytes(s, Do(prefix, s, call).value, lo, hi)
  {
    match call
    case AllocCall(_, _) =>
    case WriteCall(at, bytes) => WrittenElsewhere(s.machine.memory, at, bytes, lo, hi);
    case RunCall(p, n, growthAllowed) => RunKeepsBytes(prefix, s, p, n, growthAllowed, lo, hi);
  }

  /** Bump allocation keeps whole pages and the heap pointer inside. */
  lemma AllocatedWellFormed(m: Machine, n: nat, growthAllowed: bool)
    requires WellFormed(m) && Fits(m, n, growthAllowed)
    ensures WellFormed(Allocated(m, n, growthAllowed).value)
  {
  }

  lemma CallKeepsMachine(prefix: seq<Byte>, s: Session, call: Call)
    requires WellFormed(s.machine) && Do(prefix, s, call).Some?
    ensures WellFormed(Do(prefix, s, call).value.machine)
    ensures s.machine.heap <= Do(prefix, s, call).value.machine.heap
  {
    match call
    case AllocCall(n, growthAllowed) => AllocatedWellFormed(s.machine, n, growthAllowed);
    case WriteCall(_, _) =>
    case RunCall(p, n, growthAllowed) => AllocatedWellFormed(s.machine, |prefix| + n + 1, growthAllowed);
  }

  /** A region that starts at the old heap pointer keeps the regions apart. */
  lemma RegionAdded(prefix: seq<Byte>, s: Session, s': Session, r: Region)
    requires RegionsApart(prefix, s) && HeapBase(|prefix|) <= s.machine.heap
    requires r.start == s.machine.heap && s'.machine.heap == s.machine.heap + r.length
    requires s'.regions == s.regions + [r]
    ensures RegionsApart(prefix, s')
  {
  }

  lemma CallKeepsRegions(prefix: seq<Byte>, s: Session, call: Call)
    requires RegionsApart(prefix, s) && HeapBase(|prefix|) <= s.machine.heap <= |s.machine.memory|
    requires Do(prefix, s, call).Some?
    ensures RegionsApart(prefix, Do(prefix, s, call).value)
  {
    var s' := Do(prefix, s, call).value;
    match call
    case AllocCall(n, _) => RegionAdded(prefix, s, s', Region(s.machine.heap, n, true));
    case WriteCall(_, _) =>
    case RunCall(p, n, _) => RegionAdded(prefix, s, s', Region(s.machine.heap, |prefix| + n + 1, false));
  }

  /** A permitted range lies past the prefix and below the heap pointer. */
  lemma PermittedIsPastPrefix(prefix: seq<Byte>, s: Session, at: nat, n: nat)
    requires Inv(prefix, s) && InHostRegion(s, at, n)
    ensures |prefix| <= at && at + n <= s.machine.heap
  {
    LayoutFits(|prefix|);
  }

  lemma CallKeepsPrefix(prefix: seq<Byte>, s: Session, call: Call)
    requires Inv(prefix, s) && Permitted(s, call) && Do(prefix, s, call).Some?
    ensures var m := Do(prefix, s, call).value.machine; |prefix| <= |m.memory| && m.memory[..|prefix|] == prefix
  {
    LayoutFits(|prefix|);
    if call.WriteCall? {
      PermittedIsPastPrefix(prefix, s, call.at, |call.bytes|);
    }
    CallKeepsBytes(prefix, s, call, 0, |prefix|);
  }

  lemma CallKeepsInv(prefix: seq<Byte>, s: Session, call: Call)
    requires Inv(prefix, s) && Permitted(s, call) && Do(prefix, s, call).Some?
    ensures Inv(prefix, Do(prefix, s, call).value)
  {
    CallKeepsMachine(prefix, s, call);
    CallKeepsRegions(prefix, s, call);
    CallKeepsPrefix(prefix, s, call);
  }

  lemma {:induction false} TraceKeepsInv(prefix: seq<Byte>, t: Trace, k: nat)
    requires IsTrace(prefix, t) && k < |t.states|
    ensures Inv(prefix, t.states[k])
  {
    LayoutFits(|prefix|);
    if k > 0 {
      TraceKeepsInv(prefix, t, k - 1);
      assert Follows(prefix, t, k - 1);
      CallKeepsInv(prefix, t.states[k - 1], t.calls[k - 1]);
    }
  }

  // ---------------------------------------------------------------- theorems

  /** Every region ever returned, whether to the host or inside `run`, lies in memory, past
      the embedded prefix, and overlaps no other region. */
  lemma RegionsNeverOverlap(prefix: seq<Byte>, t: Trace, k: nat)
    requires IsTrace(prefix, t) && k < |t.states|
    ensures var s := t.states[k];
      && (forall i | 0 <= i < |s.regions| ::
            |prefix| < s.regions[i].start && s.regions[i].start + s.regions[i].length <= |s.machine.memory| <= MAX_BYTES)
      && (forall i, j | 0 <= i < j < |s.regions| :: s.regions[i].start + s.regions[i].length <= s.regions[j].start)
      && |prefix| <= |s.machine.memory| && s.machine.memory[..|prefix|] == prefix
  {
    TraceKeepsInv(prefix, t, k);
    LayoutFits(|prefix|);
  }

  /** Every permitted call after any session is answered, with one exception: an allocation,
      explicit or inside `run`, that fits neither the memory nor the growth still allowed. */
  lemma TrapsExactlyWhenFull(prefix: seq<Byte>, t: Trace, k: nat, call: Call)
    requires IsTrace(prefix, t) && k < |t.states| && Permitted(t.states[k], call)
    ensures t.states[k].machine.heap <= |t.states[k].machine.memory|
    ensures Do(prefix, t.states[k], call).Some? <==>
      match call
      case AllocCall(n, growthAllowed) => Fits(t.states[k].machine, n, growthAllowed)
      case WriteCall(_, _) => true
      case RunCall(_, n, growthAllowed) => Fits(t.states[k].machine, |prefix| + n + 1, growthAllowed)
  {
    TraceKeepsInv(prefix, t, k);
    match call
    case AllocCall(_, _) =>
    case WriteCall(at, bytes) => PermittedIsPastPrefix(prefix, t.states[k], at, |bytes|);
    case RunCall(p, n, _) => PermittedIsPastPrefix(prefix, t.states[k], p, n);
  }

  lemma SameBytesTransitive(a: Session, b: Session, c: Session, lo: nat, hi: nat)
    requires SameBytes(a, b, lo, hi) && SameBytes(b, c, lo, hi)
    ensures SameBytes(a, c, lo, hi)
  {
  }

  /** Memory below the heap pointer changes only where the host itself writes. */
  lemma {:induction false} BytesStay(prefix: seq<Byte>, t: Trace, i: nat, k: nat, lo: nat, hi: nat)
    requires IsTrace(prefix, t) && i <= k < |t.states|
    requires lo <= hi <= t.states[i].machine.heap
    requires forall m | i <= m < k :: Untouched(t.calls[m], lo, hi)
    ensures SameBytes(t.states[i], t.states[k], lo, hi)
    decreases k
  {
    TraceKeepsInv(prefix, t, i);
    if i < k {
      BytesStay(prefix, t, i, k - 1, lo, hi);
      assert Follows(prefix, t, k - 1);
      CallKeepsBytes(prefix, t.states[k - 1], t.calls[k - 1], lo, hi);
      SameBytesTransitive(t.states[i], t.states[k - 1], t.states[k], lo, hi);
    }
  }

  /** A run on an input inside a host region hands over prefix, input and closing brace. */
  lemma RunPassesDocument(prefix: seq<Byte>, t: Trace, k: nat)
    requires IsTrace(prefix, t) && k < |t.calls| && t.calls[k].RunCall?
    ensures var m, p, n := t.states[k].machine, t.calls[k].p, t.calls[k].n;
      && p + n <= |m.memory|
      && t.states[k + 1].passed == t.states[k].passed + [Document(prefix, m.memory[p..p + n])]
  {
    assert Follows(prefix, t, k);
    TraceKeepsInv(prefix, t, k);
    var p, n := t.calls[k].p, t.calls[k].n;
    PermittedIsPastPrefix(prefix, t.states[k], p, n);
    HandedBelowHeap(t.states[k].machine, prefix, p, n, t.calls[k].growthAllowed);
  }

  lemma WriteStores(prefix: seq<Byte>, t: Trace, i: nat)
    requires IsTrace(prefix, t) && i < |t.calls| && t.calls[i].WriteCall?
    ensures var m, lo, hi := t.states[i + 1].machine, t.calls[i].at, t.calls[i].at + |t.calls[i].bytes|;
      hi <= m.heap <= |m.memory| && m.memory[lo..hi] == t.calls[i].bytes
  {
    assert Follows(prefix, t, i);
    TraceKeepsInv(prefix, t, i);
    TraceKeepsInv(prefix, t, i + 1);
    PermittedIsPastPrefix(prefix, t.states[i], t.calls[i].at, |t.calls[i].bytes|);
  }

  // ---------------------------------------------------------------- on the instance

  /** What the host gets back from one call of the instance. */
  datatype Answer = Pointer(p: Word) | Stored | Passed(document: seq<Byte>)

  /** The answer to a call, as the session records it: the pointer is the start of the new
      region, the document the one handed over. */
  ghost predicate Answers(s: Session, s': Session, call: Call, a: Answer) {
    match call
    case AllocCall(n, _) => a.Pointer? && s'.regions == s.regions + [Region(a.p, n, true)]
    case WriteCall(_, _) => a.Stored? && s'.regions == s.regions && s'.passed == s.passed
    case RunCall(_, _, _) => a.Passed? && s'.passed == s.passed + [a.document]
  }

  /** One permitted call carried out by the generated instructions themselves: they answer,
      trap and hand over exactly what `Do` says. */
  method Perform(instance: Instance, ghost s: Session, call: Call) returns (a: Option<Answer>)
    requires instance.Valid() && instance.View() == s.machine
    requires Inv(instance.prefix, s) && Permitted(s, call)
    modifies instance
    ensures instance.Valid()
    ensures a.Some? <==> Do(instance.prefix, s, call).Some?
    ensures a.Some? ==>
      && instance.View() == Do(instance.prefix, s, call).value.machine
      && Answers(s, Do(instance.prefix, s, call).value, call, a.value)
  {
    match call {
      case AllocCall(n, growthAllowed) =>
        var p := instance.Alloc(n, growthAllowed);
        a := if p.Some? then Some(Pointer(p.value)) else None;
      case WriteCall(at, bytes) =>
        PermittedIsPastPrefix(instance.prefix, s, at, |bytes|);
        WrittenElsewhere(instance.memory, at, bytes, 0, |instance.prefix|);
        instance.memory := Written(instance.memory, at, bytes);
        a := Some(Stored);
      case RunCall(p, n, growthAllowed) =>
        var document := instance.Run(p, n, growthAllowed);
        a := if document.Some? then Some(Passed(document.value)) else None;
    }
  }

  /** The host keeps to its own regions: after every session that carries out a beginning of
      `calls`, the next one is permitted. */
  ghost predicate PermittedCalls(prefix: seq<Byte>, calls: seq<Call>) {
    forall t: Trace | IsTrace(prefix, t) && t.calls < calls ::
      Permitted(t.states[|t.calls|], calls[|t.calls|])
  }

  /** The answers an instance gave to the calls of a session. */
  ghost predicate AnsweredBy(t: Trace, answers: seq<Answer>) {
    && |answers| == |t.calls| && |t.states| == |t.calls| + 1
    && forall k | 0 <= k < |answers| :: Answers(t.states[k], t.states[k + 1], t.calls[k], answers[k])
  }

  /** A fresh instance serves a list of calls, up to the first trap. Its memory, pointers and
      documents are those of a session, so every theorem about sessions is one about the
      generated program. */
  method Serve(prefix: seq<Byte>, calls: seq<Call>)
    returns (instance: Instance, answers: seq<Answer>, ghost t: Trace)
    requires InitialPages(|prefix|) <= MAX_PAGES && PermittedCalls(prefix, calls)
    ensures |answers| <= |calls|
    ensures IsTrace(prefix, t) && t.calls == calls[..|answers|] && AnsweredBy(t, answers)
    ensures |answers| < |calls| ==>
      var s := t.states[|answers|];
      s.machine.heap <= |s.machine.memory| && Do(prefix, s, calls[|answers|]).None?
    ensures |answers| == |calls| ==> instance.View() == t.states[|answers|].machine
  {
    instance := new Instance(prefix);
    answers := [];
    t := Trace([], [Session(Start(prefix), [], [])]);
    while |answers| < |calls|
      invariant |answers| <= |calls| && instance.Valid() && instance.prefix == prefix && fresh(instance)
      invariant IsTrace(prefix, t) && t.calls == calls[..|answers|] && AnsweredBy(t, answers)
      invariant instance.View() == t.states[|answers|].machine
    {
      var k := |answers|;
      ghost var s := t.states[k];
      TraceKeepsInv(prefix, t, k);
      assert t.calls < calls;
      assert Permitted(s, calls[k]);
      var a := Perform(instance, s, calls[k]);
      if a.None? {
        return;
      }
      ghost var s' := Do(prefix, s, calls[k]).value;
      TraceExtends(prefix, t, answers, calls[k], s', a.value);
      t := Trace(t.calls + [calls[k]], t.states + [s']);
      answers := answers + [a.value];
    }
  }

  lemma TraceExtends(prefix: seq<Byte>, t: Trace, answers: seq<Answer>, call: Call, s': Session, a: Answer)
    requires IsTrace(prefix, t) && AnsweredBy(t, answers)
    requires var s := t.states[|t.calls|];
      && s.machine.heap <= |s.machine.memory| && Permitted(s, call)
      && Do(prefix, s, call) == Some(s') && Answers(s, s', call, a)
    ensures var t' := Trace(t.calls + [call], t.states + [s']);
      IsTrace(prefix, t') && AnsweredBy(t', answers + [a])
  {
    var t' := Trace(t.calls + [call], t.states + [s']);
    forall k | 0 <= k < |t'.calls| ensures Follows(prefix, t', k) {
      assert k < |t.calls| ==> Follows(prefix, t, k);
    }
  }

  lemma {:induction false} RegionsGrow(prefix: seq<Byte>, t: Trace, i: nat, k: nat)
    requires IsTrace(prefix, t) && i <= k < |t.states|
    ensures t.states[i].regions <= t.states[k].regions
    decreases k
  {
    if i < k {
      RegionsGrow(prefix, t, i, k - 1);
      assert Follows(prefix, t, k - 1);
    }
  }

  /** The pointers that the instance returns to the host: each block lies past the embedded
      operation, inside the 128 pages, and after every block returned before. */
  lemma PointersNeverOverlap(prefix: seq<Byte>, t: Trace, answers: seq<Answer>, i: nat, j: nat)
    requires IsTrace(prefix, t) && AnsweredBy(t, answers) && i <= j < |answers|
    requires t.calls[i].AllocCall? && t.calls[j].AllocCall?
    ensures answers[i].Pointer? && answers[j].Pointer?
    ensures |prefix| < answers[i].p && answers[i].p + t.calls[i].n <= MAX_BYTES
    ensures i < j ==> answers[i].p + t.calls[i].n <= answers[j].p
  {
    assert Answers(t.states[i], t.states[i + 1], t.calls[i], answers[i]);
    assert Answers(t.states[j], t.states[j + 1], t.calls[j], answers[j]);
    RegionsNeverOverlap(prefix, t, j + 1);
    RegionsGrow(prefix, t, i + 1, j + 1);
    var all := t.states[j + 1].regions;
    assert all[|t.states[i].regions|] == Region(answers[i].p, t.calls[i].n, true);
    assert all[|t.states[j].regions|] == Region(answers[j].p, t.calls[j].n, true);
    if i < j {
      RegionsGrow(prefix, t, i + 1, j);
    }
  }

  /** What the host wrote is what the instance hands back to it, between the embedded
      operation and the closing brace: allocations, other writes and other runs in between
      do not disturb the input. */
  lemma WrittenInputIsPassed(prefix: seq<Byte>, t: Trace, answers: seq<Answer>, i: nat, k: nat)
    requires IsTrace(prefix, t) && AnsweredBy(t, answers)
    requires i < k < |t.calls| && t.calls[i].WriteCall? && t.calls[k].RunCall?
    requires t.calls[k].p == t.calls[i].at && t.calls[k].n == |t.calls[i].bytes|
    requires forall m | i < m < k :: Untouched(t.calls[m], t.calls[i].at, t.calls[i].at + |t.calls[i].bytes|)
    ensures answers[k] == Passed(Document(prefix, t.calls[i].bytes))
  {
    WriteStores(prefix, t, i);
    BytesStay(prefix, t, i + 1, k, t.calls[i].at, t.calls[i].at + |t.calls[i].bytes|);
    RunPassesDocument(prefix, t, k);
    assert Answers(t.states[k], t.states[k + 1], t.calls[k], answers[k]);
    assert t.states[k + 1].passed[|t.states[k].passed|] == answers[k].document;
  }
}
