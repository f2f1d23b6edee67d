/** The Wasm program that `src/http_operation.rs` generates for one HTTP operation: a bump
    allocator and a `run` export that splices the embedded operation, the caller's input and
    a closing brace into one JSON document for the host.

    `Instance` executes the generated instructions in 32-bit wrapping arithmetic; `Allocated`
    and `Spliced` say what they compute in plain arithmetic. The memory instructions follow
    section 4.4.7 of the WebAssembly Core Specification 2.0.
 */
module HttpModule {
  import opened Common

  newtype Byte = x: int | 0 <= x < 256

  const WORD: nat := 0x1_0000_0000
  const PAGE: nat := 65536
  const MAX_PAGES: nat := 128
  const MAX_BYTES: nat := 8388608
  const CLOSING_BRACE: Byte := 125

  type Word = x: nat | x < WORD

  // ---------------------------------------------------------------- 32-bit arithmetic

  /** `i32.add`. */
  function Add(a: Word, b: Word): Word {
    (a + b) % WORD
  }

  /** `i32.sub`. */
  function Sub(a: Word, b: Word): Word {
    (a - b) % WORD
  }

  /** `i32.shl` by 16. */
  function ShiftLeft16(a: Word): Word {
    (a * PAGE) % WORD
  }

  /** `i32.shr_u` by 16. */
  function ShiftRight16(a: Word): Word {
    a / PAGE
  }

  /** The sum wraps at most once, the difference borrows at most once. */
  lemma ArithmeticWraps(a: Word, b: Word)
    ensures Add(a, b) == if a + b < WORD then a + b else a + b - WORD
    ensures Sub(a, b) == if a >= b then a - b else a + WORD - b
  {
  }

  function Zeros(n: nat): seq<Byte> { seq(n, _ => 0) }

  /** `memory.copy` within bounds; overlapping ranges are copied as if through a buffer. */
  function Copied(memory: seq<Byte>, to: nat, from: nat, n: nat): (m: seq<Byte>)
    requires to + n <= |memory| && from + n <= |memory|
    ensures |m| == |memory|
  {
    memory[..to] + memory[from..from + n] + memory[to + n..]
  }

  // ---------------------------------------------------------------- layout

  /** The first heap address: the prefix length rounded up with at least 8 spare bytes,
      `(len + 15) & !7`. */
  function HeapBase(prefixLength: nat): nat {
    (prefixLength + 15) / 8 * 8
  }

  function InitialPages(prefixLength: nat): nat {
    var pages := (HeapBase(prefixLength) + PAGE - 1) / PAGE;
    if pages < 1 then 1 else pages
  }

  /** The length of the embedded prefix: the fixed JSON text around the operation. */
  function PrefixLength(operationLength: nat): nat {
    35 + operationLength + 9
  }

  /** The heap starts past the prefix, 8-byte aligned, inside the initial memory; and every
      operation that passes validation (at most 64 KiB of JSON) starts with at most two of
      the 128 pages. */
  lemma LayoutFits(prefixLength: nat)
    ensures prefixLength + 8 <= HeapBase(prefixLength) <= prefixLength + 15
    ensures HeapBase(prefixLength) % 8 == 0
    ensures HeapBase(prefixLength) <= InitialPages(prefixLength) * PAGE
    ensures InitialPages(prefixLength) >= 1
    ensures forall operation: nat | prefixLength == PrefixLength(operation) && operation <= 64 * 1024 ::
      InitialPages(prefixLength) <= 2
  {
  }

  // ---------------------------------------------------------------- what the program computes

  datatype Machine = Machine(memory: seq<Byte>, heap: nat)

  /** Whole pages, at most 128 of them, with the heap pointer inside. */
  ghost predicate WellFormed(m: Machine) {
    && |m.memory| % PAGE == 0
    && PAGE <= |m.memory| <= MAX_BYTES
    && m.heap <= |m.memory|
  }

  /** The size in bytes of the fewest whole pages that hold `bytes`. */
  function RoundedUp(bytes: nat): nat {
    (bytes + PAGE - 1) / PAGE * PAGE
  }

  predicate Fits(m: Machine, n: nat, growthAllowed: bool) {
    m.heap + n <= |m.memory| || (growthAllowed && m.heap + n <= MAX_BYTES)
  }

  /** Bump allocation without machine arithmetic: the request fits in 128 pages, and in the
      current memory unless growing is allowed, or the call traps. */
  function Allocated(m: Machine, n: nat, growthAllowed: bool): (r: Option<Machine>)
    ensures r.Some? <==> Fits(m, n, growthAllowed)
    ensures r.Some? ==> r.value.heap == m.heap + n && m.memory <= r.value.memory
  {
    if m.heap + n <= |m.memory| then Some(m.(heap := m.heap + n))
    else if growthAllowed && m.heap + n <= MAX_BYTES then
      Some(Machine(m.memory + Zeros(RoundedUp(m.heap + n) - |m.memory|), m.heap + n))
    else None
  }

  /** What `run` needs besides a successful allocation: the input lies in memory. */
  predicate Splices(m: Machine, prefix: seq<Byte>, p: nat, n: nat, growthAllowed: bool) {
    var after := Allocated(m, |prefix| + n + 1, growthAllowed);
    after.Some? && p + n <= |after.value.memory|
  }

  /** The document handed to the host: prefix, input, closing brace. */
  function Document(prefix: seq<Byte>, input: seq<Byte>): seq<Byte> {
    prefix + input + [CLOSING_BRACE]
  }

  /** The memory after a run: the document sits at the old heap pointer. */
  function Written(memory: seq<Byte>, at: nat, document: seq<Byte>): (m: seq<Byte>)
    requires at + |document| <= |memory|
    ensures |m| == |memory|
  {
    memory[..at] + document + memory[at + |document|..]
  }

  /** The input as the second copy reads it, after the prefix was copied to `at`. */
  function InputRead(memory: seq<Byte>, at: nat, prefixLength: nat, p: nat, n: nat): (input: seq<Byte>)
    requires at + prefixLength <= |memory| && p + n <= |memory|
    ensures |input| == n
  {
    Copied(memory, at, 0, prefixLength)[p..p + n]
  }

  /** An input that the copied prefix does not overlap, in particular one below the heap
      pointer, is read as it was. */
  lemma InputIsKept(memory: seq<Byte>, at: nat, prefixLength: nat, p: nat, n: nat)
    requires at + prefixLength <= |memory| && p + n <= |memory|
    requires p + n <= at || at + prefixLength <= p
    ensures InputRead(memory, at, prefixLength, p, n) == memory[p..p + n]
  {
  }

  /** What a run hands to the host. */
  function Handed(m: Machine, prefix: seq<Byte>, p: nat, n: nat, growthAllowed: bool): seq<Byte>
    requires Splices(m, prefix, p, n, growthAllowed) && m.heap <= |m.memory|
  {
    var after := Allocated(m, |prefix| + n + 1, growthAllowed).value;
    Document(prefix, InputRead(after.memory, m.heap, |prefix|, p, n))
  }

  /** A run on any input, wherever it lies. */
  function Spliced(m: Machine, prefix: seq<Byte>, p: nat, n: nat, growthAllowed: bool): Machine
    requires Splices(m, prefix, p, n, growthAllowed) && m.heap <= |m.memory|
  {
    var after := Allocated(m, |prefix| + n + 1, growthAllowed).value;
    after.(memory := Written(after.memory, m.heap, Handed(m, prefix, p, n, growthAllowed)))
  }

  /** For an input below the heap pointer the host is handed prefix, input, closing brace. */
  lemma HandedBelowHeap(m: Machine, prefix: seq<Byte>, p: nat, n: nat, growthAllowed: bool)
    requires Splices(m, prefix, p, n, growthAllowed) && p + n <= m.heap <= |m.memory|
    ensures Handed(m, prefix, p, n, growthAllowed) == Document(prefix, m.memory[p..p + n])
  {
    var after := Allocated(m, |prefix| + n + 1, growthAllowed).value;
    InputIsKept(after.memory, m.heap, |prefix|, p, n);
    assert after.memory[p..p + n] == m.memory[p..p + n];
  }

  /** The instantiated module: the data segment at address 0, the heap global past it. */
  function Start(prefix: seq<Byte>): (m: Machine)
    requires InitialPages(|prefix|) <= MAX_PAGES
    ensures WellFormed(m) && m.heap == HeapBase(|prefix|)
    ensures |prefix| <= |m.memory| && m.memory[..|prefix|] == prefix
  {
    LayoutFits(|prefix|);
    Machine(prefix + Zeros(InitialPages(|prefix|) * PAGE - |prefix|), HeapBase(|prefix|))
  }

  // ---------------------------------------------------------------- the instructions

  class Instance {
    const prefix: seq<Byte>
    var memory: seq<Byte>
    var heap: Word

    function View(): Machine
      reads this
    {
      Machine(memory, heap)
    }

    /** The embedded operation is still what was compiled in. */
    ghost predicate Valid()
      reads this
    {
      WellFormed(View()) && |prefix| <= heap && prefix == memory[..|prefix|]
    }

    constructor (prefix: seq<Byte>)
      requires InitialPages(|prefix|) <= MAX_PAGES
      ensures Valid() && this.prefix == prefix && View() == Start(prefix)
    {
      LayoutFits(|prefix|);
      this.prefix := prefix;
      memory := Start(prefix).memory;
      heap := HeapBase(|prefix|);
    }

    function MemorySize(): Word
      reads this
      requires Valid()
    {
      |memory| / PAGE
    }

    /** `memory.grow`: the old size in pages, or -1 when the maximum or the host refuses. */
    method MemoryGrow(delta: Word, growthAllowed: bool) returns (r: Word)
      requires Valid()
      modifies this`memory
      ensures Valid()
      ensures if growthAllowed && old(MemorySize()) + delta <= MAX_PAGES
        then r == old(MemorySize()) && memory == old(memory) + Zeros(delta * PAGE)
        else r == WORD - 1 && memory == old(memory)
    {
      if !growthAllowed || MemorySize() + delta > MAX_PAGES {
        return WORD - 1;
      }
      r := MemorySize();
      memory := memory + Zeros(delta * PAGE);
    }

    /** The growth branch of `alloc`: the pages missing below `end`, or a trap. */
    method GrowTo(end: Word, growthAllowed: bool) returns (ok: bool)
      requires Valid() && |memory| < end
      modifies this`memory
      ensures Valid()
      ensures ok <==> growthAllowed && end <= MAX_BYTES
      ensures ok ==> |old(memory)| <= RoundedUp(end)
      ensures memory == if ok then old(memory) + Zeros(RoundedUp(end) - |old(memory)|) else old(memory)
    {
      GrowthIsExact(|memory|, end);
      var grown := MemoryGrow(Sub(ShiftRight16(Add(end, 65535)), MemorySize()), growthAllowed);
      ok := grown != WORD - 1;
    }

    /** The `alloc` export; `None` is a trap. */
    method Alloc(n: Word, growthAllowed: bool) returns (r: Option<Word>)
      requires Valid()
      modifies this
      ensures Valid()
      ensures var spec := Allocated(old(View()), n, growthAllowed);
        if spec.Some? then r == Some(old(heap)) && View() == spec.value else r.None? && View() == old(View())
    {
      var p := heap;
      var end := Add(p, n);
      ArithmeticWraps(p, n);
      if end < p {
        return None;
      }
      SizeInBytes();
      if end > ShiftLeft16(MemorySize()) {
        var grown := GrowTo(end, growthAllowed);
        if !grown {
          return None;
        }
      }
      heap := end;
      r := Some(p);
    }

    /** `memory.size` shifted left by 16 is the size in bytes: 128 pages do not wrap. */
    lemma SizeInBytes()
      requires Valid()
      ensures ShiftLeft16(MemorySize()) == |memory|
    {
    }

    /** `memory.copy`; `false` is a trap. */
    method MemoryCopy(to: Word, from: Word, n: Word) returns (ok: bool)
      modifies this`memory
      ensures ok <==> to + n <= |old(memory)| && from + n <= |old(memory)|
      ensures memory == if ok then Copied(old(memory), to, from, n) else old(memory)
    {
      ok := to + n <= |memory| && from + n <= |memory|;
      if ok {
        memory := memory[..to] + memory[from..from + n] + memory[to + n..];
      }
    }

    /** `i32.store8`; `false` is a trap. */
    method Store8(at: Word, value: Byte) returns (ok: bool)
      modifies this`memory
      ensures ok <==> at < |old(memory)|
      ensures memory == if at < |old(memory)| then old(memory)[at := value] else old(memory)
    {
      ok := at < |memory|;
      if ok {
        memory := memory[at := value];
      }
    }

    /** A `memory.copy` to `out` or above, which leaves everything below alone. */
    method CopyAbove(out: Word, to: Word, from: Word, n: Word) returns (ok: bool)
      requires Valid() && |prefix| <= out <= to && out <= |memory|
      modifies this`memory
      ensures Valid() && |memory| == |old(memory)| && memory[..out] == old(memory)[..out]
      ensures ok <==> to + n <= |old(memory)| && from + n <= |old(memory)|
      ensures memory == if ok then Copied(old(memory), to, from, n) else old(memory)
    {
      ghost var before := memory;
      ok := MemoryCopy(to, from, n);
      if ok {
        CopyKeepsBelow(before, to, from, n, out);
        CopyKeepsBelow(before, to, from, n, |prefix|);
      }
    }

    /** The `i32.store8` at the end of the document, which leaves everything below alone. */
    method StoreAbove(out: Word, at: Word, value: Byte) returns (ok: bool)
      requires Valid() && |prefix| <= out <= at && out <= |memory|
      modifies this`memory
      ensures Valid() && |memory| == |old(memory)| && memory[..out] == old(memory)[..out]
      ensures ok <==> at < |old(memory)|
      ensures memory == if at < |old(memory)| then old(memory)[at := value] else old(memory)
    {
      ghost var before := memory;
      ok := Store8(at, value);
      if ok {
        StoreKeepsBelow(before, at, value, out);
        StoreKeepsBelow(before, at, value, |prefix|);
      }
    }

    /** The two copies of `run`: the prefix to `out`, then the input after it. */
    method CopyParts(out: Word, p: Word, n: Word) returns (ok: bool)
      requires Valid() && |prefix| <= out <= |memory|
      modifies this`memory
      ensures Valid() && |memory| == |old(memory)| && memory[..out] == old(memory)[..out]
      ensures ok <==> out + |prefix| + n <= |old(memory)| && p + n <= |old(memory)|
      ensures ok ==> memory == BothCopied(old(memory), |prefix|, out, p, n)
    {
      ok := CopyAbove(out, out, 0, |prefix|);
      if !ok {
        return false;
      }
      ArithmeticWraps(out, |prefix|);
      ok := CopyAbove(out, Add(out, |prefix|), p, n);
    }

    /** The part of `run` after its allocation at `out`; `length` may have wrapped. */
    method Splice(out: Word, length: Word, p: Word, n: Word) returns (passed: Option<seq<Byte>>)
      requires Valid() && |prefix| <= out && out + length <= heap
      requires length == |prefix| + n + 1 || n > MAX_BYTES
      modifies this`memory
      ensures Valid() && |memory| == |old(memory)| && memory[..out] == old(memory)[..out]
      ensures passed.Some? <==> p + n <= |old(memory)|
      ensures passed.Some? ==>
        && out + |prefix| + n + 1 <= |old(memory)|
        && memory == Assembled(old(memory), |prefix|, out, p, n)
        && passed.value == memory[out..out + |prefix| + n + 1]
    {
      var ok := CopyParts(out, p, n);
      if !ok {
        return None;
      }
      LastByte(out, length);
      ok := StoreAbove(out, Sub(Add(out, length), 1), CLOSING_BRACE);
      if !ok {
        return None;
      }
      passed := Some(memory[out..out + length]);
    }

    /** The length of the document, in wrapping arithmetic: exact unless it wraps, and then the
        input alone exceeds every memory. */
    method DocumentLength(n: Word) returns (length: Word)
      requires Valid()
      ensures length == |prefix| + n + 1 || n > MAX_BYTES
    {
      ArithmeticWraps(n, |prefix|);
      ArithmeticWraps(Add(n, |prefix|), 1);
      length := Add(Add(n, |prefix|), 1);
    }

    /** The start of `run`: the length, which may wrap, and the allocation. */
    method AllocDocument(n: Word, growthAllowed: bool) returns (out: Option<Word>, length: Word)
      requires Valid()
      modifies this
      ensures Valid()
      ensures length == |prefix| + n + 1 || n > MAX_BYTES
      ensures old(heap) <= heap && |old(memory)| <= |memory|
      ensures memory[..old(heap)] == old(memory)[..old(heap)]
      ensures out.Some? ==> out.value == old(heap) && out.value + length <= heap
      ensures n <= MAX_BYTES ==>
        var spec := Allocated(old(View()), |prefix| + n + 1, growthAllowed);
        out.Some? == spec.Some? && (out.Some? ==> View() == spec.value)
    {
      ghost var before := View();
      length := DocumentLength(n);
      out := Alloc(length, growthAllowed);
      if out.Some? {
        AllocatedKeepsBelow(before, length, growthAllowed);
      }
    }

    /** The instructions of `run` up to its host call. */
    method Assemble(p: Word, n: Word, growthAllowed: bool) returns (passed: Option<seq<Byte>>)
      requires Valid()
      modifies this
      ensures Valid()
      ensures old(heap) <= heap && |old(memory)| <= |memory|
      ensures memory[..old(heap)] == old(memory)[..old(heap)]
      ensures Assembles(old(View()), |prefix|, p, n, growthAllowed, View(), passed)
    {
      var out, length := AllocDocument(n, growthAllowed);
      if out.None? {
        return None;
      }
      passed := Splice(out.value, length, p, n);
    }

    /** The `run` export up to its host call: the bytes the host is given, or a trap. */
    method Run(p: Word, n: Word, growthAllowed: bool) returns (passed: Option<seq<Byte>>)
      requires Valid()
      modifies this
      ensures Valid()
      ensures passed.Some? <==> Splices(old(View()), prefix, p, n, growthAllowed)
      ensures old(heap) <= heap && |old(memory)| <= |memory|
      ensures memory[..old(heap)] == old(memory)[..old(heap)]
      ensures passed.Some? ==>
        && passed.value == Handed(old(View()), prefix, p, n, growthAllowed)
        && View() == Spliced(old(View()), prefix, p, n, growthAllowed)
    {
      ghost var before := View();
      passed := Assemble(p, n, growthAllowed);
      AssemblesIsRun(before, prefix, p, n, growthAllowed, View(), passed);
    }
  }

  lemma CopyKeepsBelow(memory: seq<Byte>, to: nat, from: nat, n: nat, below: nat)
    requires to + n <= |memory| && from + n <= |memory| && below <= to
    ensures Copied(memory, to, from, n)[..below] == memory[..below]
  {
  }

  lemma StoreKeepsBelow(memory: seq<Byte>, at: nat, value: Byte, below: nat)
    requires below <= at < |memory|
    ensures memory[at := value][..below] == memory[..below]
  {
  }

  /** The memory after both copies of `run`. */
  function BothCopied(memory: seq<Byte>, prefixLength: nat, out: nat, p: nat, n: nat): (m: seq<Byte>)
    requires out + prefixLength + n <= |memory| && p + n <= |memory|
    ensures |m| == |memory|
  {
    Copied(Copied(memory, out, 0, prefixLength), out + prefixLength, p, n)
  }

  /** The memory after the closing brace is stored too. */
  function Assembled(memory: seq<Byte>, prefixLength: nat, out: nat, p: nat, n: nat): (m: seq<Byte>)
    requires out + prefixLength + n + 1 <= |memory| && p + n <= |memory|
    ensures |m| == |memory|
  {
    BothCopied(memory, prefixLength, out, p, n)[out + prefixLength + n := CLOSING_BRACE]
  }

  /** Copying the prefix, then the input, then storing the brace writes the document: the
      later copies do not overwrite what the earlier ones wrote. */
  lemma SpliceIsDocument(memory: seq<Byte>, prefix: seq<Byte>, out: nat, p: nat, n: nat)
    requires |prefix| <= out && p + n <= |memory| && out + |prefix| + n + 1 <= |memory|
    requires memory[..|prefix|] == prefix
    ensures var document := Document(prefix, InputRead(memory, out, |prefix|, p, n));
      && Assembled(memory, |prefix|, out, p, n) == Written(memory, out, document)
      && Assembled(memory, |prefix|, out, p, n)[out..out + |prefix| + n + 1] == document
  {
    var first := Copied(memory, out, 0, |prefix|);
    assert first[..out + |prefix|] == memory[..out] + prefix;
    assert first[out + |prefix| + n..] == memory[out + |prefix| + n..];
    assert BothCopied(memory, |prefix|, out, p, n) ==
      memory[..out] + prefix + first[p..p + n] + memory[out + |prefix| + n..];
  }

  /** The splice in terms of the machine before the run. */
  lemma AssembledIsSpliced(m: Machine, prefix: seq<Byte>, p: nat, n: nat, growthAllowed: bool)
    requires WellFormed(m) && |prefix| <= m.heap && m.memory[..|prefix|] == prefix
    requires Splices(m, prefix, p, n, growthAllowed)
    ensures var grown := Allocated(m, |prefix| + n + 1, growthAllowed).value;
      && m.heap + |prefix| + n + 1 <= |grown.memory|
      && var memory := Assembled(grown.memory, |prefix|, m.heap, p, n);
         && grown.(memory := memory) == Spliced(m, prefix, p, n, growthAllowed)
         && memory[m.heap..m.heap + |prefix| + n + 1] == Handed(m, prefix, p, n, growthAllowed)
  {
    var grown := Allocated(m, |prefix| + n + 1, growthAllowed).value;
    AllocatedKeepsBelow(m, |prefix| + n + 1, growthAllowed);
    assert grown.memory[..|prefix|] == grown.memory[..m.heap][..|prefix|];
    SpliceIsDocument(grown.memory, prefix, m.heap, p, n);
  }

  /** What the instructions of `run` do, in terms of the copies and the store they make. */
  ghost predicate Assembles(
    m: Machine, prefixLength: nat, p: nat, n: nat, growthAllowed: bool, m': Machine, passed: Option<seq<Byte>>)
  {
    var grown, end := Allocated(m, prefixLength + n + 1, growthAllowed), m.heap + prefixLength + n + 1;
    && (passed.Some? ==> n <= MAX_BYTES)
    && (n <= MAX_BYTES ==> (passed.Some? <==> grown.Some? && p + n <= |grown.value.memory|))
    && (passed.Some? ==>
          && grown.Some? && end <= |grown.value.memory| && p + n <= |grown.value.memory|
          && m' == grown.value.(memory := Assembled(grown.value.memory, prefixLength, m.heap, p, n))
          && passed.value == m'.memory[m.heap..end])
  }

  /** They are the run of the model: the same traps, the same memory, the same document. */
  lemma AssemblesIsRun(
    m: Machine, prefix: seq<Byte>, p: nat, n: nat, growthAllowed: bool, m': Machine, passed: Option<seq<Byte>>)
    requires WellFormed(m) && |prefix| <= m.heap && m.memory[..|prefix|] == prefix
    requires Assembles(m, |prefix|, p, n, growthAllowed, m', passed)
    ensures passed.Some? <==> Splices(m, prefix, p, n, growthAllowed)
    ensures passed.Some? ==>
      passed.value == Handed(m, prefix, p, n, growthAllowed) && m' == Spliced(m, prefix, p, n, growthAllowed)
  {
    if passed.Some? {
      AssembledIsSpliced(m, prefix, p, n, growthAllowed);
    } else if n > MAX_BYTES {
      HugeInputTraps(m, prefix, p, n, growthAllowed);
    }
  }

  lemma AllocatedKeepsBelow(m: Machine, n: nat, growthAllowed: bool)
    requires WellFormed(m) && Fits(m, n, growthAllowed)
    ensures var grown := Allocated(m, n, growthAllowed).value;
      |m.memory| <= |grown.memory| && grown.memory[..m.heap] == m.memory[..m.heap] && m.heap + n <= |grown.memory|
  {
  }

  lemma HugeInputTraps(m: Machine, prefix: seq<Byte>, p: nat, n: nat, growthAllowed: bool)
    requires WellFormed(m) && n > MAX_BYTES
    ensures !Splices(m, prefix, p, n, growthAllowed)
  {
  }

  lemma LastByte(out: Word, length: Word)
    requires 1 <= length && out + length <= MAX_BYTES
    ensures Sub(Add(out, length), 1) == out + length - 1
  {
    ArithmeticWraps(out, length);
    ArithmeticWraps(out + length, 1);
  }

  /** The growth request computed in wrapping arithmetic asks for exactly the missing pages,
      and for an impossible number when the sum wraps. */
  lemma GrowthIsExact(size: nat, end: nat)
    requires size % PAGE == 0 && PAGE <= size <= MAX_BYTES && size < end < WORD
    ensures var delta := Sub(ShiftRight16(Add(end, 65535)), size / PAGE);
      if end <= MAX_BYTES then size + delta * PAGE == RoundedUp(end) && size / PAGE + delta <= MAX_PAGES
      else size / PAGE + delta > MAX_PAGES
  {
    var sum := Add(end, 65535);
    ArithmeticWraps(end, 65535);
    ArithmeticWraps(ShiftRight16(sum), size / PAGE);
  }
}
