/** Durable file-transfer accounting of `src/file_download.rs`: every download is charged to
    the provider and to its own key, or to neither. */
module Transfers {
  import opened Common

  datatype Usage = Usage(downloads: nat, bytes: nat)

  /** The allowances of the provider; `CreateLimits` is the only way to make them. */
  datatype Limits = Limits(maxDownloads: nat, maxBytes: nat, maxStorage: nat)

  datatype Metadata = Metadata(
    filename: string, mediaType: string, sha256: string,
    sizeBytes: nat, expiresAt: int, maxDownloads: nat, maxBytes: nat)

  datatype Error = InvalidLimits | ProviderPaused | InvalidMetadata | Expired | Exhausted

  type Table = map<string, Usage>

  const PROVIDER: string := "provider"
  const MAX_FILE_BYTES: nat := 8388608
  const MAX_DOWNLOADS: nat := 1000000

  // ---------------------------------------------------------------- checks

  /** `FileLimits::new` on u64 arguments. */
  function CreateLimits(downloads: nat, bytes: nat, storage: nat): (r: Result<Limits, Error>)
    ensures r.Ok? <==> 1 <= downloads <= MAX_DOWNLOADS && 1 <= bytes <= I64_MAX && 1 <= storage <= I64_MAX
    ensures r.Ok? ==> r.value == Limits(downloads, bytes, storage)
  {
    if downloads == 0 || bytes == 0 || storage == 0 ||
       downloads > I64_MAX || bytes > I64_MAX || storage > I64_MAX || downloads > MAX_DOWNLOADS
    then Err(InvalidLimits)
    else Ok(Limits(downloads, bytes, storage))
  }

  ghost predicate ValidLimits(l: Limits) {
    CreateLimits(l.maxDownloads, l.maxBytes, l.maxStorage) == Ok(l)
  }

  predicate IsDigit(c: char) { '0' <= c <= '9' }

  predicate IsLower(c: char) { 'a' <= c <= 'z' }

  /** A portable ASCII basename of 1 to 128 characters, without leading dot or blank, trailing
      blank or two dots in a row. */
  predicate ValidFilename(s: string) {
    && 1 <= |s| <= 128
    && s[0] != '.' && s[0] != ' ' && s[|s| - 1] != ' '
    && (forall i | 0 <= i < |s| :: IsDigit(s[i]) || IsLower(s[i]) || 'A' <= s[i] <= 'Z' || s[i] in "._- ")
    && (forall i | 0 <= i < |s| - 1 :: !(s[i] == '.' && s[i + 1] == '.'))
  }

  function Slashes(s: string): nat {
    if s == [] then 0 else (if s[0] == '/' then 1 else 0) + Slashes(s[1..])
  }

  /** A lowercase media type without parameters. */
  predicate ValidMediaType(s: string) {
    && |s| <= 128 && Slashes(s) == 1
    && s[0] != '/' && s[|s| - 1] != '/'
    && forall i | 0 <= i < |s| :: IsLower(s[i]) || IsDigit(s[i]) || s[i] in "/!#$&^_.+-"
  }

  predicate ValidMetadata(m: Metadata) {
    && ValidFilename(m.filename) && ValidMediaType(m.mediaType) && IsHex64(m.sha256)
    && m.sizeBytes <= MAX_FILE_BYTES
    && m.expiresAt > 0
    && 1 <= m.maxDownloads <= MAX_DOWNLOADS
    && 1 <= m.maxBytes <= I64_MAX
    && m.sizeBytes <= m.maxBytes
  }

  lemma {:induction false} SlashesSplit(s: string, i: nat)
    requires i < |s| && s[i] == '/'
    ensures Slashes(s) == 1 <==> forall j | 0 <= j < |s| && j != i :: s[j] != '/'
  {
    if i == 0 {
      NoSlashes(s[1..]);
      assert forall j | 0 < j < |s| :: s[j] == s[1..][j - 1];
      assert (forall j | 0 <= j < |s[1..]| :: s[1..][j] != '/') ==> forall j | 0 < j < |s| :: s[j] != '/';
      assert (forall j | 0 < j < |s| :: s[j] != '/') ==> forall j | 0 <= j < |s[1..]| :: s[1..][j] != '/' by {
        assert forall j | 0 <= j < |s[1..]| :: s[1..][j] == s[j + 1];
      }
    } else {
      SlashesSplit(s[1..], i - 1);
      assert forall j | 0 <= j < |s[1..]| :: s[1..][j] == s[j + 1];
      assert forall j | 0 < j < |s| :: s[j] == s[1..][j - 1];
      if s[0] == '/' {
        NoSlashes(s[1..]);
        assert s[1..][i - 1] == '/';
      }
    }
  }

  lemma {:induction false} NoSlashes(s: string)
    ensures Slashes(s) == 0 <==> forall j | 0 <= j < |s| :: s[j] != '/'
  {
    if s != [] {
      NoSlashes(s[1..]);
      assert forall j | 0 <= j < |s[1..]| :: s[1..][j] == s[j + 1];
      assert forall j | 0 < j < |s| :: s[j] == s[1..][j - 1];
    }
  }

  ghost predicate Part(s: string) {
    s != [] && forall j | 0 <= j < |s| :: s[j] != '/'
  }

  lemma {:induction false} SlashAt(s: string) returns (i: nat)
    requires Slashes(s) > 0
    ensures i < |s| && s[i] == '/'
  {
    if s[0] == '/' {
      i := 0;
    } else {
      i := SlashAt(s[1..]);
      i := i + 1;
    }
  }

  /** What valid metadata means to its users: the name is one visible path component and not a
      way out of a directory, the media type is a type and a subtype, and a file fits both its
      own allowance and the storage format. */
  lemma MetadataIsSafe(m: Metadata) returns (i: nat)
    requires ValidMetadata(m)
    ensures Part(m.filename) && |m.filename| <= 128 && m.filename[0] != '.' && m.filename != "." && m.filename != ".."
    ensures forall j | 0 <= j < |m.filename| :: ' ' <= m.filename[j] <= 'z'
    ensures i < |m.mediaType| <= 128 && m.mediaType[i] == '/'
    ensures Part(m.mediaType[..i]) && Part(m.mediaType[i + 1..])
    ensures |m.sha256| == 64 && 0 < m.expiresAt
    ensures 1 <= m.maxDownloads <= 1000000 && m.sizeBytes <= 8 * 1024 * 1024
    ensures m.sizeBytes <= m.maxBytes && 1 <= m.maxBytes <= I64_MAX
  {
    i := SlashAt(m.mediaType);
    SlashesSplit(m.mediaType, i);
  }

  function UsageOf(t: Table, scope: string): Usage {
    if scope in t then t[scope] else Usage(0, 0)
  }

  /** One scope still has room: `checked_add` must not overflow u64 and stay in the limit. */
  predicate HasRoom(used: Usage, size: nat, maxDownloads: nat, maxBytes: nat) {
    && used.downloads < maxDownloads
    && used.bytes + size <= U64_MAX
    && used.bytes + size <= maxBytes
  }

  function Charged(used: Usage, size: nat): Usage {
    Usage(used.downloads + 1, used.bytes + size)
  }

  // ---------------------------------------------------------------- one reservation

  datatype Request = Request(key: string, metadata: Metadata, paused: bool, now: int)

  datatype Outcome = Outcome(table: Table, error: Option<Error>)

  /** The upsert of one scope. */
  function Charge(t: Table, scope: string, size: nat): Table {
    t[scope := Charged(UsageOf(t, scope), size)]
  }

  function Reserve(t: Table, limits: Limits, r: Request): Outcome {
    var m := r.metadata;
    if r.paused then Outcome(t, Some(ProviderPaused))
    else if !ValidMetadata(m) then Outcome(t, Some(InvalidMetadata))
    else if r.now >= m.expiresAt then Outcome(t, Some(Expired))
    else if !HasRoom(UsageOf(t, PROVIDER), m.sizeBytes, limits.maxDownloads, limits.maxBytes) then
      Outcome(t, Some(Exhausted))
    else if !HasRoom(UsageOf(t, r.key), m.sizeBytes, m.maxDownloads, m.maxBytes) then
      Outcome(t, Some(Exhausted))
    else Outcome(Charge(Charge(t, PROVIDER, m.sizeBytes), r.key, m.sizeBytes), None)
  }

  class TransferLedger {
    const limits: Limits
    var rows: Table

    constructor (limits: Limits)
      ensures this.limits == limits && rows == map[]
    {
      this.limits := limits;
      rows := map[];
    }

    /** The first loop: both scopes must have room. */
    method ScopesHaveRoom(key: string, m: Metadata) returns (room: bool)
      ensures room <==>
        && HasRoom(UsageOf(rows, PROVIDER), m.sizeBytes, limits.maxDownloads, limits.maxBytes)
        && HasRoom(UsageOf(rows, key), m.sizeBytes, m.maxDownloads, m.maxBytes)
    {
      var scopes := [PROVIDER, key];
      var downloads := [limits.maxDownloads, m.maxDownloads];
      var bytes := [limits.maxBytes, m.maxBytes];
      for i := 0 to 2
        invariant i >= 1 ==> HasRoom(UsageOf(rows, PROVIDER), m.sizeBytes, limits.maxDownloads, limits.maxBytes)
        invariant i >= 2 ==> HasRoom(UsageOf(rows, key), m.sizeBytes, m.maxDownloads, m.maxBytes)
      {
        var used := UsageOf(rows, scopes[i]);
        if used.downloads >= downloads[i] || used.bytes + m.sizeBytes > U64_MAX || used.bytes + m.sizeBytes > bytes[i] {
          return false;
        }
      }
      room := true;
    }

    /** The second loop: both scopes are charged. */
    method ChargeScopes(key: string, size: nat)
      modifies this
      ensures rows == Charge(Charge(old(rows), PROVIDER, size), key, size)
    {
      var scopes := [PROVIDER, key];
      for i := 0 to 2
        invariant rows == if i == 0 then old(rows)
          else if i == 1 then Charge(old(rows), PROVIDER, size)
          else Charge(Charge(old(rows), PROVIDER, size), key, size)
      {
        var used := UsageOf(rows, scopes[i]);
        rows := rows[scopes[i] := Usage(used.downloads + 1, used.bytes + size)];
      }
    }

    /** Checks both scopes in one loop, then charges both in a second one. */
    method ReserveTransfer(r: Request) returns (error: Option<Error>)
      modifies this
      ensures Outcome(rows, error) == Reserve(old(rows), limits, r)
      ensures error.Some? ==> rows == old(rows)
    {
      if r.paused {
        return Some(ProviderPaused);
      }
      if !ValidMetadata(r.metadata) {
        return Some(InvalidMetadata);
      }
      if r.now >= r.metadata.expiresAt {
        return Some(Expired);
      }
      var room := ScopesHaveRoom(r.key, r.metadata);
      if !room {
        return Some(Exhausted);
      }
      ChargeScopes(r.key, r.metadata.sizeBytes);
      error := None;
    }
  }

  // ---------------------------------------------------------------- conservation

  /** Total usage over a finite set of scopes. */
  ghost function Total(t: Table, scopes: set<string>): Usage {
    if scopes == {} then Usage(0, 0)
    else
      var s :| s in scopes;
      var rest := Total(t, scopes - {s});
      Usage(rest.downloads + UsageOf(t, s).downloads, rest.bytes + UsageOf(t, s).bytes)
  }

  /** The choice made inside `Total` does not matter: any scope can be split off first. */
  lemma {:induction false} TotalSplit(t: Table, scopes: set<string>, s: string)
    requires s in scopes
    ensures Total(t, scopes) ==
      Usage(Total(t, scopes - {s}).downloads + UsageOf(t, s).downloads, Total(t, scopes - {s}).bytes + UsageOf(t, s).bytes)
    decreases scopes
  {
    var x :| x in scopes && Total(t, scopes) ==
      Usage(Total(t, scopes - {x}).downloads + UsageOf(t, x).downloads, Total(t, scopes - {x}).bytes + UsageOf(t, x).bytes);
    if x != s {
      TotalSplit(t, scopes - {x}, s);
      TotalSplit(t, scopes - {s}, x);
      assert scopes - {x} - {s} == scopes - {s} - {x};
    }
  }

  lemma {:induction false} TotalFrame(t: Table, t': Table, scopes: set<string>)
    requires forall s | s in scopes :: UsageOf(t, s) == UsageOf(t', s)
    ensures Total(t, scopes) == Total(t', scopes)
    decreases scopes
  {
    if scopes != {} {
      var s :| s in scopes;
      TotalSplit(t, scopes, s);
      TotalSplit(t', scopes, s);
      TotalFrame(t, t', scopes - {s});
    }
  }

  lemma {:induction false} PartOfTotal(t: Table, scopes: set<string>, s: string)
    requires s in scopes
    ensures UsageOf(t, s).downloads <= Total(t, scopes).downloads && UsageOf(t, s).bytes <= Total(t, scopes).bytes
  {
    TotalSplit(t, scopes, s);
  }

  ghost function Keys(t: Table): set<string> {
    t.Keys - {PROVIDER}
  }

  /** Provider usage is the sum of all per-key usage. */
  ghost predicate Conserved(t: Table) {
    UsageOf(t, PROVIDER) == Total(t, Keys(t))
  }

  lemma ChargingAKey(t: Table, key: string, size: nat)
    requires key != PROVIDER
    ensures var t' := Charge(Charge(t, PROVIDER, size), key, size);
      && Keys(t') == Keys(t) + {key}
      && Total(t', Keys(t')) == Charged(Total(t, Keys(t)), size)
  {
    var t' := Charge(Charge(t, PROVIDER, size), key, size);
    var rest := Keys(t) - {key};
    assert Keys(t') - {key} == rest;
    TotalSplit(t', Keys(t'), key);
    TotalFrame(t, t', rest);
    if key in Keys(t) {
      TotalSplit(t, Keys(t), key);
    } else {
      assert rest == Keys(t);
    }
  }

  /** A granted reservation keeps provider usage equal to the per-key sum if and only if the
      key is not the literal scope name of the provider. */
  lemma ConservationNeedsKey(t: Table, limits: Limits, r: Request)
    requires Conserved(t) && Reserve(t, limits, r).error.None?
    ensures Conserved(Reserve(t, limits, r).table) <==> r.key != PROVIDER
  {
    var size := r.metadata.sizeBytes;
    if r.key != PROVIDER {
      ChargingAKey(t, r.key, size);
    } else {
      var t' := Charge(Charge(t, PROVIDER, size), PROVIDER, size);
      assert Keys(t') == Keys(t);
      TotalFrame(t, t', Keys(t));
    }
  }

  /** Such a reservation is granted to the provider's scope name whenever the provider's usage
      has room for it under both allowances, and it charges the provider twice. */
  lemma ProviderKeyDoubleCharges(t: Table, limits: Limits, m: Metadata, now: int)
    requires Conserved(t) && ValidMetadata(m) && now < m.expiresAt
    requires HasRoom(UsageOf(t, PROVIDER), m.sizeBytes, limits.maxDownloads, limits.maxBytes)
    requires HasRoom(UsageOf(t, PROVIDER), m.sizeBytes, m.maxDownloads, m.maxBytes)
    ensures var o := Reserve(t, limits, Request(PROVIDER, m, false, now));
      && o.error.None?
      && UsageOf(o.table, PROVIDER) == Charged(Charged(UsageOf(t, PROVIDER), m.sizeBytes), m.sizeBytes)
      && !Conserved(o.table)
  {
    ConservationNeedsKey(t, limits, Request(PROVIDER, m, false, now));
  }

  ghost predicate WithinLimits(t: Table, limits: Limits) {
    UsageOf(t, PROVIDER).downloads <= limits.maxDownloads && UsageOf(t, PROVIDER).bytes <= limits.maxBytes
  }

  /** A granted reservation leaves the provider within its limits if and only if the key is
      not the provider's scope name or the limits have room for two such downloads. */
  lemma LimitsNeedKey(t: Table, limits: Limits, r: Request)
    requires Reserve(t, limits, r).error.None?
    ensures var used, size := UsageOf(t, PROVIDER), r.metadata.sizeBytes;
      WithinLimits(Reserve(t, limits, r).table, limits) <==>
        || r.key != PROVIDER
        || (used.downloads + 2 <= limits.maxDownloads && used.bytes + 2 * size <= limits.maxBytes)
  {
  }

  /** One download charged as two: limits of one download and five bytes end at two and ten. */
  lemma ProviderKeyExceedsLimits()
    ensures var m := Metadata("a", "a/b", seq(64, _ => 'a'), 5, 1, 1, 5);
      var o := Reserve(map[], Limits(1, 5, 1), Request(PROVIDER, m, false, 0));
      && ValidLimits(Limits(1, 5, 1)) && ValidMetadata(m)
      && o.error.None? && o.table == map[PROVIDER := Usage(2, 10)]
      && !WithinLimits(o.table, Limits(1, 5, 1))
  {
    var m := Metadata("a", "a/b", seq(64, _ => 'a'), 5, 1, 1, 5);
    assert Slashes("a/b") == 1 by {
      assert "a/b"[1..] == "/b" && "/b"[1..] == "b" && "b"[1..] == "";
    }
    assert ValidFilename("a") && ValidMediaType("a/b") && ValidMetadata(m);
    LimitsNeedKey(map[], Limits(1, 5, 1), Request(PROVIDER, m, false, 0));
  }

  // ---------------------------------------------------------------- whole runs

  ghost function StateAt(limits: Limits, requests: seq<Request>, k: nat): Table
    requires k <= |requests|
  {
    if k == 0 then map[] else Reserve(StateAt(limits, requests, k - 1), limits, requests[k - 1]).table
  }

  ghost predicate ProperKeys(requests: seq<Request>) {
    forall i | 0 <= i < |requests| :: requests[i].key != PROVIDER
  }

  /** Granted reservations and the bytes they charged. */
  ghost function Granted(limits: Limits, requests: seq<Request>, k: nat): Usage
    requires k <= |requests|
  {
    if k == 0 then Usage(0, 0)
    else if Reserve(StateAt(limits, requests, k - 1), limits, requests[k - 1]).error.None?
    then Charged(Granted(limits, requests, k - 1), requests[k - 1].metadata.sizeBytes)
    else Granted(limits, requests, k - 1)
  }

  /** With fixed limits: provider usage counts exactly the granted reservations, equals the
      sum over all keys, and stays within the limits. */
  lemma {:induction false} AccountingIsConserved(limits: Limits, requests: seq<Request>, k: nat)
    requires k <= |requests| && ValidLimits(limits) && ProperKeys(requests)
    ensures var t := StateAt(limits, requests, k);
      && Conserved(t)
      && UsageOf(t, PROVIDER) == Granted(limits, requests, k)
      && UsageOf(t, PROVIDER).downloads <= limits.maxDownloads
      && UsageOf(t, PROVIDER).bytes <= limits.maxBytes
  {
    if k > 0 {
      AccountingIsConserved(limits, requests, k - 1);
      var t := StateAt(limits, requests, k - 1);
      if Reserve(t, limits, requests[k - 1]).error.None? {
        ConservationNeedsKey(t, limits, requests[k - 1]);
      }
    }
  }

  ghost predicate GrantedAt(limits: Limits, requests: seq<Request>, i: nat)
    requires i < |requests|
  {
    Reserve(StateAt(limits, requests, i), limits, requests[i]).error.None?
  }

  /** The books balanced after each of the first `k` requests. */
  ghost predicate Balanced(limits: Limits, requests: seq<Request>, k: nat)
    requires k <= |requests|
  {
    forall j | 0 <= j <= k :: Conserved(StateAt(limits, requests, j))
  }

  /** Over a whole run: the books balance after every request if and only if no reservation
      was granted to the provider's scope name. */
  lemma {:induction false} ConservedExactlyWithProperKeys(limits: Limits, requests: seq<Request>, k: nat)
    requires k <= |requests|
    ensures Balanced(limits, requests, k) <==>
      forall i | 0 <= i < k && GrantedAt(limits, requests, i) :: requests[i].key != PROVIDER
  {
    if k == 0 {
      assert StateAt(limits, requests, 0) == map[];
      assert Keys(map[]) == {};
    } else {
      ConservedExactlyWithProperKeys(limits, requests, k - 1);
      BalanceStep(limits, requests, k);
    }
  }

  lemma BalanceStep(limits: Limits, requests: seq<Request>, k: nat)
    requires 0 < k <= |requests|
    ensures Balanced(limits, requests, k) <==>
      && Balanced(limits, requests, k - 1)
      && (GrantedAt(limits, requests, k - 1) ==> requests[k - 1].key != PROVIDER)
  {
    var t, t' := StateAt(limits, requests, k - 1), StateAt(limits, requests, k);
    assert t' == Reserve(t, limits, requests[k - 1]).table;
    if Conserved(t) && GrantedAt(limits, requests, k - 1) {
      ConservationNeedsKey(t, limits, requests[k - 1]);
    }
    assert Balanced(limits, requests, k) <==> Balanced(limits, requests, k - 1) && Conserved(t');
  }

  /** What the granted ones among the first `k` requests charged to a key. */
  ghost function GrantedTo(limits: Limits, requests: seq<Request>, k: nat, key: string): Usage
    requires k <= |requests|
  {
    if k == 0 then Usage(0, 0)
    else
      var before := GrantedTo(limits, requests, k - 1, key);
      if requests[k - 1].key == key && GrantedAt(limits, requests, k - 1)
      then Usage(before.downloads + 1, before.bytes + requests[k - 1].metadata.sizeBytes)
      else before
  }

  lemma {:induction false} KeyUsageIsGranted(limits: Limits, requests: seq<Request>, k: nat, key: string)
    requires k <= |requests| && key != PROVIDER && ProperKeys(requests)
    ensures UsageOf(StateAt(limits, requests, k), key) == GrantedTo(limits, requests, k, key)
  {
    if k > 0 {
      KeyUsageIsGranted(limits, requests, k - 1, key);
    }
  }

  /** One more download of this size stays within an allowance. */
  ghost predicate Allows(used: Usage, size: nat, maxDownloads: nat, maxBytes: nat) {
    used.downloads + 1 <= maxDownloads && used.bytes + size <= maxBytes
  }

  /** A reservation is answered by the requests before it: refused while the provider is
      paused, for invalid metadata, after the expiry, or when what was granted so far, in all
      or for this key, leaves no room; else granted. The overflow test never decides. */
  lemma ReservationIsAnsweredExactly(limits: Limits, requests: seq<Request>, k: nat)
    requires k < |requests| && ValidLimits(limits) && ProperKeys(requests)
    ensures var r := requests[k];
      var m := r.metadata;
      Reserve(StateAt(limits, requests, k), limits, r).error ==
        if r.paused then Some(ProviderPaused)
        else if !ValidMetadata(m) then Some(InvalidMetadata)
        else if m.expiresAt <= r.now then Some(Expired)
        else if Allows(Granted(limits, requests, k), m.sizeBytes, limits.maxDownloads, limits.maxBytes) &&
                Allows(GrantedTo(limits, requests, k, r.key), m.sizeBytes, m.maxDownloads, m.maxBytes)
        then None
        else Some(Exhausted)
  {
    AccountingIsConserved(limits, requests, k);
    KeyUsageIsGranted(limits, requests, k, requests[k].key);
  }

  /** No stored counter can leave the range of an SQLite integer. */
  lemma CountersFitSqlite(limits: Limits, requests: seq<Request>, k: nat, scope: string)
    requires k <= |requests| && ValidLimits(limits) && ProperKeys(requests)
    requires scope in StateAt(limits, requests, k)
    ensures StateAt(limits, requests, k)[scope].downloads <= limits.maxDownloads <= I64_MAX
    ensures StateAt(limits, requests, k)[scope].bytes <= limits.maxBytes <= I64_MAX
  {
    AccountingIsConserved(limits, requests, k);
    var t := StateAt(limits, requests, k);
    if scope != PROVIDER {
      PartOfTotal(t, Keys(t), scope);
    }
  }

  /** When a key always comes with the same metadata, its usage also stays within the
      allowance published with the file. */
  lemma {:induction false} KeysStayWithinOwnAllowance(
    limits: Limits, requests: seq<Request>, k: nat, key: string, m: Metadata)
    requires k <= |requests| && key != PROVIDER
    requires forall i | 0 <= i < |requests| && requests[i].key == key :: requests[i].metadata == m
    ensures UsageOf(StateAt(limits, requests, k), key).downloads <= m.maxDownloads
    ensures UsageOf(StateAt(limits, requests, k), key).bytes <= m.maxBytes
  {
    if k > 0 {
      KeysStayWithinOwnAllowance(limits, requests, k - 1, key, m);
    }
  }
}
