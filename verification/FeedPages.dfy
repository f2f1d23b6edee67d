/** Reading the feed: cursor walks over a growing feed, and the public page scanned out of it. */
module FeedPages {
  import opened Common
  import opened Feed

  // ---------------------------------------------------------------- cursor walks

  /** What a client sees page after page: each page is read from the snapshot of its moment,
      starting after the last row of the page before, until a page says there is no more. */
  ghost function Walk(snapshots: seq<seq<Record>>, limits: seq<nat>, cursor: int): seq<Record>
    requires |snapshots| == |limits|
    decreases |snapshots|
  {
    if snapshots == [] then []
    else
      var page := PageAfter(snapshots[0], cursor, limits[0]);
      if page.hasMore
      then page.records + Walk(snapshots[1..], limits[1..], page.records[|page.records| - 1].sequence)
      else page.records
  }

  /** Some page of the walk reported that there is no more. */
  ghost predicate Finished(snapshots: seq<seq<Record>>, limits: seq<nat>, cursor: int)
    requires |snapshots| == |limits|
    decreases |snapshots|
  {
    && snapshots != []
    && var page := PageAfter(snapshots[0], cursor, limits[0]);
       page.hasMore ==> Finished(snapshots[1..], limits[1..], page.records[|page.records| - 1].sequence)
  }

  /** Snapshots of a feed that only has rows appended. */
  ghost predicate Growing(snapshots: seq<seq<Record>>) {
    && (forall i | 0 <= i < |snapshots| :: AscendingRecords(snapshots[i]))
    && (forall i, j | 0 <= i < j < |snapshots| :: snapshots[i] <= snapshots[j])
  }

  /** A page that is not the last one splits the rows of any later snapshot: the page, then
      the rows past its last row. */
  lemma PageSplits(records: seq<Record>, later: seq<Record>, cursor: int, limit: nat)
    requires records <= later && AscendingRecords(later)
    requires PageAfter(records, cursor, limit).hasMore
    ensures var page := PageAfter(records, cursor, limit).records;
      page != [] && Past(later, cursor) == page + Past(later, page[|page| - 1].sequence)
  {
    var page := PageAfter(records, cursor, limit).records;
    PastGrows(records, later, cursor);
    assert Past(later, cursor)[..|page|] == page;
    PastComposes(later, cursor, |page|);
  }

  /** What the walk collects is a prefix of the rows past the cursor in the last snapshot:
      every row once, in order, none skipped. */
  lemma {:induction false} WalkSkipsNothing(snapshots: seq<seq<Record>>, limits: seq<nat>, cursor: int)
    requires |snapshots| == |limits| && snapshots != [] && Growing(snapshots)
    ensures Walk(snapshots, limits, cursor) <= Past(snapshots[|snapshots| - 1], cursor)
    decreases |snapshots|
  {
    var final := snapshots[|snapshots| - 1];
    var page := PageAfter(snapshots[0], cursor, limits[0]);
    if page.hasMore {
      PageSplits(snapshots[0], final, cursor, limits[0]);
      if |snapshots| > 1 {
        WalkSkipsNothing(snapshots[1..], limits[1..], page.records[|page.records| - 1].sequence);
      }
    } else {
      PastGrows(snapshots[0], final, cursor);
    }
  }

  /** A walk that ran to its end, or for as many pages as there were rows at its start, has
      returned at least as many rows as were there at its start. */
  lemma {:induction false} WalkReachesStart(snapshots: seq<seq<Record>>, limits: seq<nat>, cursor: int)
    requires |snapshots| == |limits| && Growing(snapshots) && snapshots != []
    ensures Finished(snapshots, limits, cursor) ==>
      |Walk(snapshots, limits, cursor)| >= |Past(snapshots[0], cursor)|
    ensures !Finished(snapshots, limits, cursor) ==> |Walk(snapshots, limits, cursor)| >= |snapshots|
    decreases |snapshots|
  {
    var page := PageAfter(snapshots[0], cursor, limits[0]);
    if page.hasMore && |snapshots| > 1 {
      PageSplits(snapshots[0], snapshots[1], cursor, limits[0]);
      PastGrows(snapshots[0], snapshots[1], cursor);
      assert snapshots[1..][0] == snapshots[1];
      WalkReachesStart(snapshots[1..], limits[1..], page.records[|page.records| - 1].sequence);
    } else if page.hasMore {
      assert !Finished(snapshots, limits, cursor);
    }
  }

  /** Page `i` of a walk is read after `times[i]` inserts of the run. */
  ghost predicate ReadDuring(inserts: seq<Insert>, times: seq<nat>, snapshots: seq<seq<Record>>) {
    && |snapshots| == |times|
    && (forall i | 0 <= i < |times| :: times[i] <= |inserts|)
    && (forall i, j | 0 <= i < j < |times| :: times[i] <= times[j])
    && (forall i | 0 <= i < |times| :: snapshots[i] == Records(StateAt(inserts, times[i])))
  }

  lemma SnapshotsGrow(inserts: seq<Insert>, times: seq<nat>, snapshots: seq<seq<Record>>)
    requires ReadDuring(inserts, times, snapshots)
    ensures Growing(snapshots)
  {
    forall i | 0 <= i < |times| ensures AscendingRecords(snapshots[i]) {
      RecordsOfRun(inserts, times[i], times[i]);
    }
    forall i, j | 0 <= i < j < |times| ensures snapshots[i] <= snapshots[j] {
      RecordsOfRun(inserts, times[i], times[j]);
    }
  }

  lemma PrefixesNest<T>(a: seq<T>, b: seq<T>, whole: seq<T>)
    requires a <= whole && b <= whole && |a| <= |b|
    ensures a <= b
  {
  }

  /** A walk over a growing feed: every row once, in order, none skipped; and all the rows of
      its start once it finished or read one page per such row. */
  lemma WalkIsExact(snapshots: seq<seq<Record>>, limits: seq<nat>, cursor: int)
    requires |snapshots| == |limits| && snapshots != [] && Growing(snapshots)
    ensures Walk(snapshots, limits, cursor) <= Past(snapshots[|snapshots| - 1], cursor)
    ensures Finished(snapshots, limits, cursor) || |snapshots| >= |Past(snapshots[0], cursor)| ==>
      Past(snapshots[0], cursor) <= Walk(snapshots, limits, cursor)
    ensures |snapshots| > |Past(snapshots[|snapshots| - 1], cursor)| ==> Finished(snapshots, limits, cursor)
  {
    var final := snapshots[|snapshots| - 1];
    WalkSkipsNothing(snapshots, limits, cursor);
    WalkReachesStart(snapshots, limits, cursor);
    PastGrows(snapshots[0], final, cursor);
    if |Past(snapshots[0], cursor)| <= |Walk(snapshots, limits, cursor)| {
      PrefixesNest(Past(snapshots[0], cursor), Walk(snapshots, limits, cursor), Past(final, cursor));
    }
  }

  /** Appends between pages do not matter: a cursor walk over any run of inserts, with any
      page limits, returns every entry present at its start exactly once and in order, once
      it finishes or has read one page per such entry. It has finished once it read more
      pages than there are entries. */
  lemma WalkReturnsEveryEntry(
    inserts: seq<Insert>, times: seq<nat>, snapshots: seq<seq<Record>>, limits: seq<nat>, cursor: int)
    requires ReadDuring(inserts, times, snapshots) && |times| == |limits| && times != []
    ensures var start, final := StateAt(inserts, times[0]), StateAt(inserts, times[|times| - 1]);
      && Walk(snapshots, limits, cursor) <= Past(Records(final), cursor)
      && (Finished(snapshots, limits, cursor) || |times| >= |Past(Records(start), cursor)| ==>
            Past(Records(start), cursor) <= Walk(snapshots, limits, cursor))
      && (|times| > |Past(Records(final), cursor)| ==> Finished(snapshots, limits, cursor))
  {
    SnapshotsGrow(inserts, times, snapshots);
    WalkIsExact(snapshots, limits, cursor);
  }

  // ---------------------------------------------------------------- the public page

  /** The public rows, in order. */
  function Public(rows: seq<Record>, isPublic: Record -> bool): (r: seq<Record>)
    ensures |r| <= |rows|
  {
    if rows == [] then []
    else
      var rest := Public(rows[..|rows| - 1], isPublic);
      if isPublic(rows[|rows| - 1]) then rest + [rows[|rows| - 1]] else rest
  }

  /** A public page of `rows`: it covers the first `cut` rows, returns their public ones, and
      stops early only in front of a public row that no longer fits. */
  ghost predicate PublicPage(
    rows: seq<Record>, isPublic: Record -> bool, size: nat, artifacts: seq<Record>, hasMore: bool, cut: nat)
  {
    && cut <= |rows|
    && artifacts == Public(rows[..cut], isPublic)
    && |artifacts| <= size
    && (if hasMore then cut < |rows| && isPublic(rows[cut]) && |artifacts| == size else cut == |rows|)
  }

  /** `hasMore` says exactly whether a public row is left, and the page is as full as it can be. */
  lemma {:induction false} PublicPageIsFull(
    rows: seq<Record>, isPublic: Record -> bool, size: nat, artifacts: seq<Record>, hasMore: bool, cut: nat)
    requires PublicPage(rows, isPublic, size, artifacts, hasMore, cut)
    ensures hasMore <==> |Public(rows, isPublic)| > size
    ensures artifacts == Public(rows, isPublic)[..Min(size, |Public(rows, isPublic)|)]
    decreases |rows|
  {
    if hasMore {
      assert rows[..cut + 1][..cut] == rows[..cut];
      assert Public(rows[..cut + 1], isPublic) == artifacts + [rows[cut]];
      PublicOfPrefix(rows, isPublic, cut + 1);
    } else {
      assert rows[..cut] == rows;
    }
  }

  lemma {:induction false} PublicOfPrefix(rows: seq<Record>, isPublic: Record -> bool, n: nat)
    requires n <= |rows|
    ensures Public(rows[..n], isPublic) <= Public(rows, isPublic)
    decreases |rows|
  {
    if n == |rows| {
      assert rows[..n] == rows;
    } else {
      PublicOfPrefix(rows[..|rows| - 1], isPublic, n);
      assert rows[..|rows| - 1][..n] == rows[..n];
    }
  }

  lemma {:induction false} PublicSplits(rows: seq<Record>, isPublic: Record -> bool, n: nat)
    requires n <= |rows|
    ensures Public(rows, isPublic) == Public(rows[..n], isPublic) + Public(rows[n..], isPublic)
    decreases |rows| - n
  {
    if n < |rows| {
      var init := rows[..|rows| - 1];
      PublicSplits(init, isPublic, n);
      assert init[..n] == rows[..n];
      assert init[n..] == rows[n..][..|rows| - 1 - n];
    } else {
      assert rows[..n] == rows && rows[n..] == [];
    }
  }

  // ---------------------------------------------------------------- the scan of one request

  /** The variables of the scan: rows kept, the cursor of the last row looked at, the cursor
      to resume from, and the three flags. */
  datatype Scan = Scan(artifacts: seq<Record>, at: int, next: int, advanced: bool, pageFull: bool, hasMore: bool)

  /** `cut` rows are accounted for; the scan has stopped early exactly in front of a public
      row that no longer fits. */
  ghost predicate Scanned(rows: seq<Record>, cursor: int, isPublic: Record -> bool, size: nat, s: Scan, cut: nat) {
    && cut <= |rows|
    && s.artifacts == Public(rows[..cut], isPublic)
    && |s.artifacts| <= size
    && (s.pageFull <==> |s.artifacts| == size)
    && (s.advanced <==> cut > 0)
    && s.next == (if cut == 0 then cursor else rows[cut - 1].sequence)
    && (if s.hasMore then cut < |rows| && isPublic(rows[cut]) && s.pageFull else s.at == s.next)
  }

  /** One row of the scan. */
  function ScanRow(s: Scan, row: Record, isPublic: Record -> bool, size: nat): Scan {
    if s.pageFull then
      if isPublic(row) then s.(at := row.sequence, advanced := true, hasMore := true)
      else s.(at := row.sequence, advanced := true, next := row.sequence)
    else if isPublic(row) then
      Scan(s.artifacts + [row], row.sequence, row.sequence, true, |s.artifacts| + 1 == size, false)
    else s.(at := row.sequence, advanced := true, next := row.sequence)
  }

  lemma ScanRowAdvances(
    rows: seq<Record>, cursor: int, isPublic: Record -> bool, size: nat, s: Scan, cut: nat)
    requires Scanned(rows, cursor, isPublic, size, s, cut) && !s.hasMore && cut < |rows| && size > 0
    ensures var s' := ScanRow(s, rows[cut], isPublic, size);
      Scanned(rows, cursor, isPublic, size, s', if s'.hasMore then cut else cut + 1)
  {
    assert rows[..cut + 1][..cut] == rows[..cut];
  }

  /** The rows of one raw page, up to the row that shows there is more. */
  method ScanBatch(
    batch: seq<Record>, s: Scan, isPublic: Record -> bool, size: nat,
    ghost rows: seq<Record>, ghost cursor: int, ghost cut: nat)
    returns (s': Scan, ghost cut': nat)
    requires Scanned(rows, cursor, isPublic, size, s, cut) && !s.hasMore && size > 0 && batch <= rows[cut..]
    ensures Scanned(rows, cursor, isPublic, size, s', cut')
    ensures !s'.hasMore ==> cut' == cut + |batch|
  {
    s', cut' := s, cut;
    var i := 0;
    while i < |batch| && !s'.hasMore
      invariant i <= |batch| && Scanned(rows, cursor, isPublic, size, s', cut')
      invariant !s'.hasMore ==> cut' == cut + i
    {
      assert batch[i] == rows[cut'];
      ScanRowAdvances(rows, cursor, isPublic, size, s', cut');
      s' := ScanRow(s', batch[i], isPublic, size);
      if !s'.hasMore {
        cut' := cut' + 1;
      }
      i := i + 1;
    }
  }

  /** Appends past the rows accounted for do not disturb a scan. */
  lemma ScannedGrows(
    rows: seq<Record>, longer: seq<Record>, cursor: int, isPublic: Record -> bool, size: nat, s: Scan, cut: nat)
    requires Scanned(rows, cursor, isPublic, size, s, cut) && !s.hasMore && rows <= longer
    ensures Scanned(longer, cursor, isPublic, size, s, cut)
  {
    assert longer[..cut] == rows[..cut];
  }

  /** The next raw page starts right after the rows accounted for. */
  lemma ScanResumes(records: seq<Record>, cursor: int, isPublic: Record -> bool, size: nat, s: Scan, cut: nat)
    requires AscendingRecords(records) && !s.hasMore
    requires Scanned(Past(records, cursor), cursor, isPublic, size, s, cut)
    ensures Past(records, s.at) == Past(records, cursor)[cut..]
  {
    if cut > 0 {
      PastComposes(records, cursor, cut);
    }
  }

  lemma RecordsAscend(t: Tables)
    requires Inv(t)
    ensures AscendingRecords(Records(t))
  {
    JoinIsComplete(t.feed, t.documents);
  }

  /** Inserts that other tasks commit, one after the other. */
  function StoredEach(t: Tables, inserts: seq<Insert>): Tables {
    if inserts == [] then t else Stored(StoredEach(t, inserts[..|inserts| - 1]), inserts[|inserts| - 1])
  }

  /** The tables after some groups of such inserts. */
  function AfterArrivals(t: Tables, arrivals: seq<seq<Insert>>): Tables {
    if arrivals == [] then t
    else StoredEach(AfterArrivals(t, arrivals[..|arrivals| - 1]), arrivals[|arrivals| - 1])
  }

  lemma {:induction false} StoredEachGrows(t: Tables, inserts: seq<Insert>)
    requires Inv(t)
    ensures Inv(StoredEach(t, inserts)) && Grows(t, StoredEach(t, inserts))
  {
    if inserts != [] {
      var before := StoredEach(t, inserts[..|inserts| - 1]);
      StoredEachGrows(t, inserts[..|inserts| - 1]);
      StoredKeepsInv(before, inserts[|inserts| - 1]);
      StoredGrows(before, inserts[|inserts| - 1]);
      GrowsTransitive(t, before, Stored(before, inserts[|inserts| - 1]));
    }
  }

  method CommitEach(store: ArtifactStore, inserts: seq<Insert>)
    modifies store
    ensures store.View() == StoredEach(old(store.View()), inserts)
  {
    for i := 0 to |inserts|
      invariant store.View() == StoredEach(old(store.View()), inserts[..i])
    {
      assert inserts[..i + 1][..i] == inserts[..i];
      store.InsertDocument(inserts[i].hash, inserts[i].document, inserts[i].gap);
    }
    assert inserts[..|inserts|] == inserts;
  }

  /** The answer to one request: a public page of the listing, and the cursor of the last row
      it accounts for. */
  ghost predicate PublicAnswer(
    records: seq<Record>, cursor: int, isPublic: Record -> bool, size: nat,
    artifacts: seq<Record>, hasMore: bool, nextCursor: Option<int>)
  {
    exists cut: nat :: AnswerAt(records, cursor, isPublic, size, artifacts, hasMore, nextCursor, cut)
  }

  ghost predicate AnswerAt(
    records: seq<Record>, cursor: int, isPublic: Record -> bool, size: nat,
    artifacts: seq<Record>, hasMore: bool, nextCursor: Option<int>, cut: nat)
  {
    var rows := Past(records, cursor);
    && PublicPage(rows, isPublic, size, artifacts, hasMore, cut)
    && nextCursor == (if cut == 0 then None else Some(rows[cut - 1].sequence))
  }

  /** The rows past the cursor of a request. */
  function RowsPast(t: Tables, cursor: int): seq<Record> {
    Past(Records(t), cursor)
  }

  /** Read one raw page of 100 rows and scan it; `done` when the loop stops after it. */
  method ScanPage(
    store: ArtifactStore, cursor: int, isPublic: Record -> bool, size: nat, s: Scan, ghost cut: nat)
    returns (s': Scan, done: bool, ghost cut': nat)
    requires Inv(store.View()) && size > 0 && !s.hasMore
    requires Scanned(RowsPast(store.View(), cursor), cursor, isPublic, size, s, cut)
    ensures Scanned(RowsPast(store.View(), cursor), cursor, isPublic, size, s', cut')
    ensures if done then s'.hasMore || cut' == |RowsPast(store.View(), cursor)| else !s'.hasMore && cut < cut'
  {
    ghost var rows := RowsPast(store.View(), cursor);
    RecordsAscend(store.View());
    ScanResumes(Records(store.View()), cursor, isPublic, size, s, cut);
    var batch := store.ListArtifacts(Some(s.at), 100);
    s', cut' := s, cut;
    if batch.records == [] {
      done := true;
    } else {
      s', cut' := ScanBatch(batch.records, s, isPublic, size, rows, cursor, cut);
      done := s'.hasMore || !batch.hasMore;
    }
  }

  /** Other tasks commit between two raw pages; the scan so far stays valid. */
  method CommitDuring(
    store: ArtifactStore, inserts: seq<Insert>,
    ghost cursor: int, ghost isPublic: Record -> bool, ghost size: nat, ghost s: Scan, ghost cut: nat)
    requires Inv(store.View()) && !s.hasMore
    requires Scanned(RowsPast(store.View(), cursor), cursor, isPublic, size, s, cut)
    modifies store
    ensures Inv(store.View()) && store.View() == StoredEach(old(store.View()), inserts)
    ensures Scanned(RowsPast(store.View(), cursor), cursor, isPublic, size, s, cut)
  {
    ghost var before := store.View();
    CommitEach(store, inserts);
    ghost var after := store.View();
    StoredEachGrows(before, inserts);
    RecordsGrow(before, after);
    PastGrows(Records(before), Records(after), cursor);
    ScannedGrows(RowsPast(before, cursor), RowsPast(after, cursor), cursor, isPublic, size, s, cut);
  }

  function StartScan(cursor: int): Scan {
    Scan([], cursor, cursor, false, false, false)
  }

  lemma ScanStarts(rows: seq<Record>, cursor: int, isPublic: Record -> bool, size: nat)
    requires size > 0
    ensures Scanned(rows, cursor, isPublic, size, StartScan(cursor), 0)
  {
  }

  lemma ScanAnswers(records: seq<Record>, cursor: int, isPublic: Record -> bool, size: nat, s: Scan, cut: nat)
    requires Scanned(Past(records, cursor), cursor, isPublic, size, s, cut)
    requires s.hasMore || cut == |Past(records, cursor)|
    ensures PublicAnswer(
      records, cursor, isPublic, size, s.artifacts, s.hasMore, if s.advanced then Some(s.next) else None)
  {
    assert AnswerAt(
      records, cursor, isPublic, size, s.artifacts, s.hasMore, if s.advanced then Some(s.next) else None, cut);
  }

  lemma ArrivalsSnoc(t: Tables, arrivals: seq<seq<Insert>>, n: nat)
    requires n < |arrivals|
    ensures AfterArrivals(t, arrivals[..n + 1]) == StoredEach(AfterArrivals(t, arrivals[..n]), arrivals[n])
  {
    assert arrivals[..n + 1][..n] == arrivals[..n];
  }

  /** Scan the feed in raw pages of 100 and keep the public rows, advancing the cursor past
      hidden rows but never past a public row that was not returned. Each raw page is read by
      its own statement; `arrivals` are the inserts that other tasks commit between them. */
  method ScanFeed(
    store: ArtifactStore, cursor: int, limit: nat, isPublic: Record -> bool, arrivals: seq<seq<Insert>>)
    returns (artifacts: seq<Record>, hasMore: bool, nextCursor: Option<int>, ghost seen: nat)
    requires Inv(store.View())
    modifies store
    ensures seen <= |arrivals| && store.View() == AfterArrivals(old(store.View()), arrivals[..seen])
    ensures Inv(store.View())
    ensures PublicAnswer(
      Records(store.View()), cursor, isPublic, Clamp(limit, 1, 100), artifacts, hasMore, nextCursor)
  {
    var size := Clamp(limit, 1, 100);
    var scan := StartScan(cursor);
    ghost var cut := 0;
    var commits, done := 0, false;
    ScanStarts(RowsPast(store.View(), cursor), cursor, isPublic, size);
    while !done
      invariant commits <= |arrivals| && store.View() == AfterArrivals(old(store.View()), arrivals[..commits])
      invariant Inv(store.View())
      invariant Scanned(RowsPast(store.View(), cursor), cursor, isPublic, size, scan, cut)
      invariant if done then scan.hasMore || cut == |RowsPast(store.View(), cursor)| else !scan.hasMore
      decreases !done, |arrivals| - commits, |RowsPast(store.View(), cursor)| - cut
    {
      scan, done, cut := ScanPage(store, cursor, isPublic, size, scan, cut);
      if !done && commits < |arrivals| {
        CommitDuring(store, arrivals[commits], cursor, isPublic, size, scan, cut);
        ArrivalsSnoc(old(store.View()), arrivals, commits);
        commits := commits + 1;
      }
    }
    seen := commits;
    artifacts, hasMore := scan.artifacts, scan.hasMore;
    nextCursor := if scan.advanced then Some(scan.next) else None;
    ScanAnswers(Records(store.View()), cursor, isPublic, size, scan, cut);
  }

  /** What an answer means: the first public rows past the cursor, whether there are more, and
      a cursor from which the next request continues without repeating or losing a public row,
      in the same listing and in every longer one. */
  lemma AnswerIsExact(
    records: seq<Record>, later: seq<Record>, cursor: int, isPublic: Record -> bool, size: nat,
    artifacts: seq<Record>, hasMore: bool, nextCursor: Option<int>)
    requires AscendingRecords(later) && records <= later && size > 0
    requires PublicAnswer(records, cursor, isPublic, size, artifacts, hasMore, nextCursor)
    ensures var public := Public(Past(records, cursor), isPublic);
      && artifacts == public[..Min(size, |public|)]
      && (hasMore <==> |public| > size)
    ensures nextCursor.None? <==> Past(records, cursor) == []
    ensures Public(Past(later, cursor), isPublic) == artifacts + Public(Past(later, Resume(cursor, nextCursor)), isPublic)
    ensures !hasMore ==> Past(records, Resume(cursor, nextCursor)) == []
  {
    var cut: nat :| AnswerAt(records, cursor, isPublic, size, artifacts, hasMore, nextCursor, cut);
    PublicPageIsFull(Past(records, cursor), isPublic, size, artifacts, hasMore, cut);
    AnswerResumes(records, later, cursor, isPublic, size, artifacts, hasMore, nextCursor, cut);
    AnswerResumes(records, records, cursor, isPublic, size, artifacts, hasMore, nextCursor, cut);
  }

  /** Past the returned cursor, in any longer listing, lie exactly the rows not accounted for. */
  lemma AnswerResumes(
    records: seq<Record>, later: seq<Record>, cursor: int, isPublic: Record -> bool, size: nat,
    artifacts: seq<Record>, hasMore: bool, nextCursor: Option<int>, cut: nat)
    requires AscendingRecords(later) && records <= later
    requires AnswerAt(records, cursor, isPublic, size, artifacts, hasMore, nextCursor, cut)
    ensures cut <= |Past(later, cursor)|
    ensures Past(later, Resume(cursor, nextCursor)) == Past(later, cursor)[cut..]
    ensures Public(Past(later, cursor), isPublic) == artifacts + Public(Past(later, cursor)[cut..], isPublic)
  {
    var rows, all := Past(records, cursor), Past(later, cursor);
    PastGrows(records, later, cursor);
    assert all[..cut] == rows[..cut];
    PublicSplits(all, isPublic, cut);
    if cut > 0 {
      assert all[cut - 1] == rows[cut - 1];
      PastComposes(later, cursor, cut);
    }
  }

  /** The cursor of the next request: a client keeps its own when none is returned. */
  function Resume(cursor: int, nextCursor: Option<int>): int {
    if nextCursor.Some? then nextCursor.value else cursor
  }

  /** One request against a store that other tasks keep appending to. */
  method ListPublic(
    store: ArtifactStore, cursor: int, limit: nat, isPublic: Record -> bool, arrivals: seq<seq<Insert>>)
    returns (artifacts: seq<Record>, hasMore: bool, nextCursor: Option<int>)
    requires Inv(store.View())
    modifies store
    ensures Inv(store.View()) && Records(old(store.View())) <= Records(store.View())
    ensures var records, size := Records(store.View()), Clamp(limit, 1, 100);
      var public := Public(Past(records, cursor), isPublic);
      && artifacts == public[..Min(size, |public|)]
      && (hasMore <==> |public| > size)
      && public == artifacts + Public(Past(records, Resume(cursor, nextCursor)), isPublic)
      && PublicAnswer(records, cursor, isPublic, size, artifacts, hasMore, nextCursor)
  {
    ghost var before := store.View();
    ghost var seen;
    artifacts, hasMore, nextCursor, seen := ScanFeed(store, cursor, limit, isPublic, arrivals);
    ArrivalsGrow(before, arrivals[..seen]);
    RecordsGrow(before, store.View());
    ghost var records := Records(store.View());
    AnswerIsExact(records, records, cursor, isPublic, Clamp(limit, 1, 100), artifacts, hasMore, nextCursor);
  }

  lemma {:induction false} ArrivalsGrow(t: Tables, arrivals: seq<seq<Insert>>)
    requires Inv(t)
    ensures Inv(AfterArrivals(t, arrivals)) && Grows(t, AfterArrivals(t, arrivals))
  {
    if arrivals != [] {
      var before, last := AfterArrivals(t, arrivals[..|arrivals| - 1]), arrivals[|arrivals| - 1];
      ArrivalsGrow(t, arrivals[..|arrivals| - 1]);
      StoredEachGrows(before, last);
      GrowsTransitive(t, before, StoredEach(before, last));
    }
  }

  // ---------------------------------------------------------------- walks over public pages

  /** One request of a client and the listing its last raw page was read from. */
  datatype PublicRead = PublicRead(
    records: seq<Record>, size: nat, artifacts: seq<Record>, hasMore: bool, nextCursor: Option<int>)

  /** Each request starts from the cursor that the one before returned. */
  ghost predicate PublicWalk(pages: seq<PublicRead>, isPublic: Record -> bool, cursor: int) {
    pages != [] ==>
      var r := pages[0];
      && r.size > 0
      && PublicAnswer(r.records, cursor, isPublic, r.size, r.artifacts, r.hasMore, r.nextCursor)
      && PublicWalk(pages[1..], isPublic, Resume(cursor, r.nextCursor))
  }

  ghost function Returned(pages: seq<PublicRead>): seq<Record> {
    if pages == [] then [] else pages[0].artifacts + Returned(pages[1..])
  }

  ghost function WalkEnd(pages: seq<PublicRead>, cursor: int): int {
    if pages == [] then cursor else WalkEnd(pages[1..], Resume(cursor, pages[0].nextCursor))
  }

  /** Every listing read is a beginning of `final`. */
  ghost predicate ReadFrom(pages: seq<PublicRead>, final: seq<Record>) {
    forall i | 0 <= i < |pages| :: pages[i].records <= final
  }

  /** At any point of a walk, the public rows of the feed are exactly those returned so far,
      in order, followed by those past the current cursor. */
  lemma {:induction false} PublicWalkLosesNothing(
    pages: seq<PublicRead>, isPublic: Record -> bool, cursor: int, final: seq<Record>)
    requires PublicWalk(pages, isPublic, cursor) && ReadFrom(pages, final) && AscendingRecords(final)
    ensures Public(Past(final, cursor), isPublic) ==
      Returned(pages) + Public(Past(final, WalkEnd(pages, cursor)), isPublic)
    decreases |pages|
  {
    if pages != [] {
      var r := pages[0];
      AnswerIsExact(r.records, final, cursor, isPublic, r.size, r.artifacts, r.hasMore, r.nextCursor);
      PublicWalkLosesNothing(pages[1..], isPublic, Resume(cursor, r.nextCursor), final);
      Associative(r.artifacts, Returned(pages[1..]), Public(Past(final, WalkEnd(pages, cursor)), isPublic));
    }
  }

  lemma Associative<T>(a: seq<T>, b: seq<T>, c: seq<T>)
    ensures a + (b + c) == (a + b) + c
  {
  }

  lemma {:induction false} LastReadExhausts(
    pages: seq<PublicRead>, isPublic: Record -> bool, cursor: int, final: seq<Record>)
    requires PublicWalk(pages, isPublic, cursor) && AscendingRecords(final)
    requires pages != [] && pages[|pages| - 1].records == final && !pages[|pages| - 1].hasMore
    ensures Past(final, WalkEnd(pages, cursor)) == []
    decreases |pages|
  {
    var r := pages[0];
    if |pages| == 1 {
      AnswerIsExact(r.records, final, cursor, isPublic, r.size, r.artifacts, r.hasMore, r.nextCursor);
      assert pages[1..] == [];
    } else {
      LastReadExhausts(pages[1..], isPublic, Resume(cursor, r.nextCursor), final);
    }
  }

  lemma {:induction false} EveryReadReturns(
    pages: seq<PublicRead>, isPublic: Record -> bool, cursor: int, final: seq<Record>)
    requires PublicWalk(pages, isPublic, cursor) && ReadFrom(pages, final) && AscendingRecords(final)
    requires forall i | 0 <= i < |pages| :: pages[i].hasMore
    ensures |Returned(pages)| >= |pages|
    decreases |pages|
  {
    if pages != [] {
      var r := pages[0];
      AnswerIsExact(r.records, final, cursor, isPublic, r.size, r.artifacts, r.hasMore, r.nextCursor);
      EveryReadReturns(pages[1..], isPublic, Resume(cursor, r.nextCursor), final);
    }
  }

  /** A walk over public pages, with appends between requests and within them: what it has
      returned are the first public rows, each once and in order; when its last page says
      there is no more, it has returned all of them; and it gets there, since a walk in which
      every page said there is more has read fewer pages than there are public rows. */
  lemma PublicWalkIsExact(pages: seq<PublicRead>, isPublic: Record -> bool, cursor: int)
    requires pages != [] && PublicWalk(pages, isPublic, cursor)
    requires ReadFrom(pages, pages[|pages| - 1].records) && AscendingRecords(pages[|pages| - 1].records)
    ensures var last := pages[|pages| - 1];
      var public := Public(Past(last.records, cursor), isPublic);
      && Returned(pages) <= public
      && (!last.hasMore ==> Returned(pages) == public)
      && ((forall i | 0 <= i < |pages| :: pages[i].hasMore) ==> |pages| < |public|)
  {
    var final := pages[|pages| - 1].records;
    PublicWalkLosesNothing(pages, isPublic, cursor, final);
    if !pages[|pages| - 1].hasMore {
      LastReadExhausts(pages, isPublic, cursor, final);
    }
    if forall i | 0 <= i < |pages| :: pages[i].hasMore {
      EveryReadReturns(pages, isPublic, cursor, final);
      LastReadLeavesSome(pages, isPublic, cursor, final);
    }
  }

  lemma {:induction false} LastReadLeavesSome(
    pages: seq<PublicRead>, isPublic: Record -> bool, cursor: int, final: seq<Record>)
    requires PublicWalk(pages, isPublic, cursor) && AscendingRecords(final)
    requires pages != [] && pages[|pages| - 1].records == final && pages[|pages| - 1].hasMore
    ensures Public(Past(final, WalkEnd(pages, cursor)), isPublic) != []
    decreases |pages|
  {
    var r := pages[0];
    if |pages| == 1 {
      AnswerIsExact(r.records, final, cursor, isPublic, r.size, r.artifacts, r.hasMore, r.nextCursor);
      assert pages[1..] == [];
    } else {
      LastReadLeavesSome(pages[1..], isPublic, Resume(cursor, r.nextCursor), final);
    }
  }
}
