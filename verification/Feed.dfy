/** The artifact documents, their append-only feed and its pages (`src/db.rs`). */
module Feed {
  import opened Common

  datatype Content = Content(actor: string, kind: string, payload: string)

  datatype Document = Document(content: Content, createdAt: int, body: string)

  datatype Entry = Entry(sequence: int, hash: string, observedAt: int)

  /** `byContent` is the UNIQUE index on (actor, kind, payload hash). */
  datatype Tables = Tables(
    documents: map<string, Document>, byContent: map<Content, string>, feed: seq<Entry>)

  const EMPTY := Tables(map[], map[], [])

  /** `gap` is how many sequence numbers AUTOINCREMENT passes over, if it takes a new one. */
  datatype Insert = Insert(hash: string, document: Document, gap: nat)

  // ---------------------------------------------------------------- storing

  predicate InFeed(feed: seq<Entry>, hash: string) {
    exists i | 0 <= i < |feed| :: feed[i].hash == hash
  }

  function NextSequence(feed: seq<Entry>, gap: nat): int {
    (if feed == [] then 0 else feed[|feed| - 1].sequence) + 1 + gap
  }

  function Appended(feed: seq<Entry>, hash: string, observedAt: int, gap: nat): seq<Entry> {
    if InFeed(feed, hash) then feed else feed + [Entry(NextSequence(feed, gap), hash, observedAt)]
  }

  predicate IsNew(t: Tables, i: Insert) {
    i.hash !in t.documents && i.document.content !in t.byContent
  }

  /** The artifact hash whose feed entry an insert makes sure of: its own, or the one that
      already holds its content. */
  function StoredHash(t: Tables, i: Insert): string {
    if i.document.content in t.byContent then t.byContent[i.document.content] else i.hash
  }

  function Stored(t: Tables, i: Insert): Tables {
    Tables(
      if IsNew(t, i) then t.documents[i.hash := i.document] else t.documents,
      if IsNew(t, i) then t.byContent[i.document.content := i.hash] else t.byContent,
      Appended(t.feed, StoredHash(t, i), i.document.createdAt, i.gap))
  }

  ghost function StateAt(inserts: seq<Insert>, k: nat): Tables
    requires k <= |inserts|
  {
    if k == 0 then EMPTY else Stored(StateAt(inserts, k - 1), inserts[k - 1])
  }

  // ---------------------------------------------------------------- invariant

  ghost predicate Ascending(feed: seq<Entry>) {
    && (forall i | 0 <= i < |feed| :: feed[i].sequence > 0)
    && (forall i, j | 0 <= i < j < |feed| :: feed[i].sequence < feed[j].sequence)
  }

  /** The feed has exactly one entry for each of the hashes. */
  ghost predicate OneEntryEach(feed: seq<Entry>, hashes: set<string>) {
    && (forall i | 0 <= i < |feed| :: feed[i].hash in hashes)
    && (forall i, j | 0 <= i < j < |feed| :: feed[i].hash != feed[j].hash)
    && (forall h | h in hashes :: InFeed(feed, h))
  }

  ghost predicate IndexExact(t: Tables) {
    && (forall c | c in t.byContent :: t.byContent[c] in t.documents && t.documents[t.byContent[c]].content == c)
    && (forall h | h in t.documents :: t.documents[h].content in t.byContent && t.byContent[t.documents[h].content] == h)
  }

  /** Documents and feed entries correspond one to one, and the index is exact. */
  ghost predicate Inv(t: Tables) {
    Ascending(t.feed) && OneEntryEach(t.feed, t.documents.Keys) && IndexExact(t)
  }

  lemma AppendKeepsOneEach(feed: seq<Entry>, hashes: set<string>, e: Entry)
    requires OneEntryEach(feed, hashes) && e.hash !in hashes
    ensures OneEntryEach(feed + [e], hashes + {e.hash})
  {
    forall h | h in hashes + {e.hash} ensures InFeed(feed + [e], h) {
      if h in hashes {
        var j :| 0 <= j < |feed| && feed[j].hash == h;
        assert (feed + [e])[j].hash == h;
      } else {
        assert (feed + [e])[|feed|].hash == h;
      }
    }
  }

  lemma KnownChangesNothing(t: Tables, i: Insert)
    requires Inv(t) && !IsNew(t, i)
    ensures Stored(t, i) == t
  {
    assert StoredHash(t, i) in t.documents;
  }

  lemma IndexStaysExact(t: Tables, i: Insert, feed: seq<Entry>)
    requires IndexExact(t) && IsNew(t, i)
    ensures IndexExact(Tables(t.documents[i.hash := i.document], t.byContent[i.document.content := i.hash], feed))
  {
  }

  lemma AppendAscends(feed: seq<Entry>, hash: string, observedAt: int, gap: nat)
    requires Ascending(feed)
    ensures Ascending(feed + [Entry(NextSequence(feed, gap), hash, observedAt)])
  {
  }

  lemma StoredKeepsInv(t: Tables, i: Insert)
    requires Inv(t)
    ensures Inv(Stored(t, i))
  {
    if IsNew(t, i) {
      var e := Entry(NextSequence(t.feed, i.gap), i.hash, i.document.createdAt);
      assert !InFeed(t.feed, i.hash);
      assert Stored(t, i).feed == t.feed + [e];
      AppendAscends(t.feed, i.hash, i.document.createdAt, i.gap);
      AppendKeepsOneEach(t.feed, t.documents.Keys, e);
      assert Stored(t, i).documents.Keys == t.documents.Keys + {i.hash};
      IndexStaysExact(t, i, t.feed + [e]);
    } else {
      KnownChangesNothing(t, i);
    }
  }

  lemma {:induction false} RunKeepsInv(inserts: seq<Insert>, k: nat)
    requires k <= |inserts|
    ensures Inv(StateAt(inserts, k))
  {
    if k > 0 {
      RunKeepsInv(inserts, k - 1);
      StoredKeepsInv(StateAt(inserts, k - 1), inserts[k - 1]);
    }
  }

  /** Nothing stored ever changes: documents, their index and the feed only grow. */
  ghost predicate Grows(t: Tables, t': Tables) {
    && (forall h | h in t.documents :: h in t'.documents && t'.documents[h] == t.documents[h])
    && (forall c | c in t.byContent :: c in t'.byContent && t'.byContent[c] == t.byContent[c])
    && t.feed <= t'.feed
  }

  lemma StoredGrows(t: Tables, i: Insert)
    ensures Grows(t, Stored(t, i))
  {
  }

  lemma GrowsTransitive(a: Tables, b: Tables, c: Tables)
    requires Grows(a, b) && Grows(b, c)
    ensures Grows(a, c)
  {
  }

  lemma {:induction false} StoreOnlyGrows(inserts: seq<Insert>, i: nat, k: nat)
    requires i <= k <= |inserts|
    ensures Grows(StateAt(inserts, i), StateAt(inserts, k))
    decreases k
  {
    if i < k {
      var before := StateAt(inserts, k - 1);
      StoreOnlyGrows(inserts, i, k - 1);
      StoredGrows(before, inserts[k - 1]);
      GrowsTransitive(StateAt(inserts, i), before, Stored(before, inserts[k - 1]));
    }
  }

  /** First writer wins: once some document holds a content triple, or a hash is taken, every
      later insert of that triple or hash leaves the store exactly as it is. */
  lemma FirstWriterWins(inserts: seq<Insert>, i: nat, k: nat, again: Insert)
    requires i <= k <= |inserts|
    requires again.hash in StateAt(inserts, i).documents || again.document.content in StateAt(inserts, i).byContent
    ensures Stored(StateAt(inserts, k), again) == StateAt(inserts, k)
  {
    StoreOnlyGrows(inserts, i, k);
    RunKeepsInv(inserts, k);
  }

  /** Insert `i` brings something new: its hash and its content are both stored by no earlier
      insert. */
  ghost predicate FirstAt(inserts: seq<Insert>, i: nat)
    requires i < |inserts|
  {
    var t := StateAt(inserts, i);
    && inserts[i].hash !in t.documents
    && forall h | h in t.documents :: t.documents[h].content != inserts[i].document.content
  }

  lemma FirstIsNew(inserts: seq<Insert>, i: nat)
    requires i < |inserts|
    ensures FirstAt(inserts, i) <==> IsNew(StateAt(inserts, i), inserts[i])
  {
    RunKeepsInv(inserts, i);
    var t := StateAt(inserts, i);
    if inserts[i].document.content in t.byContent {
      assert t.documents[t.byContent[inserts[i].document.content]].content == inserts[i].document.content;
    }
  }

  lemma StoredDocument(t: Tables, i: Insert, hash: string, d: Document)
    ensures var documents := Stored(t, i).documents;
      (hash in documents && documents[hash] == d) <==>
        (hash in t.documents && t.documents[hash] == d) || (IsNew(t, i) && i.hash == hash && i.document == d)
  {
  }

  ghost predicate NewAt(inserts: seq<Insert>, i: nat, hash: string, d: Document)
    requires i < |inserts|
  {
    IsNew(StateAt(inserts, i), inserts[i]) && inserts[i].hash == hash && inserts[i].document == d
  }

  lemma {:induction false} DocumentIsNewOne(inserts: seq<Insert>, k: nat, hash: string, d: Document)
    requires k <= |inserts|
    ensures (hash in StateAt(inserts, k).documents && StateAt(inserts, k).documents[hash] == d) <==>
      exists i | 0 <= i < k :: NewAt(inserts, i, hash, d)
  {
    if k > 0 {
      DocumentIsNewOne(inserts, k - 1, hash, d);
      StoredDocument(StateAt(inserts, k - 1), inserts[k - 1], hash, d);
      assert NewAt(inserts, k - 1, hash, d) ==> exists i | 0 <= i < k :: NewAt(inserts, i, hash, d);
    }
  }

  ghost predicate BringsAt(inserts: seq<Insert>, i: nat, hash: string, d: Document)
    requires i < |inserts|
  {
    FirstAt(inserts, i) && inserts[i].hash == hash && inserts[i].document == d
  }

  /** The document stored under a hash is, body and all, the one of the first insert that
      brought it: the only insert of that hash that brought something new. */
  lemma DocumentIsFirstInserted(inserts: seq<Insert>, k: nat, hash: string, d: Document)
    requires k <= |inserts|
    ensures (hash in StateAt(inserts, k).documents && StateAt(inserts, k).documents[hash] == d) <==>
      exists i | 0 <= i < k :: BringsAt(inserts, i, hash, d)
  {
    DocumentIsNewOne(inserts, k, hash, d);
    forall i | 0 <= i < k ensures BringsAt(inserts, i, hash, d) <==> NewAt(inserts, i, hash, d) {
      FirstIsNew(inserts, i);
    }
  }

  /** Each insert that brings something new adds one feed entry, observed at the document's
      creation time; no other insert adds any. */
  lemma FeedEntryIsOfFirst(inserts: seq<Insert>, i: nat)
    requires i < |inserts|
    ensures var before, after := StateAt(inserts, i).feed, StateAt(inserts, i + 1).feed;
      if FirstAt(inserts, i)
      then
        && |after| == |before| + 1 && before <= after
        && after[|before|].hash == inserts[i].hash
        && after[|before|].observedAt == inserts[i].document.createdAt
        && (forall j | 0 <= j < |before| :: after[j].sequence < after[|before|].sequence)
      else after == before
  {
    RunKeepsInv(inserts, i);
    RunKeepsInv(inserts, i + 1);
    FirstIsNew(inserts, i);
    if !FirstAt(inserts, i) {
      KnownChangesNothing(StateAt(inserts, i), inserts[i]);
    }
  }

  // ---------------------------------------------------------------- pages

  datatype Record = Record(sequence: int, hash: string, document: Document)

  datatype Page = Page(records: seq<Record>, hasMore: bool)

  /** The feed joined with the documents, in sequence order. */
  function Joined(feed: seq<Entry>, documents: map<string, Document>): seq<Record> {
    if feed == [] then []
    else
      (if feed[0].hash in documents then [Record(feed[0].sequence, feed[0].hash, documents[feed[0].hash])] else [])
      + Joined(feed[1..], documents)
  }

  function Records(t: Tables): seq<Record> {
    Joined(t.feed, t.documents)
  }

  /** How many leading rows are at or before a cursor. */
  function Cut(records: seq<Record>, cursor: int): (n: nat)
    ensures n <= |records|
  {
    if records == [] || records[0].sequence > cursor then 0 else 1 + Cut(records[1..], cursor)
  }

  /** The rows past a cursor: in sequence order they are a suffix. */
  function Past(records: seq<Record>, cursor: int): seq<Record> {
    records[Cut(records, cursor)..]
  }

  /** At most `limit` rows past the cursor, and whether there are more. */
  function PageAfter(records: seq<Record>, cursor: int, limit: nat): Page {
    var rows, size := Past(records, cursor), Clamp(limit, 1, 100);
    Page(rows[..Min(size, |rows|)], |rows| > size)
  }

  ghost predicate AscendingRecords(records: seq<Record>) {
    forall i, j | 0 <= i < j < |records| :: records[i].sequence < records[j].sequence
  }

  /** The join drops nothing. */
  lemma {:induction false} JoinIsComplete(feed: seq<Entry>, documents: map<string, Document>)
    requires forall i | 0 <= i < |feed| :: feed[i].hash in documents
    ensures |Joined(feed, documents)| == |feed|
    ensures forall i | 0 <= i < |feed| ::
      Joined(feed, documents)[i] == Record(feed[i].sequence, feed[i].hash, documents[feed[i].hash])
  {
    if feed != [] {
      JoinIsComplete(feed[1..], documents);
    }
  }

  /** A page: the first rows past the cursor, as many as asked for but at least one and at most
      a hundred, and whether that leaves any. */
  lemma PageIsExact(records: seq<Record>, cursor: int, limit: nat)
    ensures var page, rows := PageAfter(records, cursor, limit), Past(records, cursor);
      var size := if limit < 1 then 1 else if limit > 100 then 100 else limit;
      && page.records <= rows
      && |page.records| == (if |rows| < size then |rows| else size)
      && (page.hasMore <==> |page.records| < |rows|)
  {
  }

  /** In an ascending listing the suffix is exactly `WHERE sequence > cursor`. */
  lemma {:induction false} PastIsWhere(records: seq<Record>, cursor: int)
    requires AscendingRecords(records)
    ensures forall i | 0 <= i < |records| :: records[i].sequence > cursor <==> Cut(records, cursor) <= i
  {
    if records != [] && records[0].sequence <= cursor {
      PastIsWhere(records[1..], cursor);
      assert forall i | 1 <= i < |records| :: records[i] == records[1..][i - 1];
    }
  }

  /** Continuing from the last row of a page picks up exactly where the page ended. */
  lemma PastComposes(records: seq<Record>, cursor: int, n: nat)
    requires AscendingRecords(records) && 0 < n <= |Past(records, cursor)|
    ensures Past(records, Past(records, cursor)[n - 1].sequence) == Past(records, cursor)[n..]
  {
    var last := Cut(records, cursor) + n - 1;
    PastIsWhere(records, cursor);
    PastIsWhere(records, records[last].sequence);
    assert last + 1 < |records| ==> records[last + 1].sequence > records[last].sequence;
    assert records[last].sequence <= records[last].sequence;
  }

  /** A longer listing only has more rows past the cursor, at the end. */
  lemma PastGrows(records: seq<Record>, longer: seq<Record>, cursor: int)
    requires records <= longer && AscendingRecords(longer)
    ensures Past(records, cursor) <= Past(longer, cursor)
  {
    PastIsWhere(records, cursor);
    PastIsWhere(longer, cursor);
    assert forall i | 0 <= i < |records| :: longer[i] == records[i];
    var a, b := Cut(records, cursor), Cut(longer, cursor);
    assert a < |records| ==> longer[a].sequence > cursor;
    assert b < |records| ==> records[b].sequence > cursor;
  }

  lemma RecordsOfRun(inserts: seq<Insert>, i: nat, k: nat)
    requires i <= k <= |inserts|
    ensures AscendingRecords(Records(StateAt(inserts, k)))
    ensures |Records(StateAt(inserts, k))| == |StateAt(inserts, k).feed|
    ensures Records(StateAt(inserts, i)) <= Records(StateAt(inserts, k))
  {
    RunKeepsInv(inserts, i);
    RunKeepsInv(inserts, k);
    StoreOnlyGrows(inserts, i, k);
    JoinIsComplete(StateAt(inserts, k).feed, StateAt(inserts, k).documents);
    RecordsGrow(StateAt(inserts, i), StateAt(inserts, k));
  }

  /** Growing tables list the old records first. */
  lemma RecordsGrow(t: Tables, t': Tables)
    requires Inv(t) && Inv(t') && Grows(t, t')
    ensures AscendingRecords(Records(t')) && Records(t) <= Records(t')
  {
    JoinIsComplete(t.feed, t.documents);
    JoinIsComplete(t'.feed, t'.documents);
  }

  // ---------------------------------------------------------------- in place

  class ArtifactStore {
    var documents: map<string, Document>
    var byContent: map<Content, string>
    var feed: seq<Entry>

    function View(): Tables
      reads this
    {
      Tables(documents, byContent, feed)
    }

    constructor ()
      ensures View() == EMPTY
    {
      documents, byContent, feed := map[], map[], [];
    }

    method InsertDocument(hash: string, document: Document, gap: nat)
      modifies this
      ensures View() == Stored(old(View()), Insert(hash, document, gap))
    {
      var storedHash := hash;
      if hash !in documents && document.content !in byContent {
        documents := documents[hash := document];
        byContent := byContent[document.content := hash];
      } else if document.content in byContent {
        storedHash := byContent[document.content];
      } else if hash !in documents {
        // An insert is ignored only because one of the two keys is taken.
        assert false;
      }
      if !InFeed(feed, storedHash) {
        feed := feed + [Entry(NextSequence(feed, gap), storedHash, document.createdAt)];
      }
    }

    /** One page: fetch one row more than asked for, then drop it. */
    method ListArtifacts(cursor: Option<int>, limit: nat) returns (page: Page)
      ensures page == PageAfter(Records(View()), if cursor.Some? then cursor.value else 0, limit)
    {
      var size := Clamp(limit, 1, 100);
      var rows := Past(Records(View()), if cursor.Some? then cursor.value else 0);
      var artifacts: seq<Record> := [];
      var i := 0;
      while i < |rows| && i < size + 1
        invariant i <= |rows| && i <= size + 1 && artifacts == rows[..i]
      {
        artifacts := artifacts + [rows[i]];
        i := i + 1;
      }
      var hasMore := |artifacts| > size;
      if hasMore {
        artifacts := artifacts[..size];
      }
      page := Page(artifacts, hasMore);
    }
  }
}
