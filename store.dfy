/** The `deepseek_pages` table and the writes of the ingestion pipeline:
    `insert_chunk` (look the key up, then insert, skip or update) and
    `process_and_store_document` (segment, build one record per segment, upsert
    them all).

    `Upsert` is the policy of one store call as a function on the table's rows;
    `ChunkTable` holds the rows and its methods are proved to follow it. The
    concurrent `asyncio.gather` of the upserts is run as a loop: its keys are
    pairwise distinct, and `UpsertCommutes` shows that upserts to distinct keys
    can be run in either order. */
module Store {
  import opened Text
  import opened Records
  import opened Segmenter
  import Retrieval

  /** The unique identity of a row. */
  type Key = (string, int)

  function KeyOf(c: ProcessedChunk): Key {
    (c.url, c.chunkNumber)
  }

  /** Every row is stored under its own key. */
  ghost predicate KeyedByIdentity(rows: map<Key, ProcessedChunk>) {
    forall k :: k in rows ==> KeyOf(rows[k]) == k
  }

  /** What `insert_chunk` reports. `insert_chunk` returns the store's response
      after an insert or an update and `None` after a skip or an error. */
  datatype Outcome = Inserted | Updated | Skipped | StoreError

  /** The policy of one successful `insert_chunk` call: an absent key is inserted,
      a present key is replaced only when `updateExisting` holds. */
  function Upsert(rows: map<Key, ProcessedChunk>, c: ProcessedChunk, updateExisting: bool): (after: map<Key, ProcessedChunk>)
    ensures after.Keys == rows.Keys + {KeyOf(c)}
    ensures forall k :: k in rows && k != KeyOf(c) ==> after[k] == rows[k]
  {
    if KeyOf(c) in rows && !updateExisting then rows else rows[KeyOf(c) := c]
  }

  /** The three cases of the policy and the frame: after the call the key is
      present; it holds the new record unless it was present and updating was
      off, in which case it holds the old row; no other key changes. */
  lemma UpsertEffect(rows: map<Key, ProcessedChunk>, c: ProcessedChunk, updateExisting: bool)
    ensures var after := Upsert(rows, c, updateExisting);
      && after.Keys == rows.Keys + {KeyOf(c)}
      && (KeyOf(c) !in rows ==> after[KeyOf(c)] == c)
      && (KeyOf(c) in rows && !updateExisting ==> after == rows)
      && (KeyOf(c) in rows && updateExisting ==> after[KeyOf(c)] == c)
      && forall k :: k in rows && k != KeyOf(c) ==> after[k] == rows[k]
  {
  }

  /** Upserting keeps every row under its own key. */
  lemma UpsertKeepsIdentity(rows: map<Key, ProcessedChunk>, c: ProcessedChunk, updateExisting: bool)
    requires KeyedByIdentity(rows)
    ensures KeyedByIdentity(Upsert(rows, c, updateExisting))
  {
  }

  /** Two calls for the same key without updating: one row, holding the first
      call's record when the key was new (re-ingestion is idempotent). */
  lemma RepeatWithoutUpdateKeepsFirst(rows: map<Key, ProcessedChunk>, first: ProcessedChunk, second: ProcessedChunk)
    requires KeyOf(first) == KeyOf(second) && KeyOf(first) !in rows
    ensures var after := Upsert(Upsert(rows, first, false), second, false);
      after.Keys == rows.Keys + {KeyOf(first)} && after[KeyOf(first)] == first
  {
  }

  /** Two calls for the same key with updating: one row, holding the second
      call's record. */
  lemma RepeatWithUpdateKeepsSecond(rows: map<Key, ProcessedChunk>, first: ProcessedChunk, second: ProcessedChunk)
    requires KeyOf(first) == KeyOf(second)
    ensures var after := Upsert(Upsert(rows, first, true), second, true);
      after.Keys == rows.Keys + {KeyOf(first)} && after[KeyOf(first)] == second
  {
  }

  /** Upserts to distinct keys commute, so the concurrent upserts of one document
      may be applied in any order. */
  lemma UpsertCommutes(rows: map<Key, ProcessedChunk>, a: ProcessedChunk, b: ProcessedChunk, updateExisting: bool)
    requires KeyOf(a) != KeyOf(b)
    ensures Upsert(Upsert(rows, a, updateExisting), b, updateExisting)
         == Upsert(Upsert(rows, b, updateExisting), a, updateExisting)
  {
  }

  /** The rows after the batch `recs` has been upserted in order; a record whose
      store call raises (`fails` of its chunk number) leaves the rows unchanged. */
  function UpsertAll(rows: map<Key, ProcessedChunk>, recs: seq<ProcessedChunk>, updateExisting: bool,
                     fails: int -> bool): (after: map<Key, ProcessedChunk>)
    ensures rows.Keys <= after.Keys <= rows.Keys + BatchKeys(recs)
  {
    if |recs| == 0 then rows
    else
      var before := UpsertAll(rows, recs[..|recs| - 1], updateExisting, fails);
      var c := recs[|recs| - 1];
      assert BatchKeys(recs) == BatchKeys(recs[..|recs| - 1]) + {KeyOf(c)};
      if fails(c.chunkNumber) then before else Upsert(before, c, updateExisting)
  }

  /** The keys of a batch. */
  function BatchKeys(recs: seq<ProcessedChunk>): set<Key> {
    set i | 0 <= i < |recs| :: KeyOf(recs[i])
  }

  /** The keys of a batch are pairwise distinct. */
  ghost predicate DistinctKeys(recs: seq<ProcessedChunk>) {
    forall i, j :: 0 <= i < j < |recs| ==> KeyOf(recs[i]) != KeyOf(recs[j])
  }

  /** The outcome of a batch with distinct keys, key by key (and so independent of
      the order of the batch): a key of the batch whose call succeeded follows the
      policy against the rows before the batch; every other key is unchanged. */
  lemma {:induction false} UpsertAllAt(rows: map<Key, ProcessedChunk>, recs: seq<ProcessedChunk>, updateExisting: bool,
                                       fails: int -> bool, k: Key)
    requires DistinctKeys(recs)
    ensures var after := UpsertAll(rows, recs, updateExisting, fails);
      (forall i :: 0 <= i < |recs| && KeyOf(recs[i]) == k && !fails(recs[i].chunkNumber) ==>
         k in after && after[k] == (if k in rows && !updateExisting then rows[k] else recs[i]))
      && ((forall i :: 0 <= i < |recs| && KeyOf(recs[i]) == k ==> fails(recs[i].chunkNumber)) ==>
         (k in after <==> k in rows) && (k in rows ==> after[k] == rows[k]))
  {
    if |recs| > 0 {
      var init := recs[..|recs| - 1];
      assert DistinctKeys(init);
      UpsertAllAt(rows, init, updateExisting, fails, k);
      var c := recs[|recs| - 1];
      var after := UpsertAll(rows, recs, updateExisting, fails);
      forall i | 0 <= i < |recs| && KeyOf(recs[i]) == k && !fails(recs[i].chunkNumber)
        ensures k in after && after[k] == (if k in rows && !updateExisting then rows[k] else recs[i])
      {
        if i < |recs| - 1 {
          assert init[i] == recs[i];
        }
      }
      if forall i :: 0 <= i < |recs| && KeyOf(recs[i]) == k ==> fails(recs[i].chunkNumber) {
        forall i | 0 <= i < |init| && KeyOf(init[i]) == k ensures fails(init[i].chunkNumber) {
          assert init[i] == recs[i];
        }
      }
    }
  }

  /** The table `deepseek_pages`, as the rows it holds. */
  class ChunkTable {
    var rows: map<Key, ProcessedChunk>

    ghost predicate Valid()
      reads this
    {
      KeyedByIdentity(rows)
    }

    constructor ()
      ensures Valid() && rows == map[]
    {
      rows := map[];
    }

    /** `insert_chunk`: looks the record's key up and inserts, skips or updates.
        When the store raises (`storeFails`) the error is caught, nothing changes
        and the call reports it. */
    method InsertChunk(chunk: ProcessedChunk, updateExisting: bool, storeFails: bool) returns (outcome: Outcome)
      requires Valid()
      modifies this
      ensures Valid()
      ensures storeFails ==> outcome == StoreError && rows == old(rows)
      ensures !storeFails ==> rows == Upsert(old(rows), chunk, updateExisting)
      ensures !storeFails ==> outcome == (if KeyOf(chunk) !in old(rows) then Inserted
                                          else if updateExisting then Updated else Skipped)
    {
      if storeFails {
        return StoreError;
      }
      var key := KeyOf(chunk);
      var existing := key in rows;
      if existing {
        if updateExisting {
          rows := rows[key := chunk];
          outcome := Updated;
        } else {
          outcome := Skipped;
        }
      } else {
        rows := rows[key := chunk];
        outcome := Inserted;
      }
    }

    /** The second `asyncio.gather` of `process_and_store_document`, run in order:
        one `insert_chunk` per record. The record whose store call raises is
        skipped and the rest still run. */
    method StoreBatch(batch: seq<ProcessedChunk>, updateExisting: bool, storeFails: int -> bool)
      requires Valid()
      modifies this
      ensures Valid()
      ensures rows == UpsertAll(old(rows), batch, updateExisting, storeFails)
    {
      var i := 0;
      while i < |batch|
        invariant 0 <= i <= |batch|
        invariant Valid()
        invariant rows == UpsertAll(old(rows), batch[..i], updateExisting, storeFails)
      {
        assert batch[..i + 1][..i] == batch[..i];
        var _ := InsertChunk(batch[i], updateExisting, storeFails(batch[i].chunkNumber));
        i := i + 1;
      }
      assert batch[..|batch|] == batch;
    }

    /** `process_and_store_document`, with the two `asyncio.gather` calls run in
        order: segment the page, build every record, and only when all of them
        were built, upsert them one after the other. A `KeyError` from a record
        is raised before any store call, so the table is then unchanged. */
    method ProcessAndStoreDocument(url: string, markdown: string, updateExisting: bool,
                                   titleProvider: string -> Reply<map<string, string>>,
                                   embeddingProvider: string -> Reply<seq<real>>,
                                   clock: int -> string, urlPath: string,
                                   storeFails: int -> bool)
      returns (raised: Processed<()>)
      requires Valid()
      modifies this
      ensures Valid()
      ensures var batch := ProcessAll(Chunks(markdown, DEFAULT_CHUNK_SIZE), url, titleProvider,
                                      embeddingProvider, clock, urlPath);
        && (batch.KeyError? ==> raised == KeyError(batch.key) && rows == old(rows))
        && (batch.Built? ==> raised == Built(()) && rows == UpsertAll(old(rows), batch.value, updateExisting, storeFails))
    {
      var chunks := ChunkText(markdown, DEFAULT_CHUNK_SIZE);
      var batch := ProcessAll(chunks, url, titleProvider, embeddingProvider, clock, urlPath);
      if batch.KeyError? {
        return KeyError(batch.key);
      }
      StoreBatch(batch.value, updateExisting, storeFails);
      raised := Built(());
    }
  }

  /** The records of one document have pairwise distinct keys. */
  lemma DocumentKeysDistinct(chunks: seq<string>, url: string,
                             titleProvider: string -> Reply<map<string, string>>,
                             embeddingProvider: string -> Reply<seq<real>>,
                             clock: int -> string, urlPath: string)
    requires ProcessAll(chunks, url, titleProvider, embeddingProvider, clock, urlPath).Built?
    ensures DistinctKeys(ProcessAll(chunks, url, titleProvider, embeddingProvider, clock, urlPath).value)
  {
    ProcessedNumbering(chunks, url, titleProvider, embeddingProvider, clock, urlPath);
  }

  /** Ingesting the same document twice without updating leaves the rows of the
      first ingestion, whatever the providers answer the second time: one row per
      chunk number, not two. */
  lemma {:induction false} ReingestWithoutUpdate(rows: map<Key, ProcessedChunk>, first: seq<ProcessedChunk>,
                                                 second: seq<ProcessedChunk>, fails: int -> bool)
    requires DistinctKeys(first) && DistinctKeys(second)
    requires forall j :: 0 <= j < |second| ==> exists i :: 0 <= i < |first| && KeyOf(first[i]) == KeyOf(second[j])
    ensures var once := UpsertAll(rows, first, false, _ => false);
      UpsertAll(once, second, false, fails) == once
  {
    var once := UpsertAll(rows, first, false, _ => false);
    var twice := UpsertAll(once, second, false, fails);
    forall k ensures (k in twice <==> k in once) && (k in once ==> twice[k] == once[k]) {
      UpsertAllAt(once, second, false, fails, k);
      UpsertAllAt(rows, first, false, _ => false, k);
    }
  }

  /** Ingesting the same page twice without `update_existing`: whatever the
      providers answer the second time, the second batch touches no row, so the
      table keeps one row per chunk number, the one of the first ingestion. */
  lemma ReingestDocument(rows: map<Key, ProcessedChunk>, chunks: seq<string>, url: string, urlPath: string,
                         titleProvider1: string -> Reply<map<string, string>>,
                         embeddingProvider1: string -> Reply<seq<real>>, clock1: int -> string,
                         titleProvider2: string -> Reply<map<string, string>>,
                         embeddingProvider2: string -> Reply<seq<real>>, clock2: int -> string,
                         fails: int -> bool)
    requires ProcessAll(chunks, url, titleProvider1, embeddingProvider1, clock1, urlPath).Built?
    requires ProcessAll(chunks, url, titleProvider2, embeddingProvider2, clock2, urlPath).Built?
    ensures var first := ProcessAll(chunks, url, titleProvider1, embeddingProvider1, clock1, urlPath).value;
      var second := ProcessAll(chunks, url, titleProvider2, embeddingProvider2, clock2, urlPath).value;
      var once := UpsertAll(rows, first, false, _ => false);
      UpsertAll(once, second, false, fails) == once
  {
    var first := ProcessAll(chunks, url, titleProvider1, embeddingProvider1, clock1, urlPath).value;
    var second := ProcessAll(chunks, url, titleProvider2, embeddingProvider2, clock2, urlPath).value;
    DocumentKeysDistinct(chunks, url, titleProvider1, embeddingProvider1, clock1, urlPath);
    DocumentKeysDistinct(chunks, url, titleProvider2, embeddingProvider2, clock2, urlPath);
    forall j | 0 <= j < |second| ensures exists i :: 0 <= i < |first| && KeyOf(first[i]) == KeyOf(second[j]) {
      assert KeyOf(first[j]) == KeyOf(second[j]);
    }
    ReingestWithoutUpdate(rows, first, second, fails);
  }

  /** Every row read from a table that keeps rows under their own keys is
      identified by its chunk number among the rows of one URL. */
  lemma TableRowsIdentified(table: map<Key, ProcessedChunk>, rows: seq<ProcessedChunk>, url: string)
    requires KeyedByIdentity(table)
    requires forall r :: r in rows ==> KeyOf(r) in table && table[KeyOf(r)] == r
    ensures Retrieval.NumbersIdentifyRows(rows, url)
  {
  }

  /** `get_page_content` over any reading of a valid table: whatever order the
      store returns rows of the table in, the page is the same. */
  lemma TablePageOrderIndependent(t: ChunkTable, url: string, rows1: seq<ProcessedChunk>, rows2: seq<ProcessedChunk>)
    requires t.Valid()
    requires forall r :: r in rows1 ==> KeyOf(r) in t.rows && t.rows[KeyOf(r)] == r
    requires multiset(rows1) == multiset(rows2)
    ensures Retrieval.PageContent(url, Delivered(rows1)) == Retrieval.PageContent(url, Delivered(rows2))
  {
    TableRowsIdentified(t.rows, rows1, url);
    Retrieval.PageOrderIndependent(url, rows1, rows2);
  }
}
