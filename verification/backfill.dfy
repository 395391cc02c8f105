/**
 Phase 2 of src/hkex_scraper/pipeline.py, the document backfill: the URL
 checks `_download_document` makes before any network access, the handling
 of one fetched batch of filings, and the `run_phase2` loop that repeats
 batches until the limit is reached, the database has nothing left, or three
 batches in a row change no filing.

 The database, the download, the extractor and the document save are
 parameters: `pending(n)` is what the n-th fetch query would find, `Env`
 holds the other three.
 */
module Backfill {
  import opened Wrappers
  import opened Strings
  import Extractor
  import Payload

  // ---------------------------------------------------------------------------
  // Download pre-checks
  // ---------------------------------------------------------------------------

  /** `SUPPORTED_EXTENSIONS`. */
  const SupportedExtensions: seq<string> := [".pdf", ".htm", ".html", ".xlsx", ".xls", ".doc", ".docx"]

  predicate EndsWithAny(s: string, ps: seq<string>) {
    exists i :: 0 <= i < |ps| && EndsWith(s, ps[i])
  }

  /** The URL's lower-cased path, query and fragment dropped, ends in a supported extension. */
  predicate Supported(url: string) {
    EndsWithAny(Extractor.CleanPath(url), SupportedExtensions)
  }

  /** What `_download_document` returns: the bytes, their size, and a skip reason when there are none. */
  datatype Download = Download(raw: seq<bv8>, size: nat, reason: string)

  /**
   `_download_document(url, fid)`: no request for an empty URL ("no_url") or
   an unsupported extension ("unsupported_type"); otherwise whatever the
   request gives, which is the parameter `fetch`.
   */
  function DownloadDocument(url: string, fetch: string -> Download): (d: Download)
    ensures url == "" ==> d == Download([], 0, "no_url")
    ensures url != "" && !Supported(url) ==> d == Download([], 0, "unsupported_type")
    ensures d != fetch(url) ==> |d.raw| == 0 && d.reason != ""
  {
    if url == "" then Download([], 0, "no_url")
    else if !Supported(url) then Download([], 0, "unsupported_type")
    else fetch(url)
  }

  /** The download filter accepts exactly the URLs the save step gives a known `documentType`. */
  lemma SupportedIffKnownType(url: string)
    ensures Supported(url) <==> Payload.DocType(url) != "unknown"
  {
    SupportedByName(url);
    KnownByName(url);
  }

  /** The seven extensions the filter accepts, written out. */
  predicate NamedExtension(u: string) {
    || EndsWith(u, ".pdf") || EndsWith(u, ".htm") || EndsWith(u, ".html") || EndsWith(u, ".xlsx")
    || EndsWith(u, ".xls") || EndsWith(u, ".doc") || EndsWith(u, ".docx")
  }

  lemma SupportedByName(url: string)
    ensures Supported(url) <==> NamedExtension(Extractor.CleanPath(url))
  {
    var u := Extractor.CleanPath(url);
    var e := SupportedExtensions;
    if Supported(url) {
      var i :| 0 <= i < |e| && EndsWith(u, e[i]);
      assert i == 0 || i == 1 || i == 2 || i == 3 || i == 4 || i == 5 || i == 6;
    } else {
      assert !EndsWith(u, e[0]) && !EndsWith(u, e[1]) && !EndsWith(u, e[2]) && !EndsWith(u, e[3]);
      assert !EndsWith(u, e[4]) && !EndsWith(u, e[5]) && !EndsWith(u, e[6]);
    }
  }

  lemma KnownByName(url: string)
    ensures Payload.DocType(url) != "unknown" <==> NamedExtension(Extractor.CleanPath(url))
  {
  }

  // ---------------------------------------------------------------------------
  // One filing of a batch
  // ---------------------------------------------------------------------------

  /** A row of the fetch query: the record id, `filingId` and `documentUrl`. */
  datatype Row = Row(recordId: string, filingId: string, documentUrl: string)

  /** The filing id: the part of the record id after its last ":", or `filingId` when it has none. */
  function FilingIdOf(row: Row): (fid: string)
    ensures ':' in row.recordId ==>
              && |fid| < |row.recordId| && ':' !in fid
              && row.recordId[|row.recordId| - |fid| - 1] == ':' && fid == row.recordId[|row.recordId| - |fid|..]
    ensures ':' !in row.recordId ==> fid == row.filingId
  {
    var k := LastIndexOf(row.recordId, ':');
    if k >= 0 then row.recordId[k + 1..] else row.filingId
  }

  /** What the extractor returns; an exception leaves the text empty and no tables. */
  datatype Extraction = Extracted(text: string, tableCount: nat) | ExtractionRaised

  /** The arguments of one `_save_document_to_filing` call (tables by their count). */
  datatype SaveCall = SaveCall(fid: string, raw: seq<bv8>, size: nat, url: string, text: string, tableCount: nat)

  /** The request, the extractor and the document save. */
  datatype Env = Env(fetch: string -> Download,
                     extract: (seq<bv8>, string) -> Extraction,
                     save: SaveCall -> Payload.Outcome)

  /** What happens to one fetched filing. */
  datatype RowOutcome =
    | NoFilingId                                  // neither marked nor downloaded
    | NoDocumentUrl(fid: string)                  // marked skipped, "no_document_url"
    | DownloadSkipped(fid: string, reason: string) // marked skipped with the download's reason
    | SaveFailed(fid: string, code: string)       // marked failed with the save's code
    | Saved(fid: string, hasText: bool, tables: nat)

  /** The save step for a downloaded document. */
  function SaveDownloaded(fid: string, url: string, d: Download, env: Env): (o: RowOutcome)
    ensures o.SaveFailed? || o.Saved?
    ensures o.fid == fid
    ensures o.SaveFailed? ==> o.code != ""
  {
    var x := env.extract(d.raw, url);
    var text := if x.Extracted? then x.text else "";
    var tables := if x.Extracted? then x.tableCount else 0;
    var c := Payload.ResultCode(env.save(SaveCall(fid, d.raw, d.size, url, text, tables)));
    if c.0 then Saved(fid, text != "", tables)
    else SaveFailed(fid, if c.1 != "" then c.1 else "save_error")
  }

  /** The fate of one row: skipped before download, skipped by the download, or saved or failed. */
  function Process(row: Row, env: Env): (o: RowOutcome)
    ensures o.NoFilingId? <==> FilingIdOf(row) == ""
    ensures o.NoDocumentUrl? <==> FilingIdOf(row) != "" && row.documentUrl == ""
    ensures !o.NoFilingId? ==> o.fid == FilingIdOf(row)
    ensures o.DownloadSkipped? ==> o.reason != ""
    ensures o.SaveFailed? ==> o.code != ""
  {
    var fid := FilingIdOf(row);
    if fid == "" then NoFilingId
    else if row.documentUrl == "" then NoDocumentUrl(fid)
    else
      var d := DownloadDocument(row.documentUrl, env.fetch);
      if |d.raw| == 0 then DownloadSkipped(fid, if d.reason != "" then d.reason else "download_failed")
      else SaveDownloaded(fid, row.documentUrl, d, env)
  }

  /** A failed save is marked with the code `_save_document_to_filing` returned; the "save_error" fallback never applies. */
  lemma SaveFailureCode(fid: string, url: string, d: Download, env: Env)
    ensures SaveDownloaded(fid, url, d, env).SaveFailed? ==>
              SaveDownloaded(fid, url, d, env).code != "save_error"
  {
    var x := env.extract(d.raw, url);
    var text := if x.Extracted? then x.text else "";
    var tables := if x.Extracted? then x.tableCount else 0;
    var o := env.save(SaveCall(fid, d.raw, d.size, url, text, tables));
    if o.SaveError? {
      var c := Payload.ResultCode(o);
      assert c.1[..11] == "save_error:";
    }
  }

  /** `Process` with its parameters bound: what the loop does to each row. */
  function Fate(env: Env): Row -> RowOutcome {
    row => Process(row, env)
  }

  /** The outcomes of a batch of rows, in row order. */
  function Outcomes(rows: seq<Row>, fate: Row -> RowOutcome): (os: seq<RowOutcome>)
    ensures |os| == |rows|
    ensures forall i :: 0 <= i < |rows| ==> os[i] == fate(rows[i])
  {
    seq(|rows|, i requires 0 <= i < |rows| => fate(rows[i]))
  }

  // ---------------------------------------------------------------------------
  // Batch counters and status marks
  // ---------------------------------------------------------------------------

  /** The per-batch counters: rows without an id, rows without a URL, download skips, failed and good saves, texts, tables. */
  datatype Tally = Tally(ignored: nat, noUrl: nat, skipped: nat, failed: nat, saved: nat, texts: nat, tables: nat)

  function Tally1(o: RowOutcome): Tally {
    match o
    case NoFilingId => Tally(1, 0, 0, 0, 0, 0, 0)
    case NoDocumentUrl(_) => Tally(0, 1, 0, 0, 0, 0, 0)
    case DownloadSkipped(_, _) => Tally(0, 0, 1, 0, 0, 0, 0)
    case SaveFailed(_, _) => Tally(0, 0, 0, 1, 0, 0, 0)
    case Saved(_, hasText, tables) => Tally(0, 0, 0, 0, 1, if hasText then 1 else 0, tables)
  }

  function Plus(a: Tally, b: Tally): Tally {
    Tally(a.ignored + b.ignored, a.noUrl + b.noUrl, a.skipped + b.skipped, a.failed + b.failed,
          a.saved + b.saved, a.texts + b.texts, a.tables + b.tables)
  }

  /** The counters of a batch: every row lands in exactly one class; texts and tables come from good saves only. */
  function Count(os: seq<RowOutcome>): (t: Tally)
    ensures t.ignored + t.noUrl + t.skipped + t.failed + t.saved == |os|
    ensures t.texts <= t.saved
    ensures t.saved == 0 ==> t.tables == 0
  {
    if |os| == 0 then Tally(0, 0, 0, 0, 0, 0, 0) else Plus(Tally1(os[0]), Count(os[1..]))
  }

  /** The download tasks of a batch: rows with both an id and a URL. */
  function Tasks(t: Tally): nat {
    t.skipped + t.failed + t.saved
  }

  datatype Status = Skipped | Failed

  /** One `_mark_filing_status(fid, status, reason)` call. */
  datatype Mark = Mark(fid: string, status: Status, reason: string)

  function MarkOf(o: RowOutcome): Option<Mark> {
    match o
    case NoFilingId => None
    case NoDocumentUrl(fid) => Some(Mark(fid, Skipped, "no_document_url"))
    case DownloadSkipped(fid, reason) => Some(Mark(fid, Skipped, reason))
    case SaveFailed(fid, code) => Some(Mark(fid, Failed, code))
    case Saved(_, _, _) => None
  }

  /** The status marks a batch writes (in row order; the source writes download skips in completion order). */
  function Marks(os: seq<RowOutcome>): seq<Mark> {
    if |os| == 0 then []
    else (match MarkOf(os[0]) case Some(m) => [m] case None => []) + Marks(os[1..])
  }

  /** Every row with an id and no good save gets exactly one mark. */
  lemma {:induction false} MarksCounted(os: seq<RowOutcome>)
    ensures |Marks(os)| == Count(os).noUrl + Count(os).skipped + Count(os).failed
  {
    if |os| > 0 {
      MarksCounted(os[1..]);
    }
  }

  /** Every mark of a batch of rows names a filing id and carries a non-empty reason. */
  lemma {:induction false} MarksHaveReasons(rows: seq<Row>, env: Env)
    ensures forall m :: m in Marks(Outcomes(rows, Fate(env))) ==> m.fid != "" && m.reason != ""
  {
    var os := Outcomes(rows, Fate(env));
    forall i | 0 <= i < |os|
      ensures WellFormed(os[i])
    {
      assert os[i] == Fate(env)(rows[i]) == Process(rows[i], env);
    }
    MarksOfWellFormed(os);
  }

  predicate WellFormed(o: RowOutcome) {
    match o
    case NoFilingId => true
    case NoDocumentUrl(fid) => fid != ""
    case DownloadSkipped(fid, reason) => fid != "" && reason != ""
    case SaveFailed(fid, code) => fid != "" && code != ""
    case Saved(fid, _, _) => fid != ""
  }

  lemma {:induction false} MarksOfWellFormed(os: seq<RowOutcome>)
    requires forall i :: 0 <= i < |os| ==> WellFormed(os[i])
    ensures forall m :: m in Marks(os) ==> m.fid != "" && m.reason != ""
  {
    if |os| > 0 {
      MarksOfWellFormed(os[1..]);
    }
  }

  // ---------------------------------------------------------------------------
  // The batch loop
  // ---------------------------------------------------------------------------

  /** `MAX_STALLS`. */
  const MaxStalls := 3

  /** The counters `run_phase2` returns. */
  datatype Stats = Stats(totalMissing: nat, totalProcessed: nat, docsDownloaded: nat, textsExtracted: nat,
                         tablesTotal: nat, skipped: nat, errors: nat)

  /** Why the loop stopped. */
  datatype Stop = NothingMissing | LimitReached | NoMoreFilings | Stalled

  /**
   One fetch: the row count asked for, the processed count before it, what
   became of each row, and the stall counter after it.
   */
  datatype BatchLog = BatchLog(requested: int, before: nat, outcomes: seq<RowOutcome>, stallsAfter: nat)

  datatype Run = Run(stats: Stats, stop: Stop, batches: seq<BatchLog>)

  function Min(a: int, b: int): int {
    if a <= b then a else b
  }

  /** `limit` when positive, otherwise the number of filings missing a document. */
  function EffectiveLimit(limit: int, totalMissing: nat): nat {
    if limit > 0 then limit else totalMissing
  }

  /** The rows a `LIMIT n` query returns: the first `n` of those pending, none for `n <= 0`. */
  function Fetch(pending: seq<Row>, n: int): (rows: seq<Row>)
    ensures |rows| <= |pending| && (n <= 0 ==> rows == []) && (n > 0 ==> |rows| <= n)
    ensures rows <= pending
  {
    if n <= 0 then [] else if n < |pending| then pending[..n] else pending
  }

  /**
   The stall counter after a batch: unchanged when the batch had no download
   task, one more when no document was saved and none skipped, else zero.
   */
  function NextStalls(stalls: nat, t: Tally): nat {
    if Tasks(t) == 0 then stalls
    else if t.saved + t.skipped == 0 then stalls + 1
    else 0
  }

  /** The counters after a batch. */
  function AddBatch(s: Stats, fetched: nat, t: Tally): Stats {
    Stats(s.totalMissing, s.totalProcessed + fetched, s.docsDownloaded + t.saved, s.textsExtracted + t.texts,
          s.tablesTotal + t.tables, s.skipped + t.noUrl + t.skipped, s.errors + t.failed)
  }

  /** The counters after a sequence of batches: each batch's tally added in turn. */
  function Totals(totalMissing: nat, logs: seq<BatchLog>): Stats {
    if |logs| == 0 then Stats(totalMissing, 0, 0, 0, 0, 0, 0)
    else
      var last := logs[|logs| - 1];
      AddBatch(Totals(totalMissing, logs[..|logs| - 1]), |last.outcomes|, Count(last.outcomes))
  }

  /** The processed count after the batches. */
  function Processed(logs: seq<BatchLog>): nat {
    if |logs| == 0 then 0 else logs[|logs| - 1].before + |logs[|logs| - 1].outcomes|
  }

  /** The stall counter after the batches. */
  function Stalls(logs: seq<BatchLog>): nat {
    if |logs| == 0 then 0 else logs[|logs| - 1].stallsAfter
  }

  /**
   What the loop runs against: the batch size, the effective limit, the rows
   each fetch query would find (by batch number), and what becomes of a row.
   */
  datatype Setup = Setup(batchSize: int, limit: nat, pending: nat -> seq<Row>, fate: Row -> RowOutcome)

  /**
   The next fetch after `logs` (batch number `|logs| + 1`): it asks for the
   smaller of the batch size and what is left of the limit, gets the first
   rows pending for it, and moves the stall counter on.
   */
  function NextBatch(q: Setup, logs: seq<BatchLog>): (b: BatchLog)
    ensures b.before == Processed(logs)
    ensures |b.outcomes| <= |q.pending(|logs| + 1)|
    ensures b.requested <= q.batchSize && b.requested + b.before <= q.limit
    ensures b.requested + b.before == q.limit || b.requested == q.batchSize
    ensures |b.outcomes| <= if b.requested > 0 then b.requested else 0
  {
    var before := Processed(logs);
    var requested := Min(q.batchSize, q.limit - before);
    var outs := Outcomes(Fetch(q.pending(|logs| + 1), requested), q.fate);
    BatchLog(requested, before, outs, NextStalls(Stalls(logs), Count(outs)))
  }

  /** Every batch is the one `NextBatch` makes after the batches before it. */
  ghost predicate Chained(q: Setup, logs: seq<BatchLog>) {
    |logs| == 0 ||
    var init := logs[..|logs| - 1];
    Chained(q, init) && logs[|logs| - 1] == NextBatch(q, init)
  }

  /** Every batch fetched rows and left the stall counter below the cap. */
  ghost predicate Continued(logs: seq<BatchLog>) {
    forall i :: 0 <= i < |logs| ==> |logs[i].outcomes| > 0 && logs[i].stallsAfter < MaxStalls
  }

  /** The loop invariant of `RunPhase2`. */
  ghost predicate Inv(q: Setup, totalMissing: nat, logs: seq<BatchLog>, stats: Stats) {
    && Chained(q, logs)
    && Continued(logs)
    && stats == Totals(totalMissing, logs)
    && stats.totalProcessed == Processed(logs) <= q.limit
  }

  /** The state after the loop, for each way it can end. */
  ghost predicate Done(q: Setup, totalMissing: nat, r: Run) {
    && Chained(q, r.batches)
    && r.stats == Totals(totalMissing, r.batches)
    && r.stats.totalProcessed <= q.limit
    && match r.stop
       case NothingMissing => false
       case LimitReached => Continued(r.batches) && r.stats.totalProcessed == q.limit
       case NoMoreFilings =>
         && |r.batches| > 0 && Continued(r.batches[..|r.batches| - 1])
         && |r.batches[|r.batches| - 1].outcomes| == 0
       case Stalled =>
         && |r.batches| > 0 && Continued(r.batches[..|r.batches| - 1])
         && |r.batches[|r.batches| - 1].outcomes| > 0 && r.batches[|r.batches| - 1].stallsAfter == MaxStalls
  }

  /** Appending the next batch keeps the batches chained and the totals summed. */
  lemma Append(q: Setup, totalMissing: nat, logs: seq<BatchLog>, stats: Stats)
    requires Inv(q, totalMissing, logs, stats)
    ensures var b := NextBatch(q, logs);
            && Chained(q, logs + [b])
            && Totals(totalMissing, logs + [b]) == AddBatch(stats, |b.outcomes|, Count(b.outcomes))
            && Processed(logs + [b]) == Processed(logs) + |b.outcomes|
            && Stalls(logs + [b]) == b.stallsAfter
            && (logs + [b])[..|logs|] == logs
  {
    var b := NextBatch(q, logs);
    assert (logs + [b])[..|logs|] == logs;
  }

  /** A batch that fetched rows and stayed below the stall cap keeps the invariant. */
  lemma StepOn(q: Setup, totalMissing: nat, logs: seq<BatchLog>, stats: Stats)
    requires Inv(q, totalMissing, logs, stats)
    requires |NextBatch(q, logs).outcomes| > 0 && NextBatch(q, logs).stallsAfter < MaxStalls
    ensures var b := NextBatch(q, logs);
            Inv(q, totalMissing, logs + [b], AddBatch(stats, |b.outcomes|, Count(b.outcomes)))
  {
    Append(q, totalMissing, logs, stats);
    var b := NextBatch(q, logs);
    var logs' := logs + [b];
    forall i | 0 <= i < |logs'|
      ensures |logs'[i].outcomes| > 0 && logs'[i].stallsAfter < MaxStalls
    {
      if i < |logs| {
        assert logs'[i] == logs[i];
      }
    }
  }

  lemma EmptyAddsNothing(s: Stats, os: seq<RowOutcome>)
    requires |os| == 0
    ensures AddBatch(s, |os|, Count(os)) == s
  {
  }

  /** A batch that fetched nothing ends the loop. */
  lemma StepEmpty(q: Setup, totalMissing: nat, logs: seq<BatchLog>, stats: Stats)
    requires Inv(q, totalMissing, logs, stats)
    requires |NextBatch(q, logs).outcomes| == 0
    ensures Done(q, totalMissing, Run(stats, NoMoreFilings, logs + [NextBatch(q, logs)]))
  {
    var b := NextBatch(q, logs);
    var r := Run(stats, NoMoreFilings, logs + [b]);
    EmptyAddsNothing(stats, b.outcomes);
    Append(q, totalMissing, logs, stats);
    assert r.batches[..|r.batches| - 1] == logs;
  }

  /** A batch that brought the stall counter to the cap ends the loop. */
  lemma StepStalled(q: Setup, totalMissing: nat, logs: seq<BatchLog>, stats: Stats)
    requires Inv(q, totalMissing, logs, stats)
    requires |NextBatch(q, logs).outcomes| > 0 && NextBatch(q, logs).stallsAfter >= MaxStalls
    ensures var b := NextBatch(q, logs);
            Done(q, totalMissing, Run(AddBatch(stats, |b.outcomes|, Count(b.outcomes)), Stalled, logs + [b]))
  {
    Append(q, totalMissing, logs, stats);
    var b := NextBatch(q, logs);
    var r := Run(AddBatch(stats, |b.outcomes|, Count(b.outcomes)), Stalled, logs + [b]);
    assert r.batches[..|r.batches| - 1] == logs;
    assert b.stallsAfter <= Stalls(logs) + 1;
  }

  /**
   The `while` loop of `run_phase2` from the batches so far and the counters:
   stop at the limit; otherwise fetch the next batch, stop if it is empty,
   add it to the counters, and stop if the stall counter reached the cap.
   */
  function Loop(q: Setup, totalMissing: nat, logs: seq<BatchLog>, stats: Stats): Run
    decreases q.limit - stats.totalProcessed
  {
    if stats.totalProcessed >= q.limit then Run(stats, LimitReached, logs)
    else
      var b := NextBatch(q, logs);
      if |b.outcomes| == 0 then Run(stats, NoMoreFilings, logs + [b])
      else
        var stats' := AddBatch(stats, |b.outcomes|, Count(b.outcomes));
        if b.stallsAfter >= MaxStalls then Run(stats', Stalled, logs + [b])
        else Loop(q, totalMissing, logs + [b], stats')
  }

  /** From any state satisfying the invariant, the loop ends in a `Done` state. */
  lemma {:induction false} LoopDone(q: Setup, totalMissing: nat, logs: seq<BatchLog>, stats: Stats)
    requires Inv(q, totalMissing, logs, stats)
    ensures Done(q, totalMissing, Loop(q, totalMissing, logs, stats))
    decreases q.limit - stats.totalProcessed
  {
    if stats.totalProcessed < q.limit {
      var b := NextBatch(q, logs);
      if |b.outcomes| == 0 {
        StepEmpty(q, totalMissing, logs, stats);
      } else if b.stallsAfter >= MaxStalls {
        StepStalled(q, totalMissing, logs, stats);
      } else {
        StepOn(q, totalMissing, logs, stats);
        LoopDone(q, totalMissing, logs + [b], AddBatch(stats, |b.outcomes|, Count(b.outcomes)));
      }
    }
  }

  /**
   `run_phase2(batch_size, max_workers, limit)` with the count query's
   answer `totalMissing`: nothing when no filing is missing its document,
   otherwise the loop from no batches and zero counters.
   */
  function RunPhase2(batchSize: int, limit: int, totalMissing: nat, pending: nat -> seq<Row>, env: Env): Run {
    var zero := Stats(totalMissing, 0, 0, 0, 0, 0, 0);
    if totalMissing == 0 then Run(zero, NothingMissing, [])
    else Loop(Setup(batchSize, EffectiveLimit(limit, totalMissing), pending, Fate(env)), totalMissing, [], zero)
  }

  /**
   The backfill ends for one of four reasons: nothing missing (and then
   nothing done), the limit reached, an empty fetch, or three stalls; in
   every case the batches are the chain of fetches and the counters their sums.
   */
  lemma RunPhase2Done(batchSize: int, limit: int, totalMissing: nat, pending: nat -> seq<Row>, env: Env)
    ensures var r := RunPhase2(batchSize, limit, totalMissing, pending, env);
            && (totalMissing == 0 <==> r.stop == NothingMissing)
            && (r.stop == NothingMissing ==> r == Run(Stats(0, 0, 0, 0, 0, 0, 0), NothingMissing, []))
            && (r.stop != NothingMissing ==>
                  Done(Setup(batchSize, EffectiveLimit(limit, totalMissing), pending, Fate(env)), totalMissing, r))
  {
    if totalMissing > 0 {
      var q := Setup(batchSize, EffectiveLimit(limit, totalMissing), pending, Fate(env));
      LoopDone(q, totalMissing, [], Stats(totalMissing, 0, 0, 0, 0, 0, 0));
    }
  }
}
