/**
 The payload sizer of `_save_document_to_filing` (src/hkex_scraper/pipeline.py):
 how much of the extracted text and which tables go into the `UPDATE` that
 stores a document, the emergency re-cut of an oversized statement, and the
 two-attempt write with its result codes.

 The statement text itself is not built: a write is the record of the fields
 it sets (`SaveSql`), and its UTF-8 size, the JSON sizes of the tables, the
 MD5 digest and the database's reply are parameters. `maxBody` stands for
 `MAX_SQL_BODY_SIZE`.
 */
module Payload {
  import opened Strings
  import Extractor

  // ---------------------------------------------------------------------------
  // Constants
  // ---------------------------------------------------------------------------

  /** Bytes allowed for the `UPDATE ... SET` wrapper around text and tables. */
  const SqlOverhead := 1024
  /** Below this many characters of room, tables are cut as well. */
  const TextFloor := 50000
  /** The running JSON size the kept tables may reach. */
  const MaxTablesBytes := 200 * 1024
  /** The hard limit on the encoded statement. */
  const HardLimit := 1048576
  /** Characters of text kept on the retry after a 413. */
  const FallbackLimit := 500 * 1024

  // ---------------------------------------------------------------------------
  // Floating-point scaling, as exact rationals of the IEEE doubles involved
  // ---------------------------------------------------------------------------

  /** The double nearest 1.1 is `OnePointOne / 2^52`. */
  const OnePointOne := 4953959590107546
  const TwoTo52 := 0x10_0000_0000_0000
  /** The double nearest 0.85 is `PointEightFive / 2^53`. */
  const PointEightFive := 7656119366529843
  const TwoTo53 := 0x20_0000_0000_0000

  /** `int(n * 1.1)` for a length `n`. */
  function ScaleUp(n: nat): nat {
    n * OnePointOne / TwoTo52
  }

  /**
   `int(x / 1.1)`: the exact quotient of `x` by the double nearest 1.1,
   truncated toward zero (also for a negative room). The quotient is not
   rounded to a double first, as Python's division would.
   */
  function ScaleDown(x: int): int {
    if x >= 0 then x * TwoTo52 / OnePointOne else -((-x) * TwoTo52 / OnePointOne)
  }

  /** `int(n * (maxBody / actual) * 0.85)`, the emergency target. */
  function EmergencyTarget(n: nat, maxBody: nat, actual: nat): nat
    requires actual > 0
  {
    n * maxBody * PointEightFive / (actual * TwoTo53)
  }

  lemma DivLess(x: nat, d: nat, q: nat)
    requires d > 0 && x < q * d
    ensures x / d < q
  {
  }

  lemma MulMonotone(x: nat, y: nat, d: nat)
    requires x <= y
    ensures x * d <= y * d
  {
  }

  lemma DivMonotone(a: nat, b: nat, d: nat)
    requires d > 0 && a <= b
    ensures a / d <= b / d
  {
    var qa, qb := a / d, b / d;
    if qa > qb {
      MulMonotone(qb + 1, qa, d);
    }
  }

  /** The estimate never undercounts: at least `n`, and more than `1.1 * n - 1`. */
  lemma ScaleUpBounds(n: nat)
    ensures n <= ScaleUp(n)
    ensures 11 * n < 10 * ScaleUp(n) + 10
  {
    assert n * TwoTo52 <= n * OnePointOne;
    DivMonotone(n * TwoTo52, n * OnePointOne, TwoTo52);
    assert 11 * n * TwoTo52 <= 10 * n * OnePointOne;
  }

  lemma ScaleUpMonotone(a: nat, b: nat)
    requires a <= b
    ensures ScaleUp(a) <= ScaleUp(b)
  {
    assert a * OnePointOne <= b * OnePointOne;
    DivMonotone(a * OnePointOne, b * OnePointOne, TwoTo52);
  }

  /**
   Dividing by 1.1 undoes the estimate: a target of `ScaleDown(x)` characters
   is estimated at no more than `x` bytes, and it is at most `x / 1.1`.
   */
  lemma ScaleDownBounds(x: nat)
    ensures 0 <= ScaleDown(x) <= x
    ensures 11 * ScaleDown(x) <= 10 * x
    ensures ScaleUp(ScaleDown(x)) <= x
  {
    var q := x * TwoTo52 / OnePointOne;
    assert q * OnePointOne <= x * TwoTo52;
    assert q * OnePointOne / TwoTo52 <= x;
    assert 11 * q * TwoTo52 <= 10 * q * OnePointOne;
  }

  /** Python gives `int(33 / 1.1) == 29`; so does the model. */
  lemma ScaleDownExample()
    ensures ScaleDown(33) == 29
    ensures ScaleUp(29) == 31
  {
  }

  /**
   Once the statement is over the hard limit and `maxBody` is within it, the
   emergency target is shorter than a non-empty text.
   */
  lemma EmergencyShrinks(n: nat, maxBody: nat, actual: nat)
    requires actual > HardLimit && maxBody <= HardLimit
    ensures EmergencyTarget(n, maxBody, actual) <= n
    ensures n > 0 ==> EmergencyTarget(n, maxBody, actual) < n
  {
    assert maxBody * PointEightFive < actual * TwoTo53;
    if n > 0 {
      assert n * (maxBody * PointEightFive) < n * (actual * TwoTo53);
      DivLess(n * maxBody * PointEightFive, actual * TwoTo53, n);
    }
  }

  // ---------------------------------------------------------------------------
  // Cutting text at a line boundary
  // ---------------------------------------------------------------------------

  /** No newline of `s` lies past index `k`. */
  predicate NoNewlineAfter(s: string, k: nat) {
    forall j :: k < j < |s| ==> s[j] != '\n'
  }

  /**
   `text[:target]`, then moved back to just before its last newline when that
   newline lies past `target // 2`.
   */
  function BackOff(text: string, target: nat): (r: string)
    ensures r <= text && |r| <= target
    ensures r == Prefix(text, target) ||
            (target / 2 < |r| < |Prefix(text, target)| && Prefix(text, target)[|r|] == '\n'
             && '\n' !in Prefix(text, target)[|r| + 1..])
    ensures r == Prefix(text, target) <==> NoNewlineAfter(Prefix(text, target), target / 2)
  {
    var cut := Prefix(text, target);
    var nl := LastIndexOf(cut, '\n');
    if nl > target / 2 then
      cut[..nl]
    else
      LastNewlineBefore(cut, target / 2);
      cut
  }

  lemma LastNewlineBefore(s: string, k: nat)
    requires LastIndexOf(s, '\n') <= k
    ensures NoNewlineAfter(s, k)
  {
    var nl := LastIndexOf(s, '\n');
    forall j | k < j < |s|
      ensures s[j] != '\n'
    {
      if nl >= 0 {
        assert s[j] == s[nl + 1..][j - nl - 1];
      }
    }
  }

  /** A cut keeps more than half the target, or is the plain prefix. */
  lemma BackOffKeepsHalf(text: string, target: nat)
    ensures |BackOff(text, target)| > target / 2 || BackOff(text, target) == Prefix(text, target)
  {
  }

  // ---------------------------------------------------------------------------
  // Table selection
  // ---------------------------------------------------------------------------

  /** Running size of a table list: each table's JSON size plus two for ", ". */
  function Cost<T>(ts: seq<T>, size: T -> nat): nat {
    if |ts| == 0 then 0 else size(ts[0]) + 2 + Cost(ts[1..], size)
  }

  /**
   The tables kept, in order, starting from a running size `running`: each
   table is taken while the running size plus its size plus two stays within
   `MaxTablesBytes`, and selection stops at the first that does not fit.
   */
  function KeepTables<T>(tables: seq<T>, size: T -> nat, running: nat): (kept: seq<T>)
    requires running <= MaxTablesBytes
    ensures kept <= tables
    ensures running + Cost(kept, size) <= MaxTablesBytes
    ensures |kept| < |tables| ==> running + Cost(kept, size) + size(tables[|kept|]) + 2 > MaxTablesBytes
    decreases |tables|
  {
    if |tables| == 0 || running + size(tables[0]) + 2 > MaxTablesBytes then []
    else
      var rest := KeepTables(tables[1..], size, running + size(tables[0]) + 2);
      assert ([tables[0]] + rest)[1..] == rest;
      [tables[0]] + rest
  }

  // ---------------------------------------------------------------------------
  // Pre-truncation
  // ---------------------------------------------------------------------------

  /** What the first write carries before the emergency check. */
  datatype Plan<T> = Plan(text: string, tables: seq<T>, truncated: bool)

  /** `len(native_tables)`: `"[]"` for no tables, otherwise the JSON size of the list. */
  function TablesSize<T>(ts: seq<T>, jsonSize: seq<T> -> nat): nat {
    if |ts| == 0 then 2 else jsonSize(ts)
  }

  /** The size estimate of a statement with `n` characters of text. */
  function Estimate(n: nat, tablesSize: nat): nat {
    ScaleUp(n) + tablesSize + SqlOverhead
  }

  /** The text target once tables have been cut: the room divided by 1.1, but at least `TextFloor`. */
  function FloorTarget(room: int): (t: nat)
    ensures t >= TextFloor
    ensures room >= 0 ==> t >= ScaleDown(room)
  {
    if ScaleDown(room) > TextFloor then ScaleDown(room) else TextFloor
  }

  /** The cut once the estimate exceeds `maxBody`, given the room left for text with all tables. */
  function CutPlan<T>(text: string, tables: seq<T>, room: int, maxBody: nat, size: T -> nat, jsonSize: seq<T> -> nat): (p: Plan<T>)
    ensures p.text <= text && p.tables <= tables && p.truncated
  {
    if room > TextFloor then Plan(BackOff(text, ScaleDown(room)), tables, true)
    else
      var kept := KeepTables(tables, size, 2);
      Plan(BackOff(text, FloorTarget(maxBody - TablesSize(kept, jsonSize) - SqlOverhead)), kept, true)
  }

  /** The pre-truncation step of `_save_document_to_filing`. */
  function PreTruncate<T>(text: string, tables: seq<T>, maxBody: nat, size: T -> nat, jsonSize: seq<T> -> nat): (p: Plan<T>)
    ensures p.text <= text && p.tables <= tables
  {
    var tablesSize := TablesSize(tables, jsonSize);
    if Estimate(|text|, tablesSize) <= maxBody then Plan(text, tables, false)
    else CutPlan(text, tables, maxBody - tablesSize - SqlOverhead, maxBody, size, jsonSize)
  }

  /** Under budget, text and tables pass unchanged; over budget, the plan is marked truncated. */
  lemma UnderBudgetUnchanged<T>(text: string, tables: seq<T>, maxBody: nat, size: T -> nat, jsonSize: seq<T> -> nat)
    ensures Estimate(|text|, TablesSize(tables, jsonSize)) <= maxBody <==>
              PreTruncate(text, tables, maxBody, size, jsonSize) == Plan(text, tables, false)
  {
  }

  /**
   With more than `TextFloor` bytes of room, all tables are kept and the cut
   text brings the estimate within `maxBody`.
   */
  lemma RoomyKeepsTables<T>(text: string, tables: seq<T>, room: int, maxBody: nat, size: T -> nat, jsonSize: seq<T> -> nat)
    requires room > TextFloor
    ensures CutPlan(text, tables, room, maxBody, size, jsonSize).tables == tables
    ensures ScaleUp(|CutPlan(text, tables, room, maxBody, size, jsonSize).text|) <= room
  {
    var p := CutPlan(text, tables, room, maxBody, size, jsonSize);
    ScaleDownBounds(room);
    ScaleUpMonotone(|p.text|, ScaleDown(room));
  }

  /**
   Tables are cut only when the room is at most `TextFloor`; then the kept
   tables are `KeepTables` from a running size of two, and the text keeps
   more than 25 000 characters or all of them.
   */
  lemma TightCutsTables<T>(text: string, tables: seq<T>, room: int, maxBody: nat, size: T -> nat, jsonSize: seq<T> -> nat)
    ensures CutPlan(text, tables, room, maxBody, size, jsonSize).tables != tables ==> room <= TextFloor
    ensures room <= TextFloor ==>
              CutPlan(text, tables, room, maxBody, size, jsonSize).tables == KeepTables(tables, size, 2)
              && (|CutPlan(text, tables, room, maxBody, size, jsonSize).text| > TextFloor / 2
                  || CutPlan(text, tables, room, maxBody, size, jsonSize).text == text)
  {
    if room <= TextFloor {
      var kept := KeepTables(tables, size, 2);
      BackOffKeepsHalf(text, FloorTarget(maxBody - TablesSize(kept, jsonSize) - SqlOverhead));
    }
  }

  /**
   Over budget, the plan is the cut for the room `maxBody` leaves beside the
   tables and the statement overhead; with that room above `TextFloor` the
   new estimate is within `maxBody`.
   */
  lemma OverBudgetCuts<T>(text: string, tables: seq<T>, maxBody: nat, size: T -> nat, jsonSize: seq<T> -> nat)
    requires Estimate(|text|, TablesSize(tables, jsonSize)) > maxBody
    ensures var room := maxBody - TablesSize(tables, jsonSize) - SqlOverhead;
            var p := PreTruncate(text, tables, maxBody, size, jsonSize);
            p == CutPlan(text, tables, room, maxBody, size, jsonSize)
            && (room > TextFloor ==> p.tables == tables && Estimate(|p.text|, TablesSize(tables, jsonSize)) <= maxBody)
  {
    var room := maxBody - TablesSize(tables, jsonSize) - SqlOverhead;
    if room > TextFloor {
      RoomyKeepsTables(text, tables, room, maxBody, size, jsonSize);
    }
  }

  // ---------------------------------------------------------------------------
  // The statement and the write protocol
  // ---------------------------------------------------------------------------

  /** The document being stored. */
  datatype Doc = Doc(fid: string, raw: seq<bv8>, sizeBytes: nat, url: string)

  /**
   The fields one `UPDATE exchange_filing:<fid>` sets (`documentStatus` is
   always `processed` and `updatedAt` the server clock; the text is stored
   escaped by `escape_sql`).
   */
  datatype SaveSql<T> = SaveSql(fid: string, size: nat, docType: string, docHash: string,
                                text: string, textLen: nat, tables: seq<T>, tableCount: nat, reason: StatusReason)

  /** `documentType`: the lower-cased path's extension, query and fragment dropped. */
  function DocType(url: string): string {
    var u := Extractor.CleanPath(url);
    if EndsWith(u, ".pdf") then "pdf"
    else if EndsWith(u, ".htm") || EndsWith(u, ".html") then "html"
    else if EndsWith(u, ".xlsx") || EndsWith(u, ".xls") then "xlsx"
    else if EndsWith(u, ".doc") || EndsWith(u, ".docx") then "docx"
    else "unknown"
  }

  /** `documentStatusReason`: empty, or the original length of a truncated text. */
  datatype StatusReason = NotTruncated | TruncatedFrom(origLen: nat)

  /** The text of `documentStatusReason`. */
  function ReasonText(r: StatusReason): (t: string)
    ensures t == "" <==> r == NotTruncated
  {
    match r
    case NotTruncated => ""
    case TruncatedFrom(n) => "truncated_from_" + NatToString(n)
  }

  /** `_build_save_sql(text, tables, count, truncated)`, with the original text length `origLen`. */
  function BuildSaveSql<T>(doc: Doc, md5: seq<bv8> -> string, text: string, tables: seq<T>,
                           truncated: bool, origLen: nat): (w: SaveSql<T>)
    ensures w.text == text && w.textLen == |text|
    ensures w.tables == tables && w.tableCount == |tables|
    ensures w.reason == if truncated then TruncatedFrom(origLen) else NotTruncated
  {
    SaveSql(doc.fid, doc.sizeBytes, DocType(doc.url), if |doc.raw| == 0 then "" else md5(doc.raw),
            text, |text|, tables, |tables|, if truncated then TruncatedFrom(origLen) else NotTruncated)
  }

  /**
   The first write: the plan, re-cut once more if its encoded size passes
   `HardLimit` (and then always marked truncated).
   */
  function FirstWrite<T>(doc: Doc, md5: seq<bv8> -> string, text: string, p: Plan<T>, maxBody: nat,
                         sqlSize: SaveSql<T> -> nat): (w: SaveSql<T>)
    ensures w.text <= p.text && w.tables == p.tables && w.textLen == |w.text|
  {
    var sql := BuildSaveSql(doc, md5, p.text, p.tables, p.truncated, |text|);
    var actual := sqlSize(sql);
    if actual > HardLimit then
      BuildSaveSql(doc, md5, BackOff(p.text, EmergencyTarget(|p.text|, maxBody, actual)), p.tables, true, |text|)
    else sql
  }

  /**
   Over the hard limit the text is re-cut, strictly shorter when it was
   non-empty and `maxBody` is within the hard limit, and the reason records
   the original length; otherwise the planned statement is sent as is.
   */
  lemma EmergencyCut<T>(doc: Doc, md5: seq<bv8> -> string, text: string, p: Plan<T>, maxBody: nat,
                        sqlSize: SaveSql<T> -> nat)
    ensures var sql := BuildSaveSql(doc, md5, p.text, p.tables, p.truncated, |text|);
            var w := FirstWrite(doc, md5, text, p, maxBody, sqlSize);
            if sqlSize(sql) > HardLimit then
              w.reason == TruncatedFrom(|text|)
              && (maxBody <= HardLimit && |p.text| > 0 ==> |w.text| < |p.text|)
            else w == sql
  {
    var sql := BuildSaveSql(doc, md5, p.text, p.tables, p.truncated, |text|);
    var actual := sqlSize(sql);
    if actual > HardLimit && maxBody <= HardLimit {
      EmergencyShrinks(|p.text|, maxBody, actual);
    }
  }

  /** A reply of `surreal_query`: a dictionary with an `error` entry ("" when absent or empty), or anything else. */
  datatype Response = Reply(error: string) | Other

  /** The reply reports an error. */
  predicate Failed(r: Response) {
    r.Reply? && r.error != ""
  }

  /** Error texts of connections reset under an oversized body. */
  const ResetSignatures: seq<string> := ["10053", "10054", "ECONNRESET", "Connection aborted",
                                         "Connection reset", "RemoteDisconnected", "BrokenPipeError"]

  /** `_is_413`. */
  predicate Is413(r: Response) {
    r.Reply? && (Contains(r.error, "413") || AnyContained(r.error, ResetSignatures))
  }

  /** How a save ended. */
  datatype Outcome = Success | TruncationFailed | SaveError(error: string)

  /** The `(ok, reason)` pair `_save_document_to_filing` returns for an outcome. */
  function ResultCode(o: Outcome): (c: (bool, string))
    ensures c.0 <==> c.1 == ""
    ensures c.0 <==> o == Success
  {
    match o
    case Success => (true, "")
    case TruncationFailed => (false, "http_413_truncation_failed")
    case SaveError(e) => (false, "save_error:" + Prefix(e, 100))
  }

  /** The outcome of `_save_document_to_filing` and the writes made. */
  datatype Saved<T> = Saved(outcome: Outcome, writes: seq<SaveSql<T>>)

  /** The retry after a 413: at most `FallbackLimit` characters of the original text, no tables. */
  function RetryWrite<T>(doc: Doc, md5: seq<bv8> -> string, text: string): (w: SaveSql<T>)
    ensures w.text <= text && |w.text| <= FallbackLimit && w.textLen == |w.text|
    ensures w.tables == [] && w.tableCount == 0 && w.reason == TruncatedFrom(|text|)
  {
    BuildSaveSql(doc, md5, BackOff(text, FallbackLimit), [], true, |text|)
  }

  /**
   The replies decide the outcome: success after the first write, a retry
   after a 413-like failure, and the reason codes of the two failures.
   */
  function Respond<T>(first: SaveSql<T>, retry: SaveSql<T>, query: SaveSql<T> -> Response): (s: Saved<T>)
    ensures s.writes == [first] || s.writes == [first, retry]
    ensures |s.writes| == 2 <==> Failed(query(first)) && Is413(query(first))
    ensures s.outcome == Success <==> !Failed(query(s.writes[|s.writes| - 1]))
    ensures s.outcome == TruncationFailed <==> |s.writes| == 2 && Failed(query(retry))
    ensures s.outcome.SaveError? <==> Failed(query(first)) && !Is413(query(first))
    ensures s.outcome.SaveError? ==> s.outcome.error == query(first).error
  {
    var r := query(first);
    if !Failed(r) then Saved(Success, [first])
    else if Is413(r) then
      if !Failed(query(retry)) then Saved(Success, [first, retry])
      else Saved(TruncationFailed, [first, retry])
    else Saved(SaveError(r.error), [first])
  }

  /** The write stores a prefix of `text` and its length. */
  predicate StoresPrefix<T>(w: SaveSql<T>, text: string) {
    w.text <= text && w.textLen == |w.text|
  }

  /** `_save_document_to_filing(fid, raw_bytes, size_bytes, doc_url, extracted_text, tables_json)`. */
  function SaveDocumentToFiling<T>(doc: Doc, text: string, tables: seq<T>, maxBody: nat,
                                   size: T -> nat, jsonSize: seq<T> -> nat, sqlSize: SaveSql<T> -> nat,
                                   md5: seq<bv8> -> string, query: SaveSql<T> -> Response): (s: Saved<T>)
    ensures 1 <= |s.writes| <= 2
    ensures forall w :: w in s.writes ==> StoresPrefix(w, text)
  {
    var p := PreTruncate(text, tables, maxBody, size, jsonSize);
    var first := FirstWrite(doc, md5, text, p, maxBody, sqlSize);
    var retry := RetryWrite(doc, md5, text);
    RespondStores(first, retry, query, text);
    Respond(first, retry, query)
  }

  lemma RespondStores<T>(first: SaveSql<T>, retry: SaveSql<T>, query: SaveSql<T> -> Response, text: string)
    requires StoresPrefix(first, text) && StoresPrefix(retry, text)
    ensures 1 <= |Respond(first, retry, query).writes| <= 2
    ensures forall w :: w in Respond(first, retry, query).writes ==> StoresPrefix(w, text)
  {
  }

  /**
   The retry happens exactly when the first write fails with a 413-like
   error; its failure gives `http_413_truncation_failed`, and any other
   failure of the first write gives `save_error:` and the error's first 100
   characters.
   */
  lemma WriteProtocol<T>(doc: Doc, text: string, tables: seq<T>, maxBody: nat,
                         size: T -> nat, jsonSize: seq<T> -> nat, sqlSize: SaveSql<T> -> nat,
                         md5: seq<bv8> -> string, query: SaveSql<T> -> Response)
    ensures var s := SaveDocumentToFiling(doc, text, tables, maxBody, size, jsonSize, sqlSize, md5, query);
            var r := query(s.writes[0]);
            s.writes[0] == FirstWrite(doc, md5, text, PreTruncate(text, tables, maxBody, size, jsonSize), maxBody, sqlSize)
            && (|s.writes| == 2 <==> Failed(r) && Is413(r))
            && (|s.writes| == 2 ==> s.writes[1] == RetryWrite(doc, md5, text))
            && (s.outcome != Success && |s.writes| == 2 ==> s.outcome == TruncationFailed)
            && (s.outcome != Success && |s.writes| == 1 ==> s.outcome == SaveError(r.error))
  {
  }

  /**
   A document under budget whose statement is within the hard limit is sent
   whole, with all its tables and an empty reason.
   */
  lemma UnderBudgetSentWhole<T>(doc: Doc, text: string, tables: seq<T>, maxBody: nat,
                                size: T -> nat, jsonSize: seq<T> -> nat, sqlSize: SaveSql<T> -> nat,
                                md5: seq<bv8> -> string, query: SaveSql<T> -> Response)
    requires Estimate(|text|, TablesSize(tables, jsonSize)) <= maxBody
    requires sqlSize(BuildSaveSql(doc, md5, text, tables, false, |text|)) <= HardLimit
    ensures var s := SaveDocumentToFiling(doc, text, tables, maxBody, size, jsonSize, sqlSize, md5, query);
            s.writes[0] == BuildSaveSql(doc, md5, text, tables, false, |text|)
            && s.writes[0].reason == NotTruncated
  {
    UnderBudgetUnchanged(text, tables, maxBody, size, jsonSize);
  }

  /** Only a dictionary reply can be a 413, and a reply naming HTTP 413 always is. */
  lemma Is413Examples()
    ensures !Is413(Other)
    ensures Is413(Reply("HTTP 413"))
  {
    ContainsAt("HTTP 413", "413", 5);
  }
}
