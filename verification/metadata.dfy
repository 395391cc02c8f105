/**
 Phase 1 persistence, `_save_filings_batch_metadata` of
 src/hkex_scraper/pipeline.py: each scraped filing becomes one `UPSERT` of its
 metadata, with the company ticker and filing date derived from the record,
 and the list of upserts goes to the batch persister.

 The statement text and the MD5-based filing id are not built: an upsert is
 the record of the fields it sets.
 */
module Metadata {
  import opened Wrappers
  import opened Strings
  import opened TextUtils
  import opened Classify
  import opened Tickers
  import Api
  import Graph
  import Db
  import opened Seqs

  // ---------------------------------------------------------------------------
  // Company ticker
  // ---------------------------------------------------------------------------

  /** `filingCategory`. */
  datatype FilingCategory = ListedCompany | DerivativeIssuer | UnknownIssuer

  datatype Owner = Owner(ticker: string, category: FilingCategory)

  /**
   The ticker and category of a filing: a blank stock code with a derivative
   title gives the issuer's `_DERIV.HK` ticker, any other blank code
   `UNKNOWN.HK`, and a real code its normalised four-digit `.HK` ticker.
   */
  function CompanyTicker(stockCode: string, title: string): (o: Owner)
    ensures o.category == ListedCompany <==> |Strip(stockCode)| > 0
    ensures o.category == DerivativeIssuer <==> |Strip(stockCode)| == 0 && IsDerivativeIssuerFiling(title)
    ensures |Strip(stockCode)| == 0 && IsDerivativeIssuerFiling(title) ==> o.ticker == ExtractIssuerName(title) + "_DERIV.HK"
    ensures |Strip(stockCode)| == 0 && !IsDerivativeIssuerFiling(title) ==> o.ticker == "UNKNOWN.HK"
  {
    var blank := |Strip(stockCode)| == 0;
    if blank && IsDerivativeIssuerFiling(title) then
      Owner(ExtractIssuerName(title) + "_DERIV.HK", DerivativeIssuer)
    else if blank then
      Owner("UNKNOWN.HK", UnknownIssuer)
    else
      Owner(Ticker(stockCode), ListedCompany)
  }

  /**
   A derivative filing's ticker is a non-empty issuer name of capitals and
   digits followed by "_DERIV.HK", and a Daily-report title with no known
   issuer in it is owned by the issuer word before " - Daily".
   */
  lemma DerivativeTicker(w: string, rest: string)
    requires |w| > 0 && forall i :: 0 <= i < |w| ==> IsUpperAlnum(w[i])
    requires IsDerivativeIssuerFiling(w + " - Daily" + rest)
    requires forall k :: 0 <= k < |KnownIssuers| ==> !Contains(Upper(w + " - Daily" + rest), KnownIssuers[k].keyword)
    ensures CompanyTicker("", w + " - Daily" + rest) == Owner(w + "_DERIV.HK", DerivativeIssuer)
  {
    assert ExtractIssuerName(w + " - Daily" + rest) == w by { IssuerFromDaily(KnownIssuers, w, rest); }
    assert |Strip("")| == 0;
  }

  /**
   A listed filing's ticker is the normalised code zero-padded to four digits
   with ".HK", and it is never among the tickers its own title references.
   */
  lemma ListedTicker(stockCode: string, title: string)
    requires |Strip(stockCode)| > 0
    ensures CompanyTicker(stockCode, title).ticker == ZFill(StripLeadingZeros(stockCode), 4) + ".HK"
    ensures CompanyTicker(stockCode, title).ticker !in ExtractReferencedTickers(title, stockCode)
  {
  }

  /**
   For a digit stock code, the filing's ticker names the company node the
   graph linker writes for it: the code without leading zeros, then "_HK".
   */
  lemma ListedTickerIsCompanyNode(stockCode: string, title: string)
    requires |Strip(stockCode)| > 0
    requires forall i :: 0 <= i < |stockCode| ==> IsDigit(stockCode[i])
    ensures Graph.TickerToRecordId(CompanyTicker(stockCode, title).ticker) == StripLeadingZeros(stockCode) + "_" + "HK"
  {
    Graph.RecordIdOfFilingTicker(stockCode);
  }

  // ---------------------------------------------------------------------------
  // Filing date
  // ---------------------------------------------------------------------------

  /** `filingDate`: `NULL`, or the date literal `d'yyyy-mm-dd'` from the parts of "dd/mm/yyyy". */
  datatype DateExpr = Null | DateLit(year: string, month: string, day: string)

  /** The SurrealQL text of a date expression. */
  function DateSql(e: DateExpr): string {
    match e
    case Null => "NULL"
    case DateLit(y, m, d) => "d'" + y + "-" + m + "-" + d + "'"
  }

  /**
   A non-empty date with exactly three "/"-separated parts becomes a date
   literal of those parts, year first; anything else becomes `NULL`. The parts
   are not checked to be numbers.
   */
  function FilingDateExpr(date: string): (e: DateExpr)
    ensures e.Null? <==> |Split(date, '/')| != 3
    ensures e.DateLit? ==> '/' !in e.day && '/' !in e.month && '/' !in e.year
    ensures e.DateLit? ==> Join([e.day, e.month, e.year], "/") == date
  {
    if |date| == 0 then Null
    else
      var parts := Split(date, '/');
      if |parts| == 3 then
        assert parts == [parts[0], parts[1], parts[2]];
        DateLit(parts[2], parts[1], parts[0])
      else Null
  }

  /** Any "dd/mm/yyyy" built from slash-free parts gives back those parts. */
  lemma DateRoundTrip(day: string, month: string, year: string)
    requires '/' !in day && '/' !in month && '/' !in year
    ensures FilingDateExpr(Join([day, month, year], "/")) == DateLit(year, month, day)
  {
    SplitJoin([day, month, year], '/');
  }

  // ---------------------------------------------------------------------------
  // The upsert and the batch
  // ---------------------------------------------------------------------------

  /** The fields one `UPSERT exchange_filing:<fid>` sets (`exchange`, `source` and `updatedAt` are fixed). */
  datatype FilingRecord = FilingRecord(ticker: string, stockCode: string, stockName: string,
                                       filingType: string, filingSubtype: string, category: FilingCategory,
                                       title: string, filingDate: DateExpr, documentUrl: string,
                                       referencedTickers: seq<string>)

  /** The upsert for one filing: text fields whitespace-squashed where the source squashes them, and escaped. */
  function FilingToRecord(f: Api.Filing): (r: FilingRecord)
    ensures r.category == ListedCompany <==> |Strip(f.stockCode)| > 0
    ensures '\n' !in r.title && '\n' !in r.stockName && '\n' !in r.documentUrl
    ensures r.referencedTickers == ExtractReferencedTickers(f.title, f.stockCode)
    ensures StrictlySorted(r.referencedTickers)
  {
    var owner := CompanyTicker(f.stockCode, f.title);
    var c := ClassifyFiling(f.title);
    FilingRecord(owner.ticker, EscapeSql(Some(f.stockCode)), EscapeSql(Some(SquashWs(f.stockName))),
                 c.code, EscapeSql(Some(c.subtype)), owner.category,
                 EscapeSql(Some(SquashWs(f.title))), FilingDateExpr(f.date), EscapeSql(Some(f.link)),
                 ExtractReferencedTickers(f.title, f.stockCode))
  }

  /**
   `_save_filings_batch_metadata(filings, dry_run)`: nothing for no filings,
   the full count on a dry run, otherwise what the batch persister reports
   for the upserts, starting at depth 0 with the default cap.
   */
  function SaveFilingsBatchMetadata(filings: seq<Api.Filing>, dryRun: bool, accepts: seq<FilingRecord> -> bool): (n: nat)
    ensures n <= |filings|
    ensures |filings| == 0 ==> n == 0
    ensures |filings| > 0 && dryRun ==> n == |filings|
    ensures |filings| > 0 && !dryRun && accepts(Map(FilingToRecord, filings)) ==> n == |filings|
  {
    if |filings| == 0 then 0
    else if dryRun then |filings|
    else Db.UpsertBatchWithRetry(Map(FilingToRecord, filings), 0, Db.MaxDepth, accepts).count
  }
}
