/**
 The graph linkers of src/hkex_scraper/graph.py: `_ticker_to_record_id` maps a
 ticker to a company record ID, `link_filings_to_companies` relates companies
 to their filings in batches of 50 tickers, and `cross_reference_filings`
 relates filings to the companies their titles mention, in batches of 100.
 The database is a parameter: a snapshot of filing rows, the set of company
 record IDs, and predicates saying which queries fail.
 */
module Graph {
  import opened Wrappers
  import opened Strings
  import opened Tickers
  import opened Seqs

  // ---------------------------------------------------------------------------
  // _ticker_to_record_id
  // ---------------------------------------------------------------------------

  /**
   `_ticker_to_record_id(ticker)` with the default pattern "{code}_{exchange}":
   the code before the first ".", leading zeros stripped ("0" when nothing is
   left), and the exchange after it ("HK" when there is no ".").
   */
  function TickerToRecordId(ticker: string): (id: string)
    ensures |id| >= 2
  {
    var parts := Split(ticker, '.');
    var code := StripLeadingZeros(parts[0]);
    var exchange := if |parts| > 1 then parts[1] else "HK";
    code + "_" + exchange
  }

  /** The two parts of "code.exchange" when neither contains a dot. */
  lemma SplitTwo(code: string, exchange: string)
    requires '.' !in code && '.' !in exchange
    ensures Split(code + "." + exchange, '.') == [code, exchange]
  {
    assert Join([exchange], ".") == exchange;
    assert Join([code, exchange], ".") == code + "." + exchange;
    SplitJoin([code, exchange], '.');
  }

  /** A ticker "code.exchange" maps to the normalised code and the exchange. */
  lemma RecordIdOfTicker(code: string, exchange: string)
    requires '.' !in code && '.' !in exchange
    ensures TickerToRecordId(code + "." + exchange) == StripLeadingZeros(code) + "_" + exchange
  {
    SplitTwo(code, exchange);
  }

  /**
   The ticker a filing carries for a listed company, `Ticker(code)`, maps to
   the normalised code and "HK": the same node the company table keys on.
   */
  lemma RecordIdOfFilingTicker(code: string)
    requires forall i :: 0 <= i < |code| ==> IsDigit(code[i])
    ensures TickerToRecordId(Ticker(code)) == StripLeadingZeros(code) + "_" + "HK"
  {
    var n := StripLeadingZeros(code);
    assert forall i :: 0 <= i < |n| ==> IsDigit(n[i]);
    ZFillDigits(n, 4);
    RecordIdOfHkTicker(ZFill(n, 4));
    PaddedNormalises(n, 4);
  }

  lemma RecordIdOfHkTicker(z: string)
    requires forall i :: 0 <= i < |z| ==> IsDigit(z[i])
    ensures TickerToRecordId(z + ".HK") == StripLeadingZeros(z) + "_" + "HK"
  {
    assert '.' !in z;
    assert z + ".HK" == z + "." + "HK";
    RecordIdOfTicker(z, "HK");
  }

  /** "0451.HK" maps to "451_HK". */
  lemma RecordIdExample()
    ensures TickerToRecordId("0451.HK") == "451" + "_" + "HK"
  {
    assert "0451.HK" == "0451" + "." + "HK";
    RecordIdOfTicker("0451", "HK");
    assert "0451"[1..] == "451";
    assert LStripChar("451", '0') == "451";
    assert StripLeadingZeros("0451") == "451";
  }

  /** A code of zeros only, even an empty one, maps to "0". */
  lemma AllZeroCode(code: string, exchange: string)
    requires forall i :: 0 <= i < |code| ==> code[i] == '0'
    requires '.' !in exchange
    ensures TickerToRecordId(code + "." + exchange) == "0" + "_" + exchange
  {
    RecordIdOfTicker(code, exchange);
  }

  /** A ticker without a dot is on the Hong Kong exchange. */
  lemma NoDotMeansHk(ticker: string)
    requires '.' !in ticker
    ensures TickerToRecordId(ticker) == StripLeadingZeros(ticker) + "_" + "HK"
  {
    SplitWithout(ticker, '.');
  }

  /** Whatever follows a second dot is ignored. */
  lemma ExtraPartsIgnored(code: string, exchange: string, rest: string)
    requires '.' !in code && '.' !in exchange
    ensures TickerToRecordId(code + "." + exchange + "." + rest) == TickerToRecordId(code + "." + exchange)
  {
    var t := code + "." + exchange + "." + rest;
    var parts := Split(rest, '.');
    var all := [code, exchange] + parts;
    assert Join(all, ".") == code + "." + Join([exchange] + parts, ".");
    assert Join([exchange] + parts, ".") == exchange + "." + Join(parts, ".");
    assert Join(all, ".") == t;
    forall i | 0 <= i < |all|
      ensures '.' !in all[i]
    {
      if i >= 2 {
        assert all[i] == parts[i - 2];
      }
    }
    SplitJoin(all, '.');
    RecordIdOfTicker(code, exchange);
  }

  // ---------------------------------------------------------------------------
  // Batches
  // ---------------------------------------------------------------------------

  /** `[xs[s:s + size] for s in range(0, len(xs), size)]`. */
  function Batches<T>(xs: seq<T>, size: nat): (bs: seq<seq<T>>)
    requires size > 0
    decreases |xs|
  {
    if |xs| == 0 then []
    else if |xs| <= size then [xs]
    else [xs[..size]] + Batches(xs[size..], size)
  }

  /** The batches, in order, make up the whole list, each non-empty and at most `size` long. */
  lemma {:induction false} BatchesPartition<T>(xs: seq<T>, size: nat)
    requires size > 0
    ensures Flatten(Batches(xs, size)) == xs
    ensures forall i :: 0 <= i < |Batches(xs, size)| ==> 0 < |Batches(xs, size)[i]| <= size
    ensures forall i :: 0 <= i < |Batches(xs, size)| - 1 ==> |Batches(xs, size)[i]| == size
    decreases |xs|
  {
    if |xs| > size {
      BatchesPartition(xs[size..], size);
      var rest := Batches(xs[size..], size);
      assert Batches(xs, size) == [xs[..size]] + rest;
      assert Batches(xs, size)[1..] == rest;
      assert xs[..size] + xs[size..] == xs;
      forall i | 1 <= i < |Batches(xs, size)|
        ensures Batches(xs, size)[i] == rest[i - 1]
      {
      }
    }
  }

  /** The number of items in the batches the database accepted. */
  function AcceptedCount<T>(bs: seq<seq<T>>, fails: seq<T> -> bool): (n: nat)
    ensures n <= |Flatten(bs)|
  {
    if |bs| == 0 then 0
    else (if fails(bs[0]) then 0 else |bs[0]|) + AcceptedCount(bs[1..], fails)
  }

  /** The first batch from `start` ends at `end`; the rest are the batches from `end`. */
  lemma BatchesFrom<T>(items: seq<T>, size: nat, start: nat, end: nat)
    requires size > 0 && start < |items|
    requires end == if start + size < |items| then start + size else |items|
    ensures Batches(items[start..], size) == [items[start..end]] + Batches(items[end..], size)
  {
    var xs := items[start..];
    if |xs| > size {
      assert xs[..size] == items[start..end];
      assert xs[size..] == items[end..];
    } else {
      assert xs == items[start..end];
      assert items[end..] == [];
    }
  }

  lemma AcceptedCons<T>(b: seq<T>, bs: seq<seq<T>>, fails: seq<T> -> bool)
    ensures AcceptedCount([b] + bs, fails) == (if fails(b) then 0 else |b|) + AcceptedCount(bs, fails)
  {
    assert ([b] + bs)[1..] == bs;
  }

  /** Sends `items` in batches of `size`: each batch either succeeds whole or fails whole. */
  method SendBatches<T>(items: seq<T>, size: nat, fails: seq<T> -> bool) returns (ok: nat, errors: nat, sent: seq<seq<T>>)
    requires size > 0
    ensures sent == Batches(items, size)
    ensures ok + errors == |items|
    ensures ok == AcceptedCount(sent, fails)
  {
    ok, errors, sent := 0, 0, [];
    var start := 0;
    while start < |items|
      invariant start <= |items|
      invariant sent + Batches(items[start..], size) == Batches(items, size)
      invariant ok + errors == start
      invariant ok + AcceptedCount(Batches(items[start..], size), fails) == AcceptedCount(Batches(items, size), fails)
      decreases |items| - start
    {
      var end := if start + size < |items| then start + size else |items|;
      var batch := items[start..end];
      BatchesFrom(items, size, start, end);
      AcceptedCons(batch, Batches(items[end..], size), fails);
      if fails(batch) {
        errors := errors + |batch|;
      } else {
        ok := ok + |batch|;
      }
      assert sent + ([batch] + Batches(items[end..], size)) == (sent + [batch]) + Batches(items[end..], size);
      sent := sent + [batch];
      start := end;
    }
    assert items[start..] == [];
  }

  // ---------------------------------------------------------------------------
  // Matching tickers against the company table
  // ---------------------------------------------------------------------------

  /** `f"{COMPANY_TABLE}:{record_id}"`. */
  function CompanyKey(table: string, ticker: string): string {
    table + ":" + TickerToRecordId(ticker)
  }

  /** The items whose company exists, in order: the reference filter. */
  function Keep<T>(items: seq<T>, key: T -> string, companyIds: set<string>): (r: seq<T>)
    ensures |r| <= |items|
    decreases |items|
  {
    if |items| == 0 then []
    else Keep(items[..|items| - 1], key, companyIds)
         + (if key(items[|items| - 1]) in companyIds then [items[|items| - 1]] else [])
  }

  /** An item is kept exactly when it is one of the items and its company exists. */
  lemma {:induction false} KeepMembers<T(!new)>(items: seq<T>, key: T -> string, companyIds: set<string>)
    ensures forall x :: x in Keep(items, key, companyIds) <==> x in items && key(x) in companyIds
    decreases |items|
  {
    if |items| > 0 {
      var init := items[..|items| - 1];
      KeepMembers(init, key, companyIds);
      assert items == init + [items[|items| - 1]];
    }
  }

  /** The loop of the linkers that checks each item's company: kept items and the skipped count. */
  method MatchCompanies<T>(items: seq<T>, key: T -> string, companyIds: set<string>) returns (valid: seq<T>, skipped: nat)
    ensures valid == Keep(items, key, companyIds)
    ensures |valid| + skipped == |items|
  {
    valid, skipped := [], 0;
    var i := 0;
    while i < |items|
      invariant i <= |items|
      invariant valid == Keep(items[..i], key, companyIds)
      invariant |valid| + skipped == i
    {
      assert items[..i + 1][..i] == items[..i];
      if key(items[i]) in companyIds {
        valid := valid + [items[i]];
      } else {
        skipped := skipped + 1;
      }
      i := i + 1;
    }
    assert items[..i] == items;
  }

  // ---------------------------------------------------------------------------
  // link_filings_to_companies
  // ---------------------------------------------------------------------------

  /**
   Where the tickers come from: the tickers of the current run, or a full
   scan of the filing table, which may fail (`None`).
   */
  datatype TickerSource = FromRun(run: set<string>) | FullScan(scan: Option<seq<string>>)

  /** Keeps the non-empty tickers of a scan, in order. */
  function NonEmpty(xs: seq<string>): (r: seq<string>)
    ensures forall x :: x in r <==> x in xs && |x| > 0
  {
    if |xs| == 0 then []
    else
      assert forall x :: x in xs <==> x == xs[0] || x in xs[1..];
      (if |xs[0]| > 0 then [xs[0]] else []) + NonEmpty(xs[1..])
  }

  /** The tickers to link: the run's set sorted, or the scan's non-empty ones; `None` when the scan failed. */
  function SourceTickers(src: TickerSource): (r: Option<seq<string>>)
    ensures src.FromRun? ==> r.Some? && StrictlySorted(r.value) && (forall x :: x in r.value <==> x in src.run)
    ensures src.FullScan? ==> (r.None? <==> src.scan.None?)
  {
    match src
    case FromRun(run) => Some(SortedList(run))
    case FullScan(None) => None
    case FullScan(Some(xs)) => Some(NonEmpty(xs))
  }

  /** What the linker did: the batches it sent and its counters. */
  datatype LinkReport = LinkReport(sent: seq<seq<string>>, linked: nat, errors: nat, skipped: nat, result: nat)

  const LinkBatchSize := 50

  /**
   `link_filings_to_companies(ticker_set)`. The result is the edge count the
   final count query reports, `edgeCount`; `fails` says which batches the
   database rejects.
   */
  method LinkFilingsToCompanies(table: string, src: TickerSource, companyIds: set<string>,
                                fails: seq<string> -> bool, edgeCount: nat) returns (r: LinkReport)
    ensures table == "" ==> r == LinkReport([], 0, 0, 0, 0)
    ensures table != "" && SourceTickers(src).None? ==> r == LinkReport([], 0, 0, 0, 0)
    ensures table != "" && SourceTickers(src).Some? ==>
      var tickers := SourceTickers(src).value;
      var valid := Keep(tickers, t => CompanyKey(table, t), companyIds);
      && r.sent == Batches(valid, LinkBatchSize)
      && r.linked + r.errors == |valid|
      && |valid| + r.skipped == |tickers|
      && r.linked == AcceptedCount(r.sent, fails)
      && r.result == edgeCount
  {
    if table == "" {
      return LinkReport([], 0, 0, 0, 0);
    }
    var src' := SourceTickers(src);
    if src'.None? {
      return LinkReport([], 0, 0, 0, 0);
    }
    var tickers := src'.value;
    var key := (t: string) => CompanyKey(table, t);
    var valid, skipped := MatchCompanies(tickers, key, companyIds);
    var linked, errors, sent := SendBatches(valid, LinkBatchSize, fails);
    r := LinkReport(sent, linked, errors, skipped, edgeCount);
  }

  // ---------------------------------------------------------------------------
  // cross_reference_filings
  // ---------------------------------------------------------------------------

  /** A filing row as the scan returns it; a missing title or code reads as "". */
  datatype FilingRow = FilingRow(id: string, title: string, stockCode: string)

  const PageSize := 5000

  /** The page at `offset` of the snapshot: `START offset LIMIT 5000`. */
  function PageAt(rows: seq<FilingRow>, offset: nat): (p: seq<FilingRow>)
    ensures |p| <= PageSize
  {
    if offset >= |rows| then []
    else if offset + PageSize <= |rows| then rows[offset..offset + PageSize]
    else rows[offset..]
  }

  /**
   The paging loop: pages of 5000 until a query fails (`failsAt(offset)`), a
   page is empty, or a page is short.
   */
  method FetchFilings(rows: seq<FilingRow>, failsAt: nat -> bool) returns (filings: seq<FilingRow>, pages: nat)
    ensures filings <= rows
    ensures pages >= 1
    ensures (forall k: nat :: k <= |rows| ==> !failsAt(k)) ==> filings == rows
  {
    filings := [];
    pages := 0;
    var offset := 0;
    var stop := false;
    while !stop
      invariant offset <= |rows|
      invariant !stop ==> filings == rows[..offset]
      invariant stop ==> filings <= rows
      invariant stop && (forall k: nat :: k <= |rows| ==> !failsAt(k)) ==> filings == rows
      invariant pages >= 1 || (!stop && offset == 0)
      decreases |rows| - offset + (if stop then 0 else 1)
    {
      pages := pages + 1;
      if failsAt(offset) {
        stop := true;
      } else {
        var batch := PageAt(rows, offset);
        if |batch| == 0 {
          stop := true;
        } else {
          assert rows[..offset] + batch == rows[..offset + |batch|];
          filings := filings + batch;
          if |batch| < PageSize {
            stop := true;
          } else {
            offset := offset + PageSize;
          }
        }
      }
    }
  }

  /** The tickers a filing's title references; none without a title or an id. */
  function RefsOf(f: FilingRow): seq<string> {
    if |f.title| == 0 || |f.id| == 0 then [] else ExtractReferencedTickers(f.title, f.stockCode)
  }

  /** The filing has a title and an id, and its title references ticker `t`. */
  ghost predicate Mentions(f: FilingRow, t: string) {
    |f.title| > 0 && |f.id| > 0 && t in ExtractReferencedTickers(f.title, f.stockCode)
  }

  /** The references of one filing, each paired with the filing's id. */
  function XrefsOf(f: FilingRow): (xs: seq<(string, string)>)
    ensures |f.title| == 0 || |f.id| == 0 ==> xs == []
  {
    Pairs(f.id, RefsOf(f))
  }

  /** `[(id, t) for t in refs]`. */
  function Pairs(id: string, refs: seq<string>): (xs: seq<(string, string)>)
    ensures |xs| == |refs|
  {
    seq(|refs|, i requires 0 <= i < |refs| => (id, refs[i]))
  }

  lemma InPairs(id: string, refs: seq<string>, x: (string, string))
    ensures x in Pairs(id, refs) <==> x.0 == id && x.1 in refs
  {
    if x.0 == id && x.1 in refs {
      var j :| 0 <= j < |refs| && refs[j] == x.1;
      assert Pairs(id, refs)[j] == x;
    }
  }

  /** The references of all the filings, filing by filing. */
  function Xrefs(filings: seq<FilingRow>): seq<(string, string)> {
    Flatten(Map(XrefsOf, filings))
  }

  lemma InXrefsOf(f: FilingRow, x: (string, string))
    ensures x in XrefsOf(f) <==> x.0 == f.id && Mentions(f, x.1)
  {
    InPairs(f.id, RefsOf(f), x);
    RefsOfMentions(f, x.1);
  }

  lemma RefsOfMentions(f: FilingRow, t: string)
    ensures t in RefsOf(f) <==> Mentions(f, t)
  {
  }

  /** Each cross-reference names a filing with a title and id, and a ticker its title references. */
  lemma XrefsSound(filings: seq<FilingRow>, x: (string, string))
    requires x in Xrefs(filings)
    ensures exists f :: f in filings && f.id == x.0 && Mentions(f, x.1)
  {
    FlattenMember(Map(XrefsOf, filings), x);
    var k :| 0 <= k < |filings| && x in Map(XrefsOf, filings)[k];
    InXrefsOf(filings[k], x);
    assert filings[k] in filings;
  }

  /** Each ticker a filing with a title and id references is among the cross-references. */
  lemma XrefsComplete(filings: seq<FilingRow>, k: nat, t: string)
    requires k < |filings| && Mentions(filings[k], t)
    ensures (filings[k].id, t) in Xrefs(filings)
  {
    InXrefsOf(filings[k], (filings[k].id, t));
    InFlatten(Map(XrefsOf, filings), k, (filings[k].id, t));
  }

  /** What the cross-referencer did: pages fetched, filings scanned, batches sent, counters. */
  datatype XrefReport = XrefReport(pages: nat, filings: seq<FilingRow>, sent: seq<seq<(string, string)>>,
                                   created: nat, errors: nat, skipped: nat)

  const XrefBatchSize := 100

  function XrefKey(table: string): ((string, string)) -> string {
    (x: (string, string)) => CompanyKey(table, x.1)
  }

  /** `(filing_id, record_id)` for each kept reference. */
  function ToRecords(xs: seq<(string, string)>): (r: seq<(string, string)>)
    ensures |r| == |xs|
    ensures forall i :: 0 <= i < |xs| ==> r[i] == (xs[i].0, TickerToRecordId(xs[i].1))
  {
    seq(|xs|, i requires 0 <= i < |xs| => (xs[i].0, TickerToRecordId(xs[i].1)))
  }

  /**
   `cross_reference_filings(ticker_set)` over the snapshot `rows` of the
   filing table the query selects; the result is `created`.
   */
  method CrossReferenceFilings(table: string, rows: seq<FilingRow>, failsAt: nat -> bool,
                               companyIds: set<string>, fails: seq<(string, string)> -> bool) returns (r: XrefReport)
    ensures table == "" ==> r == XrefReport(0, [], [], 0, 0, 0)
    ensures table != "" ==> r.pages >= 1 && r.filings <= rows
    ensures table != "" && (forall k: nat :: k <= |rows| ==> !failsAt(k)) ==> r.filings == rows
    ensures Xrefs(r.filings) == [] ==> r.sent == [] && r.created == 0 && r.errors == 0
    ensures table != "" && Xrefs(r.filings) != [] ==>
      var xs := Xrefs(r.filings);
      var valid := Keep(xs, XrefKey(table), companyIds);
      && r.sent == Batches(ToRecords(valid), XrefBatchSize)
      && r.created + r.errors == |valid|
      && |valid| + r.skipped == |xs|
      && r.created == AcceptedCount(r.sent, fails)
  {
    if table == "" {
      return XrefReport(0, [], [], 0, 0, 0);
    }
    var filings, pages := FetchFilings(rows, failsAt);
    var xs := Xrefs(filings);
    if |xs| == 0 {
      return XrefReport(pages, filings, [], 0, 0, 0);
    }
    var valid, skipped := MatchCompanies(xs, XrefKey(table), companyIds);
    var created, errors, sent := SendBatches(ToRecords(valid), XrefBatchSize, fails);
    r := XrefReport(pages, filings, sent, created, errors, skipped);
  }
}
