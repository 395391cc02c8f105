/**
 The Markdown table helpers of src/hkex_scraper/extractor.py:
 `_table_to_markdown` renders headers and rows as a pipe table, and
 `_extract_tables_from_md` finds the pipe tables in extracted Markdown and
 describes each one. Rendering a table and parsing it back recovers its headers.
 */
module Tables {
  import opened Strings
  import opened TextUtils

  // ---------------------------------------------------------------------------
  // _table_to_markdown
  // ---------------------------------------------------------------------------

  /**
   A table cell as the document libraries hand it over: `None`, another falsy
   value (0, False, ""), or a truthy value whose `str()` is `s`.
   */
  datatype Cell = Null | Falsy | Text(s: string)

  /** `squash_ws(str(c)) if c else ""`. */
  function CellText(c: Cell): (r: string)
    ensures Squashed(r)
    ensures !c.Text? ==> r == ""
  {
    match c
    case Text(s) => SquashWs(s)
    case _ => ""
  }

  /** "Col1", ..., "ColN": the placeholder header names. */
  function ColNames(n: nat): (r: seq<string>)
    ensures |r| == n
  {
    seq(n, i requires 0 <= i < n => "Col" + NatToString(i + 1))
  }

  predicate AllNull(headers: seq<Cell>) {
    forall i :: 0 <= i < |headers| ==> headers[i] == Null
  }

  /** The width of the first row, 0 when there is none. */
  function FirstWidth(rows: seq<seq<Cell>>): nat {
    if |rows| > 0 then |rows[0]| else 0
  }

  /** The header texts: the given ones, or placeholders as wide as the first row when all are missing. */
  function HeaderTexts(headers: seq<Cell>, rows: seq<seq<Cell>>): (hs: seq<string>)
    ensures forall i :: 0 <= i < |hs| ==> Squashed(hs[i])
    ensures !(|headers| == 0 || AllNull(headers)) ==>
              |hs| == |headers| && forall i :: 0 <= i < |hs| ==> hs[i] == CellText(headers[i])
  {
    var given := if |headers| == 0 || AllNull(headers)
                 then (var n := FirstWidth(rows);
                       seq(n, i requires 0 <= i < n => Text(ColNames(n)[i])))
                 else headers;
    seq(|given|, i requires 0 <= i < |given| => CellText(given[i]))
  }

  /** The cells of one row, padded with "" or cut to exactly `n` entries. */
  function RowCells(row: seq<Cell>, n: nat): (cells: seq<string>)
    ensures |cells| == n
    ensures forall j :: 0 <= j < n ==> cells[j] == if j < |row| then CellText(row[j]) else ""
  {
    var texts := seq(|row|, j requires 0 <= j < |row| => CellText(row[j]));
    if |texts| < n then texts + seq(n - |texts|, _ => "") else texts[..n]
  }

  /** `"| " + " | ".join(cells) + " |"`. */
  function Line(cells: seq<string>): string {
    "| " + Join(cells, " | ") + " |"
  }

  function Dashes(n: nat): (r: seq<string>)
    ensures |r| == n
  {
    seq(n, _ => "---")
  }

  /** The lines of the rendered table: header line, separator line, one line per row. */
  function TableLines(headers: seq<Cell>, rows: seq<seq<Cell>>): (ls: seq<string>)
    ensures |ls| == 2 + |rows|
  {
    var hs := HeaderTexts(headers, rows);
    [Line(hs), Line(Dashes(|hs|))] + RowLines(rows, |hs|)
  }

  /** The header line comes first, then the separator line, then one line per row in order. */
  lemma TableLinesShape(headers: seq<Cell>, rows: seq<seq<Cell>>)
    ensures TableLines(headers, rows)[0] == Line(HeaderTexts(headers, rows))
    ensures TableLines(headers, rows)[1] == Line(Dashes(|HeaderTexts(headers, rows)|))
    ensures forall i :: 0 <= i < |rows| ==>
              TableLines(headers, rows)[i + 2] == Line(RowCells(rows[i], |HeaderTexts(headers, rows)|))
  {
    TableLinesSplit(headers, rows);
    TableLinesRows(headers, rows);
  }

  lemma TableLinesSplit(headers: seq<Cell>, rows: seq<seq<Cell>>)
    ensures TableLines(headers, rows)
            == [Line(HeaderTexts(headers, rows)), Line(Dashes(|HeaderTexts(headers, rows)|))]
               + RowLines(rows, |HeaderTexts(headers, rows)|)
  {
  }

  lemma TableLinesRows(headers: seq<Cell>, rows: seq<seq<Cell>>)
    ensures forall i :: 0 <= i < |rows| ==>
              TableLines(headers, rows)[i + 2] == Line(RowCells(rows[i], |HeaderTexts(headers, rows)|))
  {
    var hs := HeaderTexts(headers, rows);
    TableLinesSplit(headers, rows);
    AfterPair([Line(hs), Line(Dashes(|hs|))], RowLines(rows, |hs|));
  }

  /** Past a two-element prefix, a concatenation indexes into its second part. */
  lemma AfterPair<T>(a: seq<T>, b: seq<T>)
    requires |a| == 2
    ensures forall i :: 0 <= i < |b| ==> (a + b)[i + 2] == b[i]
  {
  }

  /** One rendered line per row, each cut or padded to `n` cells. */
  function RowLines(rows: seq<seq<Cell>>, n: nat): (ls: seq<string>)
    ensures |ls| == |rows|
    ensures forall i :: 0 <= i < |rows| ==> ls[i] == Line(RowCells(rows[i], n))
  {
    seq(|rows|, i requires 0 <= i < |rows| => Line(RowCells(rows[i], n)))
  }

  /** `_table_to_markdown(headers, rows)`. */
  function TableToMarkdown(headers: seq<Cell>, rows: seq<seq<Cell>>): (r: string)
    ensures |headers| == 0 && |rows| == 0 ==> r == ""
    ensures !(|headers| == 0 && |rows| == 0) ==> Split(r, '\n') == TableLines(headers, rows)
  {
    if |headers| == 0 && |rows| == 0 then ""
    else
      var ls := TableLines(headers, rows);
      TableLinesOneLine(headers, rows);
      SplitJoin(ls, '\n');
      Join(ls, "\n")
  }

  // ---------------------------------------------------------------------------
  // Facts about rendered lines
  // ---------------------------------------------------------------------------

  /** No part and not the separator contains `c`, so neither does the join. */
  lemma {:induction false} JoinAvoids(parts: seq<string>, sep: string, c: char)
    requires c !in sep
    requires forall i :: 0 <= i < |parts| ==> c !in parts[i]
    ensures c !in Join(parts, sep)
    decreases |parts|
  {
    if |parts| > 1 {
      JoinAvoids(parts[1..], sep, c);
    }
  }

  /** Squashed text holds no line break. */
  lemma SquashedHasNoNewline(s: string)
    requires Squashed(s)
    ensures '\n' !in s
  {
    forall i | 0 <= i < |s|
      ensures s[i] != '\n'
    {
      assert IsPrintable(s[i]) || s[i] == ' ';
    }
  }

  lemma LineOfSquashed(cells: seq<string>)
    requires forall j :: 0 <= j < |cells| ==> Squashed(cells[j])
    ensures '\n' !in Line(cells)
  {
    forall j | 0 <= j < |cells|
      ensures '\n' !in cells[j]
    {
      SquashedHasNoNewline(cells[j]);
    }
    JoinAvoids(cells, " | ", '\n');
  }

  /** Every rendered line is a single line. */
  lemma TableLinesOneLine(headers: seq<Cell>, rows: seq<seq<Cell>>)
    ensures forall i :: 0 <= i < |TableLines(headers, rows)| ==> '\n' !in TableLines(headers, rows)[i]
  {
    var ls := TableLines(headers, rows);
    forall i | 0 <= i < |ls|
      ensures '\n' !in ls[i]
    {
      if i == 0 {
        LineOfSquashed(HeaderTexts(headers, rows));
      } else if i == 1 {
        SeparatorOneLine(|HeaderTexts(headers, rows)|);
      } else {
        RowLineOneLine(headers, rows, i - 2);
      }
    }
  }

  lemma SeparatorOneLine(n: nat)
    ensures '\n' !in Line(Dashes(n))
  {
    assert forall j :: 0 <= j < n ==> Dashes(n)[j] == "---";
    LineOfSquashed(Dashes(n));
  }

  lemma RowLineOneLine(headers: seq<Cell>, rows: seq<seq<Cell>>, k: nat)
    requires k < |rows|
    ensures '\n' !in TableLines(headers, rows)[k + 2]
  {
    LineOfSquashed(RowCells(rows[k], |HeaderTexts(headers, rows)|));
  }

  /** A placeholder name is already squashed, so `squash_ws` keeps it. */
  lemma ColNameSquashed(k: nat)
    ensures Squashed("Col" + NatToString(k))
  {
    var s := "Col" + NatToString(k);
    forall i | 0 <= i < |s|
      ensures !IsSpace(s[i]) && IsPrintable(s[i])
    {
      if i >= 3 {
        assert s[i] == NatToString(k)[i - 3];
      }
    }
  }

  /** With every header missing, the headers are Col1..ColN for the width N of the first row. */
  lemma PlaceholderHeaders(headers: seq<Cell>, rows: seq<seq<Cell>>)
    requires |headers| == 0 || AllNull(headers)
    ensures HeaderTexts(headers, rows) == ColNames(FirstWidth(rows))
  {
    var n := FirstWidth(rows);
    assert |HeaderTexts(headers, rows)| == n;
    forall i | 0 <= i < n
      ensures HeaderTexts(headers, rows)[i] == ColNames(n)[i]
    {
      PlaceholderAt(headers, rows, i);
    }
  }

  lemma PlaceholderAt(headers: seq<Cell>, rows: seq<seq<Cell>>, i: nat)
    requires |headers| == 0 || AllNull(headers)
    requires i < FirstWidth(rows)
    ensures |HeaderTexts(headers, rows)| == FirstWidth(rows)
    ensures HeaderTexts(headers, rows)[i] == ColNames(FirstWidth(rows))[i]
  {
    var n := FirstWidth(rows);
    var given := seq(n, i requires 0 <= i < n => Text(ColNames(n)[i]));
    assert HeaderTexts(headers, rows) == seq(n, i requires 0 <= i < n => CellText(given[i]));
    ColNameKept(n, i);
  }

  lemma ColNameKept(n: nat, i: nat)
    requires i < n
    ensures CellText(Text(ColNames(n)[i])) == ColNames(n)[i]
  {
    var name := "Col" + NatToString(i + 1);
    assert ColNames(n)[i] == name;
    ColNameSquashed(i + 1);
    SquashedFixpoint(name);
  }

  // ---------------------------------------------------------------------------
  // _extract_tables_from_md
  // ---------------------------------------------------------------------------

  datatype TableInfo = TableInfo(tableIndex: int, headers: seq<string>, rowCount: nat, markdown: string)

  /** A line belongs to a table when its first non-space character is "|". */
  predicate IsTableLine(l: string)
    decreases |l|
  {
    |l| > 0 && (l[0] == '|' || (IsSpace(l[0]) && IsTableLine(l[1..])))
  }

  /** `IsTableLine` is `l.strip().startswith("|")`. */
  lemma {:induction false} TableLineIsStripped(l: string)
    ensures IsTableLine(l) <==> |Strip(l)| > 0 && Strip(l)[0] == '|'
    decreases |l|
  {
    if |l| > 0 && IsSpace(l[0]) {
      TableLineIsStripped(l[1..]);
      assert LStrip(l) == LStrip(l[1..]);
    }
  }

  /** The cell texts of a header line: "|" stripped from both ends, split on "|", each cell trimmed. */
  function ParseHeaders(line: string): (hs: seq<string>)
    ensures |hs| >= 1
    ensures forall i :: 0 <= i < |hs| ==> '|' !in hs[i] && Trimmed(hs[i])
  {
    var parts := Split(StripChar(line, '|'), '|');
    forall i | 0 <= i < |parts|
      ensures '|' !in Strip(parts[i])
    {
      StripAvoids(parts[i], '|');
    }
    seq(|parts|, i requires 0 <= i < |parts| => Strip(parts[i]))
  }

  /** Stripping adds no character. */
  lemma StripAvoids(s: string, c: char)
    requires c !in s
    ensures c !in Strip(s)
  {
    StripIsSlice(s);
    var u, a := Strip(s), |s| - |LStrip(s)|;
    forall k | 0 <= k < |u|
      ensures u[k] != c
    {
      assert u[k] == s[a + k];
    }
  }

  /** Each cell with one space on either side: the pieces between the pipes of a rendered line. */
  function Padded(cells: seq<string>): (ps: seq<string>)
    ensures |ps| == |cells|
    ensures forall i :: 0 <= i < |cells| ==> ps[i] == " " + cells[i] + " "
  {
    seq(|cells|, i requires 0 <= i < |cells| => " " + cells[i] + " ")
  }

  lemma {:induction false} JoinPadded(cells: seq<string>)
    requires |cells| >= 1
    ensures Join(Padded(cells), "|") == " " + Join(cells, " | ") + " "
    decreases |cells|
  {
    if |cells| > 1 {
      var ps := Padded(cells);
      JoinPadded(cells[1..]);
      assert ps[1..] == Padded(cells[1..]);
      assert Join(ps, "|") == ps[0] + "|" + Join(ps[1..], "|");
      assert Join(cells, " | ") == cells[0] + " | " + Join(cells[1..], " | ");
    }
  }

  /** A text framed by pipes and starting and ending with a space loses exactly the frame. */
  lemma StripFrame(x: string)
    requires |x| > 0 && x[0] == ' ' && x[|x| - 1] == ' '
    ensures StripChar("|" + x + "|", '|') == x
  {
    var s := "|" + x + "|";
    assert s[1..] == x + "|";
    assert LStripChar(s, '|') == LStripChar(x + "|", '|');
    assert LStripChar(x + "|", '|') == x + "|";
    assert (x + "|")[..|x|] == x;
  }

  lemma StripPadded(c: string)
    requires Trimmed(c)
    ensures Strip(" " + c + " ") == c
  {
    var p := " " + c + " ";
    assert p[1..] == c + " ";
    assert LStrip(p) == LStrip(c + " ");
    if |c| > 0 {
      assert LStrip(c + " ") == c + " ";
      assert (c + " ")[..|c|] == c;
    } else {
      assert LStrip(c + " ") == "";
    }
  }

  lemma PaddedAvoids(cells: seq<string>, c: char)
    requires c != ' ' && forall i :: 0 <= i < |cells| ==> c !in cells[i]
    ensures forall i :: 0 <= i < |cells| ==> c !in Padded(cells)[i]
  {
    forall i | 0 <= i < |cells|
      ensures c !in Padded(cells)[i]
    {
      assert c !in cells[i];
    }
  }

  /** Between the pipes of a rendered line lie the padded cells. */
  lemma LinePieces(cells: seq<string>)
    requires |cells| >= 1
    requires forall i :: 0 <= i < |cells| ==> '|' !in cells[i]
    ensures Split(StripChar(Line(cells), '|'), '|') == Padded(cells)
  {
    var x := " " + Join(cells, " | ") + " ";
    assert Line(cells) == "|" + x + "|";
    StripFrame(x);
    JoinPadded(cells);
    PaddedAvoids(cells, '|');
    SplitJoin(Padded(cells), '|');
  }

  /** Rendering a header line and parsing it back gives the headers, when they are trimmed and hold no "|". */
  lemma HeaderLineRoundTrip(cells: seq<string>)
    requires |cells| >= 1
    requires forall i :: 0 <= i < |cells| ==> '|' !in cells[i] && Trimmed(cells[i])
    ensures ParseHeaders(Line(cells)) == cells
  {
    LinePieces(cells);
    forall i | 0 <= i < |cells|
      ensures Strip(Padded(cells)[i]) == cells[i]
    {
      StripPadded(cells[i]);
    }
  }

  /**
   `_extract_tables_from_md` reads back the headers `_table_to_markdown`
   wrote, provided there is at least one and none contains "|".
   */
  lemma HeadersRoundTrip(headers: seq<Cell>, rows: seq<seq<Cell>>)
    requires |HeaderTexts(headers, rows)| >= 1
    requires forall i :: 0 <= i < |HeaderTexts(headers, rows)| ==> '|' !in HeaderTexts(headers, rows)[i]
    ensures ParseHeaders(TableLines(headers, rows)[0]) == HeaderTexts(headers, rows)
  {
    var hs := HeaderTexts(headers, rows);
    assert forall i :: 0 <= i < |hs| ==> Squashed(hs[i]);
    HeaderLineRoundTrip(hs);
  }

  predicate IsSeparatorChar(c: char) {
    IsSpace(c) || c == '-' || c == ':' || c == '|'
  }

  /** `re.match(r"^\|[\s\-:|]+\|$", l.strip())`. */
  predicate IsSeparatorRow(l: string) {
    var s := Strip(l);
    |s| >= 3 && s[0] == '|' && s[|s| - 1] == '|' && forall k :: 1 <= k < |s| - 1 ==> IsSeparatorChar(s[k])
  }

  predicate IsDataRow(l: string) {
    |Strip(l)| > 0 && !IsSeparatorRow(l)
  }

  /** The number of data rows among `ls`. */
  function CountDataRows(ls: seq<string>): (n: nat)
    ensures n <= |ls|
  {
    if |ls| == 0 then 0
    else (if IsDataRow(ls[0]) then 1 else 0) + CountDataRows(ls[1..])
  }

  /** The description of one table block of at least three lines. */
  function MakeTable(block: seq<string>, index: int): TableInfo
    requires |block| >= 3
  {
    TableInfo(index, ParseHeaders(block[0]), CountDataRows(block[2..]), Join(block, "\n"))
  }

  /** Which lines belong to a table. */
  function Marks(lines: seq<string>): (marks: seq<bool>)
    ensures |marks| == |lines|
  {
    if |lines| == 0 then [] else [IsTableLine(lines[0])] + Marks(lines[1..])
  }

  lemma {:induction false} MarkAt(lines: seq<string>, k: nat)
    requires k < |lines|
    ensures Marks(lines)[k] == IsTableLine(lines[k])
  {
    if k > 0 {
      MarkAt(lines[1..], k - 1);
    }
  }

  /** Positions `lo` to `hi` are a maximal run of marked lines. */
  ghost predicate IsRun(marks: seq<bool>, lo: int, hi: int) {
    && 0 <= lo < hi <= |marks|
    && (forall k :: lo <= k < hi ==> marks[k])
    && (lo == 0 || !marks[lo - 1])
    && (hi == |marks| || !marks[hi])
  }

  /** The end of the run of marked lines starting at `i`. */
  function RunEnd(marks: seq<bool>, i: nat): (j: nat)
    requires i <= |marks|
    ensures i <= j <= |marks|
    ensures forall k :: i <= k < j ==> marks[k]
    ensures j == |marks| || !marks[j]
    decreases |marks| - i
  {
    if i < |marks| && marks[i] then RunEnd(marks, i + 1) else i
  }

  datatype Span = Span(lo: nat, hi: nat)

  /** A position that is not inside a run: a marked line there starts its run. */
  predicate Boundary(marks: seq<bool>, i: nat) {
    i <= |marks| && (i == 0 || i == |marks| || !marks[i - 1] || !marks[i])
  }

  /** The maximal runs of at least three marked lines at or after `i`, in order. */
  function TableRuns(marks: seq<bool>, i: nat): (spans: seq<Span>)
    requires Boundary(marks, i)
    decreases |marks| - i
  {
    if i == |marks| then []
    else if marks[i] then
      var j := RunEnd(marks, i);
      var rest := TableRuns(marks, j);
      if j - i >= 3 then [Span(i, j)] + rest else rest
    else TableRuns(marks, i + 1)
  }

  /** One step of the scan: the run starting at a marked boundary line, then the rest. */
  lemma RunsAt(marks: seq<bool>, i: nat)
    requires Boundary(marks, i) && i < |marks| && marks[i]
    ensures Boundary(marks, RunEnd(marks, i))
    ensures TableRuns(marks, i) ==
      (if RunEnd(marks, i) - i >= 3 then [Span(i, RunEnd(marks, i))] else []) + TableRuns(marks, RunEnd(marks, i))
  {
  }

  /** Every span found is a maximal run of at least three marked lines, and they come in order. */
  lemma TableRunsSound(marks: seq<bool>, i: nat)
    requires Boundary(marks, i)
    ensures forall t :: 0 <= t < |TableRuns(marks, i)| ==>
      i <= TableRuns(marks, i)[t].lo && TableRuns(marks, i)[t].hi - TableRuns(marks, i)[t].lo >= 3
    ensures forall t :: 0 <= t < |TableRuns(marks, i)| ==> IsRun(marks, TableRuns(marks, i)[t].lo, TableRuns(marks, i)[t].hi)
    ensures forall t, u :: 0 <= t < u < |TableRuns(marks, i)| ==> TableRuns(marks, i)[t].hi < TableRuns(marks, i)[u].lo
  {
    TableRunsBounded(marks, i);
    TableRunsAreRuns(marks, i);
    TableRunsOrdered(marks, i);
  }

  lemma {:induction false} TableRunsBounded(marks: seq<bool>, i: nat)
    requires Boundary(marks, i)
    ensures forall t :: 0 <= t < |TableRuns(marks, i)| ==>
      i <= TableRuns(marks, i)[t].lo && TableRuns(marks, i)[t].hi - TableRuns(marks, i)[t].lo >= 3
    decreases |marks| - i
  {
    if i < |marks| {
      if marks[i] {
        TableRunsBounded(marks, RunEnd(marks, i));
      } else {
        TableRunsBounded(marks, i + 1);
      }
    }
  }

  lemma {:induction false} TableRunsAreRuns(marks: seq<bool>, i: nat)
    requires Boundary(marks, i)
    ensures forall t :: 0 <= t < |TableRuns(marks, i)| ==> IsRun(marks, TableRuns(marks, i)[t].lo, TableRuns(marks, i)[t].hi)
    decreases |marks| - i
  {
    if i < |marks| {
      if marks[i] {
        TableRunsAreRuns(marks, RunEnd(marks, i));
      } else {
        TableRunsAreRuns(marks, i + 1);
      }
    }
  }

  lemma {:induction false} TableRunsOrdered(marks: seq<bool>, i: nat)
    requires Boundary(marks, i)
    ensures forall t, u :: 0 <= t < u < |TableRuns(marks, i)| ==> TableRuns(marks, i)[t].hi < TableRuns(marks, i)[u].lo
    decreases |marks| - i
  {
    if i < |marks| {
      if marks[i] {
        var j := RunEnd(marks, i);
        TableRunsOrdered(marks, j);
        var rest := TableRuns(marks, j);
        if j - i >= 3 {
          TableRunsBounded(marks, j);
          TableRunsAreRuns(marks, j);
          var spans := [Span(i, j)] + rest;
          assert forall t :: 1 <= t < |spans| ==> spans[t] == rest[t - 1];
        }
      } else {
        TableRunsOrdered(marks, i + 1);
      }
    }
  }

  /** Every maximal run of at least three marked lines is found. */
  lemma {:induction false} TableRunsComplete(marks: seq<bool>, i: nat, lo: nat, hi: nat)
    requires Boundary(marks, i)
    requires IsRun(marks, lo, hi) && hi - lo >= 3 && i <= lo
    ensures Span(lo, hi) in TableRuns(marks, i)
    decreases |marks| - i
  {
    if marks[i] {
      var j := RunEnd(marks, i);
      if i == lo {
        RunEndOfRun(marks, lo, hi);
      } else {
        RunEndBefore(marks, i, lo);
        TableRunsComplete(marks, j, lo, hi);
      }
    } else {
      TableRunsComplete(marks, i + 1, lo, hi);
    }
  }

  /** A run that starts at `lo` ends at `hi`. */
  lemma RunEndOfRun(marks: seq<bool>, lo: nat, hi: nat)
    requires IsRun(marks, lo, hi)
    ensures RunEnd(marks, lo) == hi
  {
  }

  /** A run starting at `i`, before an unmarked line at `lo - 1`, ends there at the latest. */
  lemma RunEndBefore(marks: seq<bool>, i: nat, lo: nat)
    requires Boundary(marks, i) && i < lo <= |marks|
    requires !marks[lo - 1]
    ensures RunEnd(marks, i) <= lo - 1
  {
  }

  /** Every span is a block of at least three lines of `lines`. */
  predicate ValidSpans(spans: seq<Span>, n: nat) {
    forall t :: 0 <= t < |spans| ==> spans[t].lo < spans[t].hi <= n && spans[t].hi - spans[t].lo >= 3
  }

  /** The table of each span, numbered from 1. */
  function Describe(lines: seq<string>, spans: seq<Span>): (ts: seq<TableInfo>)
    requires ValidSpans(spans, |lines|)
    ensures |ts| == |spans|
  {
    if |spans| == 0 then []
    else
      var s := spans[|spans| - 1];
      Describe(lines, spans[..|spans| - 1]) + [MakeTable(lines[s.lo..s.hi], |spans|)]
  }

  lemma DescribeSnoc(lines: seq<string>, spans: seq<Span>, s: Span)
    requires ValidSpans(spans + [s], |lines|)
    ensures ValidSpans(spans, |lines|)
    ensures s.lo < s.hi <= |lines| && s.hi - s.lo >= 3
    ensures Describe(lines, spans + [s]) == Describe(lines, spans) + [MakeTable(lines[s.lo..s.hi], |spans| + 1)]
  {
    assert forall t :: 0 <= t < |spans| ==> (spans + [s])[t] == spans[t];
    assert (spans + [s])[|spans|] == s;
    assert (spans + [s])[..|spans|] == spans;
  }

  /** Tables are numbered 1, 2, 3, ... in order. */
  lemma {:induction false} DescribeIndex(lines: seq<string>, spans: seq<Span>)
    requires ValidSpans(spans, |lines|)
    ensures forall t :: 0 <= t < |spans| ==> Describe(lines, spans)[t].tableIndex == t + 1
  {
    if |spans| > 0 {
      DescribeIndex(lines, spans[..|spans| - 1]);
    }
  }

  /** The invariant of the scan survives a run of marked lines, `start` to `i`, too short for a table. */
  lemma ShortRunStep(marks: seq<bool>, spans: seq<Span>, start: nat, i: nat)
    requires start < |marks| && Boundary(marks, start) && marks[start]
    requires i == RunEnd(marks, start) && i - start < 3
    requires TableRuns(marks, 0) == spans + TableRuns(marks, start)
    ensures Boundary(marks, i)
    ensures TableRuns(marks, 0) == spans + TableRuns(marks, i)
  {
    RunsAt(marks, start);
  }

  /** The invariant of the scan survives a run of marked lines, `start` to `i`, long enough for a table. */
  lemma TableRunStep(marks: seq<bool>, spans: seq<Span>, start: nat, i: nat)
    requires start < |marks| && Boundary(marks, start) && marks[start]
    requires i == RunEnd(marks, start) && i - start >= 3
    requires TableRuns(marks, 0) == spans + TableRuns(marks, start)
    ensures Boundary(marks, i)
    ensures TableRuns(marks, 0) == (spans + [Span(start, i)]) + TableRuns(marks, i)
  {
    RunsAt(marks, start);
    assert spans + ([Span(start, i)] + TableRuns(marks, i)) == (spans + [Span(start, i)]) + TableRuns(marks, i);
  }

  /** Spans valid below `n` stay valid below a larger bound, and a new block can be added. */
  lemma ValidSnoc(spans: seq<Span>, n: nat, s: Span)
    requires ValidSpans(spans, n) && n <= s.lo < s.hi && s.hi - s.lo >= 3
    ensures ValidSpans(spans + [s], s.hi)
  {
    var s' := spans + [s];
    assert forall t :: 0 <= t < |spans| ==> s'[t] == spans[t];
  }

  /** The tables of `md`: one per maximal run of at least three table lines, numbered from 1 in order. */
  function TablesOf(md: string): (ts: seq<TableInfo>)
  {
    var lines := Split(md, '\n');
    TableRunsSound(Marks(lines), 0);
    Describe(lines, TableRuns(Marks(lines), 0))
  }

  /** Spans valid below `n` stay valid below any larger bound. */
  lemma ValidGrow(spans: seq<Span>, n: nat, m: nat)
    requires ValidSpans(spans, n) && n <= m
    ensures ValidSpans(spans, m)
  {
  }

  /** An unmarked line starts no run: the scan moves on to the next line. */
  lemma SkipStep(marks: seq<bool>, i: nat)
    requires Boundary(marks, i) && i < |marks| && !marks[i]
    ensures Boundary(marks, i + 1)
    ensures TableRuns(marks, i) == TableRuns(marks, i + 1)
  {
  }

  /** At the end of the lines, the spans collected are all of them. */
  lemma EndStep(marks: seq<bool>, spans: seq<Span>, i: nat)
    requires Boundary(marks, i) && i >= |marks|
    requires TableRuns(marks, 0) == spans + TableRuns(marks, i)
    ensures spans == TableRuns(marks, 0)
  {
    assert TableRuns(marks, i) == [];
  }

  /** The inner loop of the scan: the end of the run of table lines starting at `start`. */
  method ScanRun(lines: seq<string>, start: nat) returns (i: nat)
    requires start < |lines| && IsTableLine(lines[start])
    ensures i == RunEnd(Marks(lines), start)
    ensures start < i <= |lines|
  {
    ghost var marks := Marks(lines);
    i := start;
    while i < |lines| && IsTableLine(lines[i])
      invariant start <= i <= |lines|
      invariant RunEnd(marks, i) == RunEnd(marks, start)
      decreases |lines| - i
    {
      MarkAt(lines, i);
      i := i + 1;
    }
    if i < |lines| {
      MarkAt(lines, i);
    }
  }

  /** The invariant of the scan after the first `i` lines: the tables so far describe the runs so far. */
  ghost predicate ScanState(lines: seq<string>, spans: seq<Span>, tables: seq<TableInfo>, i: nat) {
    && i <= |lines|
    && Boundary(Marks(lines), i)
    && ValidSpans(spans, i)
    && TableRuns(Marks(lines), 0) == spans + TableRuns(Marks(lines), i)
    && tables == Describe(lines, spans)
  }

  lemma ScanStart(lines: seq<string>)
    ensures ScanState(lines, [], [], 0)
  {
  }

  lemma ScanSkip(lines: seq<string>, spans: seq<Span>, tables: seq<TableInfo>, i: nat)
    requires ScanState(lines, spans, tables, i) && i < |lines| && !IsTableLine(lines[i])
    ensures ScanState(lines, spans, tables, i + 1)
  {
    MarkAt(lines, i);
    SkipStep(Marks(lines), i);
    ValidGrow(spans, i, i + 1);
  }

  lemma ScanShortRun(lines: seq<string>, spans: seq<Span>, tables: seq<TableInfo>, start: nat, i: nat)
    requires ScanState(lines, spans, tables, start) && start < |lines| && IsTableLine(lines[start])
    requires i == RunEnd(Marks(lines), start) && i - start < 3
    ensures ScanState(lines, spans, tables, i)
  {
    MarkAt(lines, start);
    ShortRunStep(Marks(lines), spans, start, i);
    ValidGrow(spans, start, i);
  }

  lemma ScanTable(lines: seq<string>, spans: seq<Span>, tables: seq<TableInfo>, start: nat, i: nat)
    requires ScanState(lines, spans, tables, start) && start < |lines| && IsTableLine(lines[start])
    requires i == RunEnd(Marks(lines), start) && i - start >= 3
    ensures ScanState(lines, spans + [Span(start, i)], tables + [MakeTable(lines[start..i], |spans| + 1)], i)
  {
    MarkAt(lines, start);
    TableRunStep(Marks(lines), spans, start, i);
    ValidSnoc(spans, start, Span(start, i));
    DescribeSnoc(lines, spans, Span(start, i));
  }

  lemma ScanEnd(lines: seq<string>, spans: seq<Span>, tables: seq<TableInfo>, i: nat)
    requires ScanState(lines, spans, tables, i) && i == |lines|
    ensures tables == Describe(lines, TableRuns(Marks(lines), 0))
    ensures forall t :: 0 <= t < |tables| ==> tables[t].tableIndex == t + 1
  {
    EndStep(Marks(lines), spans, i);
    DescribeIndex(lines, spans);
  }

  /**
   `_extract_tables_from_md(md_text)`: the line scan of the source, which finds
   exactly the tables `TablesOf` describes.
   */
  method ExtractTablesFromMd(md: string) returns (tables: seq<TableInfo>)
    ensures tables == TablesOf(md)
    ensures forall t :: 0 <= t < |tables| ==> tables[t].tableIndex == t + 1
  {
    var lines := Split(md, '\n');
    ghost var spans: seq<Span> := [];
    tables := [];
    var i := 0;
    var tableIndex := 0;
    ScanStart(lines);
    while i < |lines|
      invariant ScanState(lines, spans, tables, i)
      invariant |spans| == tableIndex
      decreases |lines| - i
    {
      if IsTableLine(lines[i]) {
        var start := i;
        i := ScanRun(lines, start);
        var block := lines[start..i];
        if |block| >= 3 {
          ScanTable(lines, spans, tables, start, i);
          tableIndex := tableIndex + 1;
          spans := spans + [Span(start, i)];
          tables := tables + [MakeTable(block, tableIndex)];
        } else {
          ScanShortRun(lines, spans, tables, start, i);
        }
      } else {
        ScanSkip(lines, spans, tables, i);
        i := i + 1;
      }
    }
    ScanEnd(lines, spans, tables, i);
  }
}
