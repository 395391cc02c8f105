/**
 The dispatching and final tidying of src/hkex_scraper/extractor.py:
 `extract_content_with_tables` picks an extractor by the file extension of the
 document URL, and `_clean_markdown` ends with a line-wise right strip and an
 overall strip. The format extractors and the regular-expression passes of
 `_clean_markdown` are parameters.
 */
module Extractor {
  import opened Strings

  // ---------------------------------------------------------------------------
  // The extension router
  // ---------------------------------------------------------------------------

  datatype Format = Pdf | Html | Excel | Unsupported

  /** `doc_url.lower().split("?")[0].split("#")[0]`: the lower-cased path, query and fragment dropped. */
  function CleanPath(url: string): (u: string)
    ensures '?' !in u && '#' !in u
    ensures u <= Lower(url)
  {
    BeforeFirst(BeforeFirst(Lower(url), '?'), '#')
  }

  /** The extractor the router picks: the tests run in order `.pdf`, `.htm`/`.html`, `.xlsx`/`.xls`. */
  function Route(url: string): Format {
    var u := CleanPath(url);
    if EndsWith(u, ".pdf") then Pdf
    else if EndsWith(u, ".htm") || EndsWith(u, ".html") then Html
    else if EndsWith(u, ".xlsx") || EndsWith(u, ".xls") then Excel
    else Unsupported
  }

  /** What an extractor hands back: Markdown text and table descriptions. */
  datatype Extracted<T> = Extracted(text: string, tables: seq<T>)

  /** `extract_content_with_tables(raw_bytes, doc_url)`, with the three format extractors as parameters. */
  function ExtractContentWithTables<T>(raw: seq<bv8>, url: string,
                                       pdf: seq<bv8> -> Extracted<T>,
                                       html: seq<bv8> -> Extracted<T>,
                                       excel: seq<bv8> -> Extracted<T>): (r: Extracted<T>)
    ensures EndsWith(CleanPath(url), ".pdf") ==> r == pdf(raw)
    ensures EndsWith(CleanPath(url), ".htm") || EndsWith(CleanPath(url), ".html") ==> r == html(raw)
    ensures EndsWith(CleanPath(url), ".xlsx") || EndsWith(CleanPath(url), ".xls") ==> r == excel(raw)
    ensures !(|| EndsWith(CleanPath(url), ".pdf") || EndsWith(CleanPath(url), ".htm") || EndsWith(CleanPath(url), ".html")
              || EndsWith(CleanPath(url), ".xlsx") || EndsWith(CleanPath(url), ".xls"))
            ==> r == Extracted("", [])
  {
    ExtensionsExclusive(CleanPath(url));
    match Route(url)
    case Pdf => pdf(raw)
    case Html => html(raw)
    case Excel => excel(raw)
    case Unsupported => Extracted("", [])
  }

  /** No path ends in two of the extensions of different formats: they differ in their last character. */
  lemma ExtensionsExclusive(u: string)
    ensures EndsWith(u, ".htm") || EndsWith(u, ".html") ==> !EndsWith(u, ".pdf")
    ensures EndsWith(u, ".xlsx") || EndsWith(u, ".xls") ==> !EndsWith(u, ".pdf") && !EndsWith(u, ".htm") && !EndsWith(u, ".html")
  {
    if EndsWith(u, ".htm") || EndsWith(u, ".html") || EndsWith(u, ".xlsx") || EndsWith(u, ".xls") {
      var e := if EndsWith(u, ".htm") then ".htm" else if EndsWith(u, ".html") then ".html"
               else if EndsWith(u, ".xlsx") then ".xlsx" else ".xls";
      assert u[|u| - 1] == e[|e| - 1];
      Mismatch(u, ".pdf", 0);
      if EndsWith(u, ".xlsx") || EndsWith(u, ".xls") {
        Mismatch(u, ".htm", 0);
        Mismatch(u, ".html", 0);
      }
    }
  }

  /**
   The extractor chosen does not depend on a query string, a fragment or the
   letter case of the URL.
   */
  lemma ExtractIgnoresQueryAndCase<T>(raw: seq<bv8>, path: string, query: string,
                                      pdf: seq<bv8> -> Extracted<T>,
                                      html: seq<bv8> -> Extracted<T>,
                                      excel: seq<bv8> -> Extracted<T>)
    requires '?' !in path && '#' !in path
    ensures ExtractContentWithTables(raw, path + "?" + query, pdf, html, excel)
            == ExtractContentWithTables(raw, path, pdf, html, excel)
    ensures ExtractContentWithTables(raw, Upper(path), pdf, html, excel)
            == ExtractContentWithTables(raw, path, pdf, html, excel)
  {
    RouteIgnoresQuery(path, query);
    RouteIgnoresCase(path);
  }

  /** Text with no `c` is kept whole by the cut at `c`. */
  lemma NoCharBeforeFirst(s: string, c: char)
    requires forall i :: 0 <= i < |s| ==> s[i] != c
    ensures BeforeFirst(s, c) == s
  {
  }

  /** The cut at the first `c` of `a + b`, when `a` has no `c` and `b` starts with it, keeps `a`. */
  lemma BeforeFirstAt(a: string, b: string, c: char)
    requires forall i :: 0 <= i < |a| ==> a[i] != c
    requires |b| > 0 && b[0] == c
    ensures BeforeFirst(a + b, c) == a
  {
    var s := a + b;
    assert s[|a|] == c;
    assert forall i :: 0 <= i < |a| ==> s[i] == a[i];
    assert s[..|a|] == a;
  }

  /** Lower-casing neither creates nor removes '?' and '#'. */
  lemma LowerKeepsAbsent(s: string, c: char)
    requires c == '?' || c == '#'
    requires forall i :: 0 <= i < |s| ==> s[i] != c
    ensures forall i :: 0 <= i < |Lower(s)| ==> Lower(s)[i] != c
  {
  }

  /** A path without query or fragment is only lower-cased. */
  lemma CleanPathOfPath(path: string)
    requires '?' !in path && '#' !in path
    ensures CleanPath(path) == Lower(path)
  {
    LowerKeepsAbsent(path, '?');
    LowerKeepsAbsent(path, '#');
    NoCharBeforeFirst(Lower(path), '?');
    NoCharBeforeFirst(Lower(path), '#');
  }

  /** A lower-case extension without query or fragment survives into the cleaned path. */
  lemma CleanPathWithExtension(path: string, ext: string)
    requires '?' !in path && '#' !in path
    requires '?' !in ext && '#' !in ext && Lower(ext) == ext
    ensures CleanPath(path + ext) == Lower(path) + ext
  {
    LowerAppend(path, ext);
    CleanPathOfPath(path + ext);
  }

  lemma EndsWithSuffix(x: string, ext: string)
    ensures EndsWith(x + ext, ext)
  {
    assert (x + ext)[|x|..] == ext;
  }

  /** Text whose `k`-th character from the end differs from that of `e` does not end with `e`. */
  lemma Mismatch(u: string, e: string, k: nat)
    requires k < |e| && k < |u| && u[|u| - 1 - k] != e[|e| - 1 - k]
    ensures !EndsWith(u, e)
  {
    if |e| <= |u| {
      assert u[|u| - |e|..][|e| - 1 - k] == u[|u| - 1 - k];
    }
  }

  /** Documents named `.pdf` go to the PDF extractor. */
  lemma RoutePdf(path: string)
    requires '?' !in path && '#' !in path
    ensures Route(path + ".pdf") == Pdf
  {
    CleanPathWithExtension(path, ".pdf");
    EndsWithSuffix(Lower(path), ".pdf");
  }

  /** Documents named `.htm` go to the HTML extractor. */
  lemma RouteHtm(path: string)
    requires '?' !in path && '#' !in path
    ensures Route(path + ".htm") == Html
  {
    CleanPathWithExtension(path, ".htm");
    var u := Lower(path) + ".htm";
    Mismatch(u, ".pdf", 0);
    EndsWithSuffix(Lower(path), ".htm");
  }

  /** Documents named `.html` go to the HTML extractor. */
  lemma RouteHtml(path: string)
    requires '?' !in path && '#' !in path
    ensures Route(path + ".html") == Html
  {
    CleanPathWithExtension(path, ".html");
    var u := Lower(path) + ".html";
    Mismatch(u, ".pdf", 0);
    Mismatch(u, ".htm", 0);
    EndsWithSuffix(Lower(path), ".html");
  }

  /** Documents named `.xlsx` go to the Excel extractor. */
  lemma RouteXlsx(path: string)
    requires '?' !in path && '#' !in path
    ensures Route(path + ".xlsx") == Excel
  {
    CleanPathWithExtension(path, ".xlsx");
    var u := Lower(path) + ".xlsx";
    Mismatch(u, ".pdf", 0);
    Mismatch(u, ".htm", 0);
    Mismatch(u, ".html", 0);
    EndsWithSuffix(Lower(path), ".xlsx");
  }

  /** Documents named `.xls` go to the Excel extractor. */
  lemma RouteXls(path: string)
    requires '?' !in path && '#' !in path
    ensures Route(path + ".xls") == Excel
  {
    CleanPathWithExtension(path, ".xls");
    var u := Lower(path) + ".xls";
    Mismatch(u, ".pdf", 0);
    Mismatch(u, ".htm", 0);
    Mismatch(u, ".html", 0);
    Mismatch(u, ".xlsx", 0);
    EndsWithSuffix(Lower(path), ".xls");
  }

  /** Word documents (`.doc`) have no extractor: no text and no tables. */
  lemma RouteDoc(path: string)
    requires '?' !in path && '#' !in path
    ensures Route(path + ".doc") == Unsupported
  {
    CleanPathWithExtension(path, ".doc");
    DocMatchesNone(Lower(path));
  }

  lemma DocMatchesNone(x: string)
    ensures !EndsWith(x + ".doc", ".pdf") && !EndsWith(x + ".doc", ".htm") && !EndsWith(x + ".doc", ".html")
    ensures !EndsWith(x + ".doc", ".xlsx") && !EndsWith(x + ".doc", ".xls")
  {
    var u := x + ".doc";
    Mismatch(u, ".pdf", 0);
    Mismatch(u, ".htm", 0);
    Mismatch(u, ".html", 0);
    Mismatch(u, ".xlsx", 0);
    Mismatch(u, ".xls", 0);
  }

  /** Word documents (`.docx`) have no extractor either. */
  lemma RouteDocx(path: string)
    requires '?' !in path && '#' !in path
    ensures Route(path + ".docx") == Unsupported
  {
    CleanPathWithExtension(path, ".docx");
    DocxMatchesNone(Lower(path));
  }

  lemma DocxMatchesNone(x: string)
    ensures !EndsWith(x + ".docx", ".pdf") && !EndsWith(x + ".docx", ".htm") && !EndsWith(x + ".docx", ".html")
    ensures !EndsWith(x + ".docx", ".xlsx") && !EndsWith(x + ".docx", ".xls")
  {
    var u := x + ".docx";
    Mismatch(u, ".pdf", 0);
    Mismatch(u, ".htm", 0);
    Mismatch(u, ".html", 0);
    Mismatch(u, ".xlsx", 1);
    Mismatch(u, ".xls", 0);
  }

  /** A query string after the path does not change the route. */
  lemma RouteIgnoresQuery(path: string, query: string)
    requires '?' !in path && '#' !in path
    ensures CleanPath(path + "?" + query) == CleanPath(path)
    ensures Route(path + "?" + query) == Route(path)
  {
    QueryDropped(path, query);
    SameRoute(path + "?" + query, path);
  }

  lemma QueryDropped(path: string, query: string)
    requires '?' !in path && '#' !in path
    ensures CleanPath(path + "?" + query) == CleanPath(path)
  {
    assert path + "?" + query == path + ("?" + query);
    LowerAppend(path, "?" + query);
    LowerKeepsAbsent(path, '?');
    BeforeFirstAt(Lower(path), Lower("?" + query), '?');
    CleanPathOfPath(path);
  }

  /** A fragment after the path does not change the route. */
  lemma RouteIgnoresFragment(path: string, fragment: string)
    requires '?' !in path && '#' !in path && '?' !in fragment
    ensures CleanPath(path + "#" + fragment) == CleanPath(path)
    ensures Route(path + "#" + fragment) == Route(path)
  {
    FragmentDropped(path, fragment);
    SameRoute(path + "#" + fragment, path);
  }

  lemma FragmentDropped(path: string, fragment: string)
    requires '?' !in path && '#' !in path && '?' !in fragment
    ensures CleanPath(path + "#" + fragment) == CleanPath(path)
  {
    var tail := "#" + fragment;
    assert path + "#" + fragment == path + tail;
    assert '?' !in tail;
    LowerAppend(path, tail);
    NoCharBeforeFirst(Lower(path + tail), '?');
    LowerKeepsAbsent(path, '#');
    BeforeFirstAt(Lower(path), Lower(tail), '#');
    CleanPathOfPath(path);
  }

  /** The route depends on the URL only through its cleaned path. */
  lemma SameRoute(a: string, b: string)
    requires CleanPath(a) == CleanPath(b)
    ensures Route(a) == Route(b)
  {
  }

  /** The route does not depend on letter case. */
  lemma RouteIgnoresCase(url: string)
    ensures Route(Upper(url)) == Route(url)
    ensures Route(Lower(url)) == Route(url)
  {
    LowerOfUpper(url);
    LowerIdempotent(url);
  }

  lemma LowerIdempotent(s: string)
    ensures Lower(Lower(s)) == Lower(s)
  {
  }

  // ---------------------------------------------------------------------------
  // The final steps of _clean_markdown
  // ---------------------------------------------------------------------------

  /** A line whose last character, if any, is not whitespace. */
  predicate EndClean(s: string) {
    |s| == 0 || !IsSpace(s[|s| - 1])
  }

  /** No line of `s` ends in whitespace: before each line break comes a line break or a non-space. */
  ghost predicate LinesEndClean(s: string) {
    forall k :: 0 < k < |s| && s[k] == '\n' ==> s[k - 1] == '\n' || !IsSpace(s[k - 1])
  }

  /** Each line right-stripped. */
  function RStripAll(lines: seq<string>): (r: seq<string>)
    ensures |r| == |lines|
    ensures forall i :: 0 <= i < |lines| ==> r[i] == RStrip(lines[i])
  {
    seq(|lines|, i requires 0 <= i < |lines| => RStrip(lines[i]))
  }

  /** `"\n".join(line.rstrip() for line in text.split("\n")).strip()`. */
  function TidyLines(t: string): (r: string)
    ensures Trimmed(r)
  {
    Strip(Join(RStripAll(Split(t, '\n')), "\n"))
  }

  /** After tidying, no line ends in whitespace. */
  lemma TidyLinesClean(t: string)
    ensures LinesEndClean(TidyLines(t))
  {
    JoinedLinesClean(Split(t, '\n'));
    StripKeepsClean(Join(RStripAll(Split(t, '\n')), "\n"));
  }

  lemma JoinedLinesClean(lines: seq<string>)
    requires forall i :: 0 <= i < |lines| ==> '\n' !in lines[i]
    ensures LinesEndClean(Join(RStripAll(lines), "\n"))
  {
    StrippedLines(lines, RStripAll(lines));
    JoinEndClean(RStripAll(lines));
  }

  lemma StripKeepsClean(j: string)
    requires LinesEndClean(j)
    ensures LinesEndClean(Strip(j))
  {
    StripIsSlice(j);
    var u, a := Strip(j), |j| - |LStrip(j)|;
    LinesEndCleanSlice(j, a, |u|, u);
  }

  /**
   `_clean_markdown(text)`: empty text stays empty; otherwise the
   regular-expression passes, given as `passes`, and then the tidying.
   */
  function CleanMarkdown(text: string, passes: string -> string): (r: string)
    ensures |text| == 0 ==> r == ""
    ensures Trimmed(r)
    ensures LinesEndClean(r)
  {
    if |text| == 0 then ""
    else
      TidyLinesClean(passes(text));
      TidyLines(passes(text))
  }

  lemma StrippedLines(lines: seq<string>, stripped: seq<string>)
    requires forall i :: 0 <= i < |lines| ==> '\n' !in lines[i]
    requires |stripped| == |lines|
    requires forall i :: 0 <= i < |lines| ==> stripped[i] == RStrip(lines[i])
    ensures forall i :: 0 <= i < |stripped| ==> '\n' !in stripped[i] && EndClean(stripped[i])
  {
    forall i | 0 <= i < |stripped|
      ensures '\n' !in stripped[i]
    {
      assert stripped[i] <= lines[i];
    }
  }

  /** Lines without breaks that end cleanly join into text whose lines end cleanly. */
  lemma {:induction false} JoinEndClean(parts: seq<string>)
    requires forall i :: 0 <= i < |parts| ==> '\n' !in parts[i] && EndClean(parts[i])
    ensures LinesEndClean(Join(parts, "\n"))
    decreases |parts|
  {
    if |parts| > 1 {
      var p := parts[0];
      var rest := Join(parts[1..], "\n");
      JoinEndClean(parts[1..]);
      var s := Join(parts, "\n");
      assert s == p + "\n" + rest;
      assert forall k :: 0 <= k < |p| ==> s[k] == p[k] && s[k] != '\n';
      forall k | 0 < k < |s| && s[k] == '\n'
        ensures s[k - 1] == '\n' || !IsSpace(s[k - 1])
      {
        if k == |p| {
          assert s[k - 1] == p[|p| - 1];
        } else if k > |p| + 1 {
          assert s[k] == rest[k - |p| - 1];
          assert s[k - 1] == rest[k - |p| - 2];
        }
      }
    }
  }

  /** Every piece of text whose lines end cleanly has lines that end cleanly. */
  lemma LinesEndCleanSlice(s: string, a: nat, n: nat, t: string)
    requires a + n <= |s| && t == s[a..][..n]
    requires LinesEndClean(s)
    ensures LinesEndClean(t)
  {
    forall k | 0 < k < |t| && t[k] == '\n'
      ensures t[k - 1] == '\n' || !IsSpace(t[k - 1])
    {
      assert t[k] == s[a + k];
      assert t[k - 1] == s[a + k - 1];
    }
  }

  /** In clean text, every line ends cleanly. */
  lemma {:induction false} CleanLinesOf(parts: seq<string>)
    requires forall i :: 0 <= i < |parts| ==> '\n' !in parts[i]
    requires LinesEndClean(Join(parts, "\n")) && EndClean(Join(parts, "\n"))
    ensures forall i :: 0 <= i < |parts| ==> EndClean(parts[i])
    decreases |parts|
  {
    if |parts| == 1 {
      assert Join(parts, "\n") == parts[0];
    } else if |parts| > 1 {
      var p := parts[0];
      var rest := Join(parts[1..], "\n");
      var s := Join(parts, "\n");
      assert s == p + "\n" + rest;
      if |p| > 0 {
        assert s[|p|] == '\n';
        assert s[|p| - 1] == p[|p| - 1];
      }
      assert rest == s[|p| + 1..] == s[|p| + 1..][..|rest|];
      LinesEndCleanSlice(s, |p| + 1, |rest|, rest);
      if |rest| > 0 {
        assert rest[|rest| - 1] == s[|s| - 1];
      }
      CleanLinesOf(parts[1..]);
      forall i | 1 <= i < |parts|
        ensures EndClean(parts[i])
      {
        assert parts[i] == parts[1..][i - 1];
      }
    }
  }

  /** Tidy text is left as it is by the tidying. */
  lemma TidyFixpoint(t: string)
    requires Trimmed(t) && LinesEndClean(t)
    ensures TidyLines(t) == t
  {
    var lines := Split(t, '\n');
    CleanLinesOf(lines);
    assert RStripAll(lines) == lines;
    StripNoEdgeSpace(t);
  }

  /** Tidying twice is tidying once. */
  lemma TidyIdempotent(t: string)
    ensures TidyLines(TidyLines(t)) == TidyLines(t)
  {
    TidyLinesClean(t);
    TidyFixpoint(TidyLines(t));
  }
}
