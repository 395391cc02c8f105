/**
 `_parse_api_record` from src/hkex_scraper/api.py: one raw record of the
 exchange's JSON search API becomes the internal filing record. A raw record
 is a map from field names to strings; a missing field reads as "".
 */
module Api {
  import opened Strings
  import opened TextUtils

  /** `HKEX_BASE_URL` of src/hkex_scraper/config.py. */
  const BaseUrl := "https://www1.hkexnews.hk"

  type RawRecord = map<string, string>

  /** `record.get(key, "")`. */
  function Get(record: RawRecord, key: string): string {
    if key in record then record[key] else ""
  }

  datatype Filing = Filing(date: string, stockCode: string, stockName: string, title: string, link: string)

  /** `d` is the part of `dateTime` before its first space (all of it when there is none). */
  predicate IsDatePart(d: string, dateTime: string) {
    d <= dateTime && ' ' !in d && (|d| < |dateTime| ==> dateTime[|d|] == ' ')
  }

  /** `s.split("<br/>")[0].strip()`: the first line of an HTML cell, trimmed. */
  function FirstLine(s: string): (r: string)
    ensures Trimmed(r)
    ensures !Contains(s, "<br/>") ==> r == Strip(s)
    ensures Find(s, "<br/>") >= 0 ==> r == Strip(s[..Find(s, "<br/>")])
  {
    var head := BeforeFirstStr(s, "<br/>");
    assert !Contains(s, "<br/>") ==> head == s;
    Strip(head)
  }

  /** The site prefix goes in front of a link exactly when the link is site-relative. */
  function AbsoluteLink(link: string): (r: string)
    ensures EndsWith(r, link)
    ensures r != link <==> StartsWith(link, "/")
    ensures StartsWith(link, "/") ==> StartsWith(r, BaseUrl) && |r| == |BaseUrl| + |link|
  {
    if |link| > 0 && StartsWith(link, "/") then
      var r := BaseUrl + link;
      assert r[|r| - |link|..] == link;
      r
    else
      assert link[|link| - |link|..] == link;
      link
  }

  /** The two entity replacements of the title, one pass each: first "&#x3b;", then "&amp;". */
  function DecodeEntities(t: string): (r: string)
    ensures |r| <= |t|
  {
    var semi := Replace(t, "&#x3b;", ";");
    ReplaceShrinks(t, "&#x3b;", ";");
    ReplaceShrinks(semi, "&amp;", "&");
    Replace(semi, "&amp;", "&")
  }

  /** The date part of "YYYY-MM-DD HH:MM": everything before the first space. */
  function DatePart(dateTime: string): (r: string)
    ensures IsDatePart(r, dateTime)
  {
    if |dateTime| > 0 then BeforeFirst(dateTime, ' ') else ""
  }

  /** `_parse_api_record(record)`. */
  function ParseApiRecord(record: RawRecord): (f: Filing)
    ensures IsDatePart(f.date, Get(record, "DATE_TIME"))
    ensures Trimmed(f.stockCode) && f.stockCode == FirstLine(Get(record, "STOCK_CODE"))
    ensures Squashed(f.stockName) && f.stockName == SquashWs(FirstLine(Get(record, "STOCK_NAME")))
    ensures Squashed(f.title)
    ensures f.title == SquashWs(DecodeEntities(Get(record, "TITLE")))
    ensures f.link != Get(record, "FILE_LINK") <==> StartsWith(Get(record, "FILE_LINK"), "/")
    ensures EndsWith(f.link, Get(record, "FILE_LINK"))
  {
    var dateTime, code, name, title, link :=
      Get(record, "DATE_TIME"), Get(record, "STOCK_CODE"), Get(record, "STOCK_NAME"),
      Get(record, "TITLE"), Get(record, "FILE_LINK");
    var f := Filing(DatePart(dateTime), FirstLine(code), SquashWs(FirstLine(name)),
                    SquashWs(DecodeEntities(title)), AbsoluteLink(link));
    f
  }

  /** A record whose fields are all in the parsed form. */
  ghost predicate CleanFields(date: string, code: string, name: string, title: string, link: string) {
    && ' ' !in date
    && Trimmed(code) && !Contains(code, "<br/>")
    && Squashed(name) && !Contains(name, "<br/>")
    && Squashed(title) && '&' !in title
    && !StartsWith(link, "/")
  }

  /**
   Parsing is the identity on a record already in parsed form: a date without
   a time, a trimmed one-line code, a squashed one-line name, a squashed title
   without entities and an absolute link come back unchanged.
   */
  lemma ParseCleanRecord(date: string, code: string, name: string, title: string, link: string)
    requires CleanFields(date, code, name, title, link)
    ensures ParseApiRecord(map["DATE_TIME" := date, "STOCK_CODE" := code, "STOCK_NAME" := name,
                               "TITLE" := title, "FILE_LINK" := link])
            == Filing(date, code, name, title, link)
  {
    var record := map["DATE_TIME" := date, "STOCK_CODE" := code, "STOCK_NAME" := name,
                      "TITLE" := title, "FILE_LINK" := link];
    assert Get(record, "DATE_TIME") == date;
    assert Get(record, "STOCK_CODE") == code;
    assert Get(record, "STOCK_NAME") == name;
    assert Get(record, "TITLE") == title;
    assert Get(record, "FILE_LINK") == link;
    DatePartOfDate(date);
    StripNoEdgeSpace(code);
    SquashedTrimmed(name);
    SquashedFixpoint(name);
    DecodeWithoutAmpersand(title);
    SquashedFixpoint(title);
  }

  /** A date without a space is its own date part. */
  lemma DatePartOfDate(date: string)
    requires ' ' !in date
    ensures DatePart(date) == date
  {
    var d := DatePart(date);
    assert IsDatePart(d, date);
  }

  /** Squashed text has no edge whitespace, so stripping keeps it. */
  lemma SquashedTrimmed(t: string)
    requires Squashed(t)
    ensures Strip(t) == t
  {
    StripNoEdgeSpace(t);
  }

  /** Replacing a pattern by something no longer never lengthens the text. */
  lemma {:induction false} ReplaceShrinks(s: string, p: string, r: string)
    requires |p| > 0 && |r| <= |p|
    ensures |Replace(s, p, r)| <= |s|
    decreases |s|
  {
    if |s| >= |p| {
      if s[..|p|] == p {
        ReplaceShrinks(s[|p|..], p, r);
      } else {
        ReplaceShrinks(s[1..], p, r);
      }
    }
  }

  /** A title without "&" is left as it is by the entity step. */
  lemma DecodeWithoutAmpersand(t: string)
    requires '&' !in t
    ensures DecodeEntities(t) == t
  {
    NoAmpersandNoEntity(t, "&#x3b;");
    ReplaceAbsent(t, "&#x3b;", ";");
    NoAmpersandNoEntity(t, "&amp;");
    ReplaceAbsent(t, "&amp;", "&");
  }

  lemma NoAmpersandNoEntity(t: string, e: string)
    requires '&' !in t && |e| > 0 && e[0] == '&'
    ensures !Contains(t, e)
  {
    forall j | 0 <= j && j + |e| <= |t|
      ensures !OccursAt(t, e, j)
    {
      assert t[j..j + |e|][0] == t[j];
    }
  }

  /** Each replacement is a single pass: an escaped semicolon entity comes out one level less escaped, not fully decoded. */
  lemma DecodeIsSinglePass()
    ensures DecodeEntities("&amp;#x3b;") == "&#x3b;"
  {
    var t := "&amp;#x3b;";
    SemicolonStepKeeps();
    AmpersandStepUnescapes();
  }

  lemma SemicolonStepKeeps()
    ensures Replace("&amp;#x3b;", "&#x3b;", ";") == "&amp;#x3b;"
  {
    var t := "&amp;#x3b;";
    forall j | 0 <= j && j + 6 <= |t|
      ensures !OccursAt(t, "&#x3b;", j)
    {
      if j == 0 {
        assert t[j..j + 6][1] == 'a';
      } else {
        assert t[j..j + 6][0] == t[j];
        assert t[1..5] == "amp;";
        assert t[j] == t[1..5][j - 1];
      }
    }
    ReplaceAbsent(t, "&#x3b;", ";");
  }

  lemma AmpersandStepUnescapes()
    ensures Replace("&amp;#x3b;", "&amp;", "&") == "&#x3b;"
  {
    var t := "&amp;#x3b;";
    assert t[..5] == "&amp;";
    assert t[5..] == "#x3b;";
    NoAmpersandNoEntity(t[5..], "&amp;");
    ReplaceAbsent(t[5..], "&amp;", "&");
  }
}
