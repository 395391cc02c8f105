/**
 Title-based classification from src/hkex_scraper/utils.py: the filing
 category (`classify_filing`), derivative-issuer detection
 (`is_derivative_issuer_filing`) and the issuer short name
 (`extract_issuer_name`). A `None` title behaves as the empty title.
 */
module Classify {
  import opened Strings
  import opened Wrappers

  // ---------------------------------------------------------------------------
  // classify_filing
  // ---------------------------------------------------------------------------

  datatype Category = Category(code: string, subtype: string)

  const Default := Category("OTHER", "Announcement")

  /** A rule fires when any of its keywords occurs in the upper-cased title. */
  datatype Rule = Rule(keywords: seq<string>, category: Category)

  /** The rules of `classify_filing`, in the order they are tried. */
  const Rules: seq<Rule> := [
    Rule(["ANNUAL REPORT"], Category("ANNUAL_REPORT", "Annual Report")),
    Rule(["ANNUAL RESULTS"], Category("RESULTS", "Annual Results")),
    Rule(["INTERIM REPORT"], Category("RESULTS", "Interim Report")),
    Rule(["INTERIM RESULTS"], Category("RESULTS", "Interim Results")),
    Rule(["QUARTERLY"], Category("RESULTS", "Quarterly")),
    Rule(["DIVIDEND"], Category("DIVIDEND", "Dividend")),
    Rule(["TRANSACTION", "ACQUISITION"], Category("TRANSACTION", "Transaction")),
    Rule(["DIRECTOR"], Category("DIRECTOR", "Director")),
    Rule(["CIRCULAR"], Category("CIRCULAR", "Circular")),
    Rule(["MEETING", "AGM"], Category("MEETING", "Meeting"))
  ]

  /** The index of the first rule of `rules` that fires on `t`, or -1. */
  function FirstRule(rules: seq<Rule>, t: string): (k: int)
    ensures -1 <= k < |rules|
    ensures k >= 0 ==> AnyContained(t, rules[k].keywords)
    ensures forall j :: 0 <= j < |rules| && (k == -1 || j < k) ==> !AnyContained(t, rules[j].keywords)
    decreases |rules|
  {
    if |rules| == 0 then -1
    else if AnyContained(t, rules[0].keywords) then 0
    else
      var k := FirstRule(rules[1..], t);
      assert forall j :: 1 <= j < |rules| ==> rules[j] == rules[1..][j - 1];
      if k < 0 then -1 else k + 1
  }

  /**
   The first rule of `rules`, in order, that fires on the upper-cased title
   gives the category; when none fires, `Default`.
   */
  function Classify(rules: seq<Rule>, title: string): (c: Category)
    ensures (forall k :: 0 <= k < |rules| ==> !AnyContained(Upper(title), rules[k].keywords)) ==> c == Default
    ensures (exists k :: 0 <= k < |rules| && AnyContained(Upper(title), rules[k].keywords)) ==>
              exists k :: 0 <= k < |rules| && AnyContained(Upper(title), rules[k].keywords) && c == rules[k].category
                && forall j :: 0 <= j < k ==> !AnyContained(Upper(title), rules[j].keywords)
  {
    var k := FirstRule(rules, Upper(title));
    if k < 0 then Default else rules[k].category
  }

  /** `classify_filing(title)`. */
  function ClassifyFiling(title: string): Category
  {
    Classify(Rules, title)
  }

  /** Only the letters' case is ignored: titles equal up to case are classified alike. */
  lemma ClassifyIgnoresCase(a: string, b: string)
    requires Upper(a) == Upper(b)
    ensures ClassifyFiling(a) == ClassifyFiling(b)
  {
  }

  lemma ClassifyOfLower(title: string)
    ensures ClassifyFiling(Lower(title)) == ClassifyFiling(title)
  {
    UpperOfLower(title);
  }

  lemma ClassifyAnnualReport()
    ensures ClassifyFiling("Annual Report 2024") == Category("ANNUAL_REPORT", "Annual Report")
  {
    var t := Upper("Annual Report 2024");
    assert t == "ANNUAL REPORT 2024";
    assert OccursAt(t, "ANNUAL REPORT", 0);
    ContainsAt(t, "ANNUAL REPORT", 0);
    assert Contains(t, Rules[0].keywords[0]);
    assert AnyContained(t, Rules[0].keywords);
  }

  // ---------------------------------------------------------------------------
  // is_derivative_issuer_filing
  // ---------------------------------------------------------------------------

  const DerivativePatterns: seq<string> := [
    "DAILY TRADING SUMMARY",
    "DAILY TRADING REPORT",
    "DAILY REPORT ON"
  ]

  /** `is_derivative_issuer_filing(title)`. */
  predicate IsDerivativeIssuerFiling(title: string)
  {
    AnyContained(Upper(title), DerivativePatterns)
  }

  lemma DerivativeIgnoresCase(a: string, b: string)
    requires Upper(a) == Upper(b)
    ensures IsDerivativeIssuerFiling(a) <==> IsDerivativeIssuerFiling(b)
  {
  }

  // ---------------------------------------------------------------------------
  // extract_issuer_name
  // ---------------------------------------------------------------------------

  datatype Issuer = Issuer(keyword: string, short: string)

  /** The known issuers, in the order of the source's dictionary. */
  const KnownIssuers: seq<Issuer> := [
    Issuer("HUATAI", "HUATAI"),
    Issuer("CITIGROUP", "CITI"),
    Issuer("UBS", "UBS"),
    Issuer("HSBC", "HSBC"),
    Issuer("HK AND SHANGHAI BANK", "HSBC"),
    Issuer("BOCI", "BOCI"),
    Issuer("SOCIETE GENERALE", "SOCGEN"),
    Issuer("BANK OF EAST ASIA", "BEA"),
    Issuer("GUOTAI JUNAN", "GUOTAI"),
    Issuer("MORGAN STANLEY", "MORGAN"),
    Issuer("KOREA INVESTMENT", "KOREA"),
    Issuer("CITIC", "CITIC"),
    Issuer("JP MORGAN", "JPM"),
    Issuer("JPMORGAN", "JPM"),
    Issuer("GOLDMAN SACHS", "GS"),
    Issuer("CREDIT SUISSE", "CS"),
    Issuer("BARCLAYS", "BARCLAYS"),
    Issuer("BNP PARIBAS", "BNP"),
    Issuer("MACQUARIE", "MACQUARIE"),
    Issuer("HAITONG", "HAITONG"),
    Issuer("STANDARD CHARTERED", "STANCHART"),
    Issuer("DEUTSCHE BANK", "DB"),
    Issuer("BOCOM", "BOCOM"),
    Issuer("CHINA INTERNATIONAL", "CICC")
  ]

  ghost predicate LongestFirst(xs: seq<Issuer>) {
    forall i, j :: 0 <= i < j < |xs| ==> |xs[i].keyword| >= |xs[j].keyword|
  }

  /** Insert `x` after every entry whose keyword is at least as long (keeps the sort stable). */
  function InsertByLength(x: Issuer, xs: seq<Issuer>): seq<Issuer>
    decreases |xs|
  {
    if |xs| == 0 then [x]
    else if |xs[0].keyword| >= |x.keyword| then [xs[0]] + InsertByLength(x, xs[1..])
    else [x] + xs
  }

  /** Inserting into a longest-first list keeps it longest-first and adds exactly `x`. */
  lemma {:induction false} InsertByLengthSorts(x: Issuer, xs: seq<Issuer>)
    requires LongestFirst(xs)
    ensures |InsertByLength(x, xs)| == |xs| + 1
    ensures LongestFirst(InsertByLength(x, xs))
    ensures multiset(InsertByLength(x, xs)) == multiset(xs) + multiset{x}
    decreases |xs|
  {
    if |xs| > 0 && |xs[0].keyword| >= |x.keyword| {
      InsertByLengthSorts(x, xs[1..]);
      InsertHead(x, xs, InsertByLength(x, xs[1..]));
    } else if |xs| > 0 {
      assert InsertByLength(x, xs) == [x] + xs;
    }
  }

  lemma InsertHead(x: Issuer, xs: seq<Issuer>, rest: seq<Issuer>)
    requires |xs| > 0 && |xs[0].keyword| >= |x.keyword|
    requires LongestFirst(xs) && LongestFirst(rest)
    requires multiset(rest) == multiset(xs[1..]) + multiset{x}
    ensures LongestFirst([xs[0]] + rest)
    ensures multiset([xs[0]] + rest) == multiset(xs) + multiset{x}
  {
    assert xs == [xs[0]] + xs[1..];
    forall j | 0 <= j < |rest|
      ensures |rest[j].keyword| <= |xs[0].keyword|
    {
      assert rest[j] in multiset(rest);
      if rest[j] != x {
        assert rest[j] in multiset(xs[1..]);
        var i :| 0 <= i < |xs[1..]| && xs[1..][i] == rest[j];
        assert xs[i + 1] == rest[j];
      }
    }
    var r := [xs[0]] + rest;
    forall i, j | 0 <= i < j < |r|
      ensures |r[i].keyword| >= |r[j].keyword|
    {
      if i > 0 {
        assert r[i] == rest[i - 1] && r[j] == rest[j - 1];
      } else {
        assert r[j] == rest[j - 1];
      }
    }
  }

  /** `sorted(entries, key=lambda e: -len(e.keyword))`, a stable insertion sort. */
  function SortByLength(xs: seq<Issuer>): seq<Issuer>
  {
    if |xs| == 0 then [] else InsertByLength(xs[|xs| - 1], SortByLength(xs[..|xs| - 1]))
  }

  /** The sort returns a longest-first permutation of its input. */
  lemma {:induction false} SortByLengthSorts(xs: seq<Issuer>)
    ensures |SortByLength(xs)| == |xs|
    ensures LongestFirst(SortByLength(xs))
    ensures multiset(SortByLength(xs)) == multiset(xs)
  {
    if |xs| > 0 {
      var init := xs[..|xs| - 1];
      SortByLengthSorts(init);
      InsertByLengthSorts(xs[|xs| - 1], SortByLength(init));
      assert xs == init + [xs[|xs| - 1]];
    }
  }

  // ---------------------------------------------------------------------------
  // Ties between keywords of equal length
  // ---------------------------------------------------------------------------

  /** The first entry of `s` whose keyword occurs in `t`. */
  function FirstMatch(s: seq<Issuer>, t: string): (r: Option<Issuer>)
    ensures r.Some? ==> r.value in s && Contains(t, r.value.keyword)
    ensures r.None? ==> forall j :: 0 <= j < |s| ==> !Contains(t, s[j].keyword)
    decreases |s|
  {
    if |s| == 0 then None
    else if Contains(t, s[0].keyword) then Some(s[0])
    else
      assert forall j :: 1 <= j < |s| ==> s[j] == s[1..][j - 1];
      FirstMatch(s[1..], t)
  }

  /**
   Reference definition of the issuer the stable sort selects: scanning the
   table in dictionary order, a matching entry replaces the best so far only
   when its keyword is strictly longer.
   */
  function BestIssuer(xs: seq<Issuer>, t: string): Option<Issuer>
    decreases |xs|
  {
    if |xs| == 0 then None
    else
      var b := BestIssuer(xs[..|xs| - 1], t);
      var x := xs[|xs| - 1];
      if Contains(t, x.keyword) && (b.None? || |b.value.keyword| < |x.keyword|) then Some(x) else b
  }

  /** Entry `k` is a longest keyword occurring in `t`, and no earlier entry of that length occurs. */
  ghost predicate FirstLongest(xs: seq<Issuer>, t: string, k: int) {
    && 0 <= k < |xs| && Contains(t, xs[k].keyword)
    && (forall j :: 0 <= j < |xs| && Contains(t, xs[j].keyword) ==> |xs[j].keyword| <= |xs[k].keyword|)
    && (forall j :: 0 <= j < k && Contains(t, xs[j].keyword) ==> |xs[j].keyword| < |xs[k].keyword|)
  }

  /** At most one entry is the first longest match. */
  lemma FirstLongestUnique(xs: seq<Issuer>, t: string, k: int, m: int)
    requires FirstLongest(xs, t, k) && FirstLongest(xs, t, m)
    ensures k == m
  {
  }

  /** The reference scan finds nothing exactly when nothing matches, and otherwise the first longest match. */
  lemma {:induction false} BestIssuerIsFirstLongest(xs: seq<Issuer>, t: string)
    ensures BestIssuer(xs, t).None? ==> forall j :: 0 <= j < |xs| ==> !Contains(t, xs[j].keyword)
    ensures BestIssuer(xs, t).Some? ==> exists k :: FirstLongest(xs, t, k) && xs[k] == BestIssuer(xs, t).value
    decreases |xs|
  {
    if |xs| > 0 {
      var n := |xs| - 1;
      var x := xs[n];
      BestIssuerIsFirstLongest(xs[..n], t);
      var b := BestIssuer(xs[..n], t);
      if Contains(t, x.keyword) && (b.None? || |b.value.keyword| < |x.keyword|) {
        assert BestIssuer(xs, t) == Some(x);
        if b.Some? {
          var k0 :| FirstLongest(xs[..n], t, k0) && xs[..n][k0] == b.value;
          LastIsLongest(xs, xs[..n], t, |b.value.keyword|);
        } else {
          LastIsLongest(xs, xs[..n], t, -1);
        }
      } else {
        assert BestIssuer(xs, t) == b;
        if b.Some? {
          var k0 :| FirstLongest(xs[..n], t, k0) && xs[..n][k0] == b.value;
          EarlierStays(xs, t, k0);
        } else {
          assert forall j :: 0 <= j < n ==> xs[j] == xs[..n][j];
        }
      }
    }
  }

  /** A last entry that matches and beats every earlier match is the first longest match. */
  lemma LastIsLongest(xs: seq<Issuer>, init: seq<Issuer>, t: string, bound: int)
    requires |xs| > 0 && init == xs[..|xs| - 1]
    requires Contains(t, xs[|xs| - 1].keyword) && bound < |xs[|xs| - 1].keyword|
    requires forall j :: 0 <= j < |init| && Contains(t, init[j].keyword) ==> |init[j].keyword| <= bound
    ensures FirstLongest(xs, t, |xs| - 1)
  {
    assert forall j :: 0 <= j < |init| ==> xs[j] == init[j];
  }

  /** A first longest match of the prefix stays one when the last entry does not beat it. */
  lemma EarlierStays(xs: seq<Issuer>, t: string, k: int)
    requires |xs| > 0 && FirstLongest(xs[..|xs| - 1], t, k)
    requires Contains(t, xs[|xs| - 1].keyword) ==> |xs[|xs| - 1].keyword| <= |xs[k].keyword|
    ensures FirstLongest(xs, t, k)
  {
    assert forall j :: 0 <= j < |xs| - 1 ==> xs[j] == xs[..|xs| - 1][j];
  }

  /** Inserting `x` into a longest-first list puts it ahead of every shorter match only. */
  lemma {:induction false} InsertFirstMatch(x: Issuer, s: seq<Issuer>, t: string)
    requires LongestFirst(s)
    ensures FirstMatch(InsertByLength(x, s), t)
            == if Contains(t, x.keyword) && (FirstMatch(s, t).None? || |FirstMatch(s, t).value.keyword| < |x.keyword|)
               then Some(x) else FirstMatch(s, t)
    decreases |s|
  {
    if |s| > 0 {
      if |s[0].keyword| >= |x.keyword| {
        assert InsertByLength(x, s) == [s[0]] + InsertByLength(x, s[1..]);
        assert ([s[0]] + InsertByLength(x, s[1..]))[1..] == InsertByLength(x, s[1..]);
        if !Contains(t, s[0].keyword) {
          InsertFirstMatch(x, s[1..], t);
        }
      } else {
        var m := FirstMatch(s, t);
        if m.Some? {
          var i :| 0 <= i < |s| && s[i] == m.value;
          assert i == 0 || |s[0].keyword| >= |s[i].keyword|;
        }
      }
    }
  }

  /**
   Stability of the sort: the first match in `sorted(..., key=-len)` is the
   reference scan's choice, so among keywords of equal length the one earlier
   in the table wins.
   */
  lemma {:induction false} SortedFirstMatch(xs: seq<Issuer>, t: string)
    ensures FirstMatch(SortByLength(xs), t) == BestIssuer(xs, t)
    decreases |xs|
  {
    if |xs| > 0 {
      var init := xs[..|xs| - 1];
      SortedFirstMatch(init, t);
      SortByLengthSorts(init);
      InsertFirstMatch(xs[|xs| - 1], SortByLength(init), t);
    }
  }

  /** The index search and the entry search agree. */
  lemma {:induction false} FirstMatchAt(s: seq<Issuer>, t: string)
    ensures FirstIssuer(s, t) >= 0 ==> FirstMatch(s, t) == Some(s[FirstIssuer(s, t)])
    ensures FirstIssuer(s, t) < 0 ==> FirstMatch(s, t).None?
    decreases |s|
  {
    if |s| > 0 && !Contains(t, s[0].keyword) {
      FirstMatchAt(s[1..], t);
    }
  }

  /** The entry the sorted search finds is the first longest match of the original table. */
  lemma SortedPicksFirstLongest(xs: seq<Issuer>, t: string)
    ensures FirstIssuer(SortByLength(xs), t) >= 0 ==>
              forall k :: FirstLongest(xs, t, k) ==> SortByLength(xs)[FirstIssuer(SortByLength(xs), t)] == xs[k]
  {
    var s := SortByLength(xs);
    SortedFirstMatch(xs, t);
    FirstMatchAt(s, t);
    BestIssuerIsFirstLongest(xs, t);
    if FirstIssuer(s, t) >= 0 {
      var k0 :| FirstLongest(xs, t, k0) && xs[k0] == BestIssuer(xs, t).value;
      forall k | FirstLongest(xs, t, k)
        ensures s[FirstIssuer(s, t)] == xs[k]
      {
        FirstLongestUnique(xs, t, k, k0);
      }
    }
  }

  /** The index of the first entry whose keyword occurs in `t`, or -1. */
  function FirstIssuer(xs: seq<Issuer>, t: string): (r: int)
    ensures -1 <= r < |xs|
    ensures r >= 0 ==> Contains(t, xs[r].keyword)
    ensures forall j :: 0 <= j < |xs| && (r == -1 || j < r) ==> !Contains(t, xs[j].keyword)
    decreases |xs|
  {
    if |xs| == 0 then -1
    else if Contains(t, xs[0].keyword) then 0
    else
      var k := FirstIssuer(xs[1..], t);
      assert forall j :: 1 <= j < |xs| ==> xs[j] == xs[1..][j - 1];
      if k < 0 then -1 else k + 1
  }

  /** Only ASCII capitals and digits survive (`re.sub(r"[^A-Z0-9]", "", s)`). */
  function KeepUpperAlnum(s: string): (r: string)
    ensures |r| <= |s|
    ensures forall i :: 0 <= i < |r| ==> IsUpperAlnum(r[i])
    ensures forall i :: 0 <= i < |s| && IsUpperAlnum(s[i]) ==> s[i] in r
  {
    if |s| == 0 then ""
    else (if IsUpperAlnum(s[0]) then [s[0]] else "") + KeepUpperAlnum(s[1..])
  }

  /** Every capital and digit survives the filter as often as it occurs, and nothing else does. */
  lemma {:induction false} KeepUpperAlnumCounts(s: string)
    ensures forall c :: multiset(KeepUpperAlnum(s))[c] == if IsUpperAlnum(c) then multiset(s)[c] else 0
    decreases |s|
  {
    if |s| > 0 {
      KeepUpperAlnumCounts(s[1..]);
      assert s == [s[0]] + s[1..];
      assert multiset(s) == multiset{s[0]} + multiset(s[1..]);
      var head: string := if IsUpperAlnum(s[0]) then [s[0]] else "";
      assert KeepUpperAlnum(s) == head + KeepUpperAlnum(s[1..]);
      assert multiset(KeepUpperAlnum(s)) == multiset(head) + multiset(KeepUpperAlnum(s[1..]));
    }
  }

  /** Text made only of capitals and digits passes the filter whole. */
  lemma {:induction false} KeepUpperAlnumKeeps(w: string)
    requires forall i :: 0 <= i < |w| ==> IsUpperAlnum(w[i])
    ensures KeepUpperAlnum(w) == w
    decreases |w|
  {
    if |w| > 0 {
      KeepUpperAlnumKeeps(w[1..]);
      assert w == [w[0]] + w[1..];
    }
  }

  const DailySeparators: seq<string> := [" - Daily", " -Daily", " Daily"]

  /**
   The fallback of `extract_issuer_name`: for the first separator found after
   the title's first character (exact case first, otherwise ignoring case), the
   upper-cased first word before it, reduced to capitals and digits.
   */
  function IssuerBeforeSeparator(title: string, seps: seq<string>): (r: string)
    ensures |r| > 0
    ensures forall i :: 0 <= i < |r| ==> IsUpperAlnum(r[i])
    ensures (forall k :: 0 <= k < |seps| ==>
               Find(title, seps[k]) <= 0 && (Find(title, seps[k]) == -1 ==> Find(Upper(title), Upper(seps[k])) <= 0))
            ==> r == "DERIV"
  {
    if |seps| == 0 then "DERIV"
    else
      var exact := Find(title, seps[0]);
      var idx := if exact == -1 then Find(Upper(title), Upper(seps[0])) else exact;
      if idx > 0 then
        var issuer := Strip(title[..idx]);
        var words := Words(issuer);
        var firstWord := if |words| > 0 then Upper(words[0]) else "";
        var kept := KeepUpperAlnum(firstWord);
        if |kept| > 0 then kept else "DERIV"
      else
        IssuerBeforeSeparator(title, seps[1..])
  }

  /**
   The fallback reads back the issuer word: for any non-empty word of
   capitals and digits followed by " - Daily", the name is that word,
   whatever comes after.
   */
  lemma IssuerOfDailyTitle(w: string, rest: string)
    requires |w| > 0 && forall i :: 0 <= i < |w| ==> IsUpperAlnum(w[i])
    ensures IssuerBeforeSeparator(w + " - Daily" + rest, DailySeparators) == w
  {
    DailyFound(w, rest);
    WordName(w);
    FallbackAt(w + " - Daily" + rest, DailySeparators, w);
  }

  /** " - Daily" is first found right after the word, and the text before it strips to the word. */
  lemma DailyFound(w: string, rest: string)
    requires |w| > 0 && forall i :: 0 <= i < |w| ==> IsUpperAlnum(w[i])
    ensures Find(w + " - Daily" + rest, DailySeparators[0]) == |w|
    ensures Strip((w + " - Daily" + rest)[..|w|]) == w
  {
    FindAfterWord(w, " - Daily", rest);
    assert (w + " - Daily" + rest)[..|w|] == w;
    StripNoEdgeSpace(w);
  }

  /** The name taken from a word of capitals and digits is the word itself. */
  lemma WordName(w: string)
    requires |w| > 0 && forall i :: 0 <= i < |w| ==> IsUpperAlnum(w[i])
    ensures |Words(w)| > 0 && KeepUpperAlnum(Upper(Words(w)[0])) == w
  {
    WordsOfWord(w);
    UpperOfUpperAlnum(w);
    KeepUpperAlnumKeeps(w);
  }

  /** When the first separator is found past the start, the name comes from the first word before it. */
  lemma FallbackAt(title: string, seps: seq<string>, issuer: string)
    requires |seps| > 0 && Find(title, seps[0]) > 0
    requires issuer == Strip(title[..Find(title, seps[0])])
    requires |Words(issuer)| > 0 && |KeepUpperAlnum(Upper(Words(issuer)[0]))| > 0
    ensures IssuerBeforeSeparator(title, seps) == KeepUpperAlnum(Upper(Words(issuer)[0]))
  {
  }

  /** A separator starting with a space is first found right after a word without spaces. */
  lemma FindAfterWord(w: string, sep: string, rest: string)
    requires forall i :: 0 <= i < |w| ==> IsUpperAlnum(w[i])
    requires |sep| > 0 && sep[0] == ' '
    ensures Find(w + sep + rest, sep) == |w|
  {
    var t := w + sep + rest;
    assert t[|w|..|w| + |sep|] == sep;
    assert OccursAt(t, sep, |w|);
  }

  /** A non-empty word without whitespace is its own single word. */
  lemma WordsOfWord(w: string)
    requires |w| > 0 && forall i :: 0 <= i < |w| ==> !IsSpace(w[i])
    ensures Words(w) == [w]
  {
    LStripNoSpace(w);
    WordAtWhole(w);
    assert w[|w|..] == "";
  }

  /** Upper-casing leaves capitals and digits alone. */
  lemma UpperOfUpperAlnum(w: string)
    requires forall i :: 0 <= i < |w| ==> IsUpperAlnum(w[i])
    ensures Upper(w) == w
  {
    assert forall i :: 0 <= i < |w| ==> Upper(w)[i] == w[i];
  }

  lemma LStripNoSpace(w: string)
    requires |w| > 0 && !IsSpace(w[0])
    ensures LStrip(w) == w
  {
  }

  lemma {:induction false} WordAtWhole(w: string)
    requires forall i :: 0 <= i < |w| ==> !IsSpace(w[i])
    ensures WordAt(w) == w
    decreases |w|
  {
    if |w| > 0 {
      WordAtWhole(w[1..]);
      assert w == [w[0]] + w[1..];
    }
  }

  /**
   `extract_issuer_name` over the keyword table `xs`: the short name of a
   longest keyword of `xs` in the upper-cased title; without one, the
   separator fallback, which yields capitals and digits only.
   */
  function IssuerFrom(xs: seq<Issuer>, title: string): (r: string)
    ensures (forall k :: 0 <= k < |xs| ==> !Contains(Upper(title), xs[k].keyword)) ==>
              r == IssuerBeforeSeparator(title, DailySeparators) && forall i :: 0 <= i < |r| ==> IsUpperAlnum(r[i])
    ensures (exists k :: 0 <= k < |xs| && Contains(Upper(title), xs[k].keyword)) ==>
              exists k :: 0 <= k < |xs| && Contains(Upper(title), xs[k].keyword) && r == xs[k].short
                && forall j :: 0 <= j < |xs| && Contains(Upper(title), xs[j].keyword) ==>
                     |xs[j].keyword| <= |xs[k].keyword|
    ensures forall k :: FirstLongest(xs, Upper(title), k) ==> r == xs[k].short
  {
    var sorted := SortByLength(xs);
    var k := FirstIssuer(sorted, Upper(title));
    SortByLengthSorts(xs);
    if k >= 0 then
      LongestMatch(sorted, xs, Upper(title), k);
      SortedPicksFirstLongest(xs, Upper(title));
      sorted[k].short
    else
      NoneMatch(sorted, xs, Upper(title));
      IssuerBeforeSeparator(title, DailySeparators)
  }

  /**
   Two keywords of the same length in one title: the one earlier in the table
   wins, whichever order they appear in the title.
   */
  lemma TieGoesToFirst()
    ensures IssuerFrom([Issuer("HSBC", "HSBC"), Issuer("BOCI", "BOCI")], "boci hsbc") == "HSBC"
  {
    TieTitle();
    assert FirstLongest([Issuer("HSBC", "HSBC"), Issuer("BOCI", "BOCI")], Upper("boci hsbc"), 0);
  }

  /** The same tie with the table order swapped goes the other way. */
  lemma TieFollowsTableOrder()
    ensures IssuerFrom([Issuer("BOCI", "BOCI"), Issuer("HSBC", "HSBC")], "boci hsbc") == "BOCI"
  {
    TieTitle();
    assert FirstLongest([Issuer("BOCI", "BOCI"), Issuer("HSBC", "HSBC")], Upper("boci hsbc"), 0);
  }

  lemma TieTitle()
    ensures Contains(Upper("boci hsbc"), "BOCI") && Contains(Upper("boci hsbc"), "HSBC")
  {
    var t := Upper("boci hsbc");
    assert t == "BOCI HSBC";
    assert OccursAt(t, "BOCI", 0);
    assert t[5..9] == "HSBC";
    assert OccursAt(t, "HSBC", 5);
  }

  /** With no known keyword in a Daily-report title, the name is the issuer word before " - Daily". */
  lemma IssuerFromDaily(xs: seq<Issuer>, w: string, rest: string)
    requires |w| > 0 && forall i :: 0 <= i < |w| ==> IsUpperAlnum(w[i])
    requires forall k :: 0 <= k < |xs| ==> !Contains(Upper(w + " - Daily" + rest), xs[k].keyword)
    ensures IssuerFrom(xs, w + " - Daily" + rest) == w
  {
    IssuerOfDailyTitle(w, rest);
  }

  /** `extract_issuer_name(title)`. */
  function ExtractIssuerName(title: string): string
  {
    IssuerFrom(KnownIssuers, title)
  }

  lemma NoneMatch(sorted: seq<Issuer>, xs: seq<Issuer>, t: string)
    requires multiset(sorted) == multiset(xs)
    requires forall j :: 0 <= j < |sorted| ==> !Contains(t, sorted[j].keyword)
    ensures forall j :: 0 <= j < |xs| ==> !Contains(t, xs[j].keyword)
  {
    forall j | 0 <= j < |xs|
      ensures !Contains(t, xs[j].keyword)
    {
      assert xs[j] in multiset(sorted);
      var i :| 0 <= i < |sorted| && sorted[i] == xs[j];
    }
  }

  /** In a longest-first permutation, the first matching keyword is a longest matching one. */
  lemma LongestMatch(sorted: seq<Issuer>, xs: seq<Issuer>, t: string, k: int)
    requires LongestFirst(sorted) && multiset(sorted) == multiset(xs)
    requires 0 <= k < |sorted| && Contains(t, sorted[k].keyword)
    requires forall j :: 0 <= j < k ==> !Contains(t, sorted[j].keyword)
    ensures exists i :: 0 <= i < |xs| && xs[i] == sorted[k]
    ensures forall j :: 0 <= j < |xs| && Contains(t, xs[j].keyword) ==> |xs[j].keyword| <= |sorted[k].keyword|
  {
    assert sorted[k] in multiset(xs);
    var m :| 0 <= m < |xs| && xs[m] == sorted[k];
    forall j | 0 <= j < |xs| && Contains(t, xs[j].keyword)
      ensures |xs[j].keyword| <= |sorted[k].keyword|
    {
      assert xs[j] in multiset(sorted);
      var i :| 0 <= i < |sorted| && sorted[i] == xs[j];
      assert i >= k;
    }
  }
}
