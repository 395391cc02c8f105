/**
 `extract_referenced_tickers` from src/hkex_scraper/utils.py: the stock codes
 a filing title mentions, either after "stock code(s)" or as "(NNNN.HK)",
 normalised to "NNNN.HK" and with the filing's own code left out.

 The two regular expressions are modelled as scanners that make the same
 choices as Python's backtracking matcher on these patterns; `\d` is taken as
 the ASCII digits and case is ignored for ASCII letters only.
 */
module Tickers {
  import opened Strings
  import opened Wrappers

  // ---------------------------------------------------------------------------
  // Scanning helpers
  // ---------------------------------------------------------------------------

  datatype CharClass = Space | ColonOrSpace | CommaOrSpace | Digit

  predicate InClass(c: char, k: CharClass) {
    match k
    case Space => IsSpace(c)
    case ColonOrSpace => c == ':' || IsSpace(c)
    case CommaOrSpace => c == ',' || IsSpace(c)
    case Digit => IsDigit(c)
  }

  /** The end of the longest run of class-`k` characters starting at `p` (a greedy `[...]*`). */
  function Skip(t: string, p: nat, k: CharClass): (q: nat)
    requires p <= |t|
    ensures p <= q <= |t|
    ensures forall i :: p <= i < q ==> InClass(t[i], k)
    ensures q < |t| ==> !InClass(t[q], k)
    decreases |t| - p
  {
    if p < |t| && InClass(t[p], k) then Skip(t, p + 1, k) else p
  }

  /** The lower-case literal `lit` occurs at `p`, ignoring ASCII case. */
  predicate LitAt(t: string, p: nat, lit: string) {
    p + |lit| <= |t| && Lower(t[p..p + |lit|]) == lit
  }

  /** Three to five ASCII digits: what `\d{3,5}` can capture. */
  predicate IsCode(c: string) {
    3 <= |c| <= 5 && forall i :: 0 <= i < |c| ==> IsDigit(c[i])
  }

  // ---------------------------------------------------------------------------
  // stock\s*code[s]?[:\s]+((?:\d{3,5}[,\s]*)+)
  // ---------------------------------------------------------------------------

  /**
   The repeated group `(?:\d{3,5}[,\s]*)+` from `p`, taken greedily: each round
   takes up to five digits of a run of at least three, then any commas and
   whitespace. Returns the digit groups (what `re.findall(r"\d{3,5}", ...)`
   finds in the captured text) and the end of the match.
   */
  function CodeList(t: string, p: nat): (r: (seq<string>, nat))
    requires p <= |t|
    ensures p <= r.1 <= |t|
    ensures forall i :: 0 <= i < |r.0| ==> IsCode(r.0[i])
    ensures |r.0| == 0 <==> r.1 == p
    decreases |t| - p
  {
    var run := Skip(t, p, Digit) - p;
    if run < 3 then ([], p)
    else
      var n := if run < 5 then run else 5;
      var next := Skip(t, p + n, CommaOrSpace);
      var rest := CodeList(t, next);
      ([t[p..p + n]] + rest.0, rest.1)
  }

  /** The first pattern tried at `p`: the codes it captures and where the match ends. */
  function StockCodeAt(t: string, p: nat): (r: Option<(seq<string>, nat)>)
    requires p <= |t|
    ensures r.Some? ==> p < r.value.1 <= |t| && |r.value.0| > 0
    ensures r.Some? ==> forall i :: 0 <= i < |r.value.0| ==> IsCode(r.value.0[i])
  {
    if !LitAt(t, p, "stock") then None
    else
      var q := Skip(t, p + 5, Space);
      if !LitAt(t, q, "code") then None
      else
        var q1 := q + 4;
        var q2 := if q1 < |t| && LowerChar(t[q1]) == 's' then q1 + 1 else q1;
        var q3 := Skip(t, q2, ColonOrSpace);
        if q3 == q2 then None
        else
          var codes := CodeList(t, q3);
          if |codes.0| == 0 then None else Some(codes)
  }

  /** `re.finditer` with the first pattern from `p`: left to right, non-overlapping. */
  function StockCodes(t: string, p: nat): (codes: seq<string>)
    requires p <= |t|
    ensures forall i :: 0 <= i < |codes| ==> IsCode(codes[i])
    decreases |t| - p
  {
    if p == |t| then []
    else
      match StockCodeAt(t, p)
      case Some(m) => m.0 + StockCodes(t, m.1)
      case None => StockCodes(t, p + 1)
  }

  /**
   A mention "stock code NNN" found at the start of a title: its code is the
   first one the first pattern captures, and when the title ends there it is
   the only one.
   */
  lemma StockCodeMentionFound(c: string, rest: string)
    requires IsCode(c)
    requires |rest| == 0 || !IsDigit(rest[0])
    ensures |StockCodes("stock code " + c + rest, 0)| > 0
    ensures StockCodes("stock code " + c + rest, 0)[0] == c
    ensures c in ReferencedCodes("stock code " + c + rest)
    ensures rest == "" ==> StockCodes("stock code " + c + rest, 0) == [c]
  {
    var t := "stock code " + c + rest;
    MentionHead(c, rest);
    CodeListFirst(t, 11, c);
    var m := CodeList(t, 11);
    assert StockCodeAt(t, 0) == Some(m);
    assert StockCodes(t, 0) == m.0 + StockCodes(t, m.1);
    if rest == "" {
      CodeListWhole(t, 11, c);
    }
  }

  /** The head "stock code " of a mention leads the first pattern to the digits at 11. */
  lemma MentionHead(c: string, rest: string)
    requires IsCode(c)
    ensures var t := "stock code " + c + rest;
            && LitAt(t, 0, "stock") && Skip(t, 5, Space) == 6 && LitAt(t, 6, "code")
            && LowerChar(t[10]) != 's' && Skip(t, 10, ColonOrSpace) == 11
  {
    var t := "stock code " + c + rest;
    assert t[..11] == "stock code ";
    assert t[0..5] == "stock";
    assert t[6..10] == "code";
    assert t[11] == c[0];
    SkipRun(t, 5, 6, Space);
    SkipRun(t, 10, 11, ColonOrSpace);
  }

  /** A code at `p` that no digit follows is the first group the repeated group takes. */
  lemma CodeListFirst(t: string, p: nat, c: string)
    requires IsCode(c) && p + |c| <= |t| && t[p..p + |c|] == c
    requires p + |c| < |t| ==> !IsDigit(t[p + |c|])
    ensures |CodeList(t, p).0| > 0 && CodeList(t, p).0[0] == c
  {
    assert forall i :: p <= i < p + |c| ==> t[i] == c[i - p];
    SkipRun(t, p, p + |c|, Digit);
  }

  /** A code that ends the text is all the repeated group takes, and the match ends with it. */
  lemma CodeListWhole(t: string, p: nat, c: string)
    requires IsCode(c) && p + |c| == |t| && t[p..] == c
    ensures CodeList(t, p) == ([c], |t|)
  {
    assert forall i :: p <= i < |t| ==> t[i] == c[i - p];
    SkipRun(t, p, |t|, Digit);
    var rest := CodeList(t, Skip(t, |t|, CommaOrSpace));
    assert rest == ([], |t|);
    assert t[p..|t|] == c;
    assert [t[p..|t|]] + rest.0 == [c];
  }

  /** The scan passes over positions where the first pattern does not match. */
  lemma {:induction false} ScanReaches(t: string, a: nat, p: nat)
    requires a <= p <= |t|
    requires forall q :: a <= q < p ==> StockCodeAt(t, q).None?
    ensures StockCodes(t, a) == StockCodes(t, p)
    decreases p - a
  {
    if a < p {
      assert StockCodeAt(t, a).None?;
      assert StockCodes(t, a) == StockCodes(t, a + 1);
      ScanReaches(t, a + 1, p);
    }
  }

  /** No match of the first pattern starts at a character other than "s" or "S". */
  lemma NoStockWithoutS(t: string, p: nat)
    requires p <= |t|
    requires forall q :: 0 <= q < p ==> LowerChar(t[q]) != 's'
    ensures forall q :: 0 <= q < p ==> StockCodeAt(t, q).None?
  {
    forall q | 0 <= q < p
      ensures !LitAt(t, q, "stock")
    {
      if q + 5 <= |t| {
        assert Lower(t[q..q + 5])[0] == LowerChar(t[q]);
      }
    }
  }

  /** A run of 3-5 digits at `p` that no digit follows is what the digit scan stops after. */
  lemma DigitRunAt(t: string, p: nat, c: string)
    requires IsCode(c) && p + |c| <= |t| && t[p..p + |c|] == c
    requires p + |c| < |t| ==> !IsDigit(t[p + |c|])
    ensures Skip(t, p, Digit) == p + |c|
  {
    assert forall i :: p <= i < p + |c| ==> t[i] == c[i - p];
    SkipRun(t, p, p + |c|, Digit);
  }

  /**
   The codes `cs` written from `p` separated by ", ", with neither a digit, a
   comma nor whitespace right after the last one.
   */
  predicate CodesAt(t: string, p: nat, cs: seq<string>)
    decreases |cs|
  {
    && |cs| > 0 && IsCode(cs[0]) && p + |cs[0]| <= |t| && t[p..p + |cs[0]|] == cs[0]
    && var e := p + |cs[0]|;
       if |cs| == 1 then e < |t| ==> !IsDigit(t[e]) && !InClass(t[e], CommaOrSpace)
       else e + 2 <= |t| && t[e] == ',' && t[e + 1] == ' ' && CodesAt(t, e + 2, cs[1..])
  }

  /** Where the text of `CodesAt(t, p, cs)` ends. */
  function CodesEnd(p: nat, cs: seq<string>): nat
    decreases |cs|
  {
    if |cs| == 0 then p
    else if |cs| == 1 then p + |cs[0]|
    else CodesEnd(p + |cs[0]| + 2, cs[1..])
  }

  /** A ", "-separated list of codes is exactly what the repeated group takes, ending after the last code. */
  lemma {:induction false} CodeListOfCodes(t: string, p: nat, cs: seq<string>)
    requires CodesAt(t, p, cs)
    ensures CodeList(t, p).0 == cs && CodeList(t, p).1 == CodesEnd(p, cs)
    decreases |cs|
  {
    if |cs| == 1 {
      CodeListLast(t, p, cs[0]);
      assert [cs[0]] == cs;
    } else {
      var q := p + |cs[0]| + 2;
      CodeListOfCodes(t, q, cs[1..]);
      CodesAtDigit(t, q, cs[1..]);
      CodeListMore(t, p, cs, CodesEnd(p, cs));
    }
  }

  /** A list of codes starts with a digit. */
  lemma CodesAtDigit(t: string, p: nat, cs: seq<string>)
    requires CodesAt(t, p, cs)
    ensures p < |t| && IsDigit(t[p])
  {
    assert t[p] == t[p..p + |cs[0]|][0];
  }

  /** A last code that neither a digit, a comma nor whitespace follows ends the repeated group. */
  lemma CodeListLast(t: string, p: nat, c: string)
    requires IsCode(c) && p + |c| <= |t| && t[p..p + |c|] == c
    requires p + |c| < |t| ==> !IsDigit(t[p + |c|]) && !InClass(t[p + |c|], CommaOrSpace)
    ensures CodeList(t, p) == ([c], p + |c|)
  {
    var e := p + |c|;
    DigitRunAt(t, p, c);
    SkipRun(t, e, e, CommaOrSpace);
    SkipRun(t, e, e, Digit);
    var rest := CodeList(t, Skip(t, e, CommaOrSpace));
    assert rest == ([], e);
    assert [t[p..e]] + rest.0 == [c];
  }

  /** A code followed by ", " and a further digit: one round of the repeated group. */
  lemma CodeListStep(t: string, p: nat, c: string)
    requires IsCode(c) && p + |c| + 2 < |t|
    requires t[p..p + |c|] == c && t[p + |c|] == ',' && t[p + |c| + 1] == ' ' && IsDigit(t[p + |c| + 2])
    ensures CodeList(t, p).0 == [c] + CodeList(t, p + |c| + 2).0
    ensures CodeList(t, p).1 == CodeList(t, p + |c| + 2).1
  {
    DigitRunAt(t, p, c);
    SkipRun(t, p + |c|, p + |c| + 2, CommaOrSpace);
    var rest := CodeList(t, p + |c| + 2);
    assert CodeList(t, p) == ([t[p..p + |c|]] + rest.0, rest.1);
  }

  /** One round of the repeated group in front of the rest of a list. */
  lemma CodeListMore(t: string, p: nat, cs: seq<string>, e: nat)
    requires |cs| > 1 && IsCode(cs[0])
    requires var q := p + |cs[0]| + 2;
            && q < |t| && t[p..p + |cs[0]|] == cs[0] && t[p + |cs[0]|] == ',' && t[p + |cs[0]| + 1] == ' '
            && IsDigit(t[q]) && CodeList(t, q).0 == cs[1..] && CodeList(t, q).1 == e
    ensures CodeList(t, p).0 == cs && CodeList(t, p).1 == e
  {
    CodeListStep(t, p, cs[0]);
    assert [cs[0]] + cs[1..] == cs;
  }

  /**
   A mention "stock code" followed by colons or spaces and a ", "-separated
   list of codes at `p` is a match of the first pattern capturing exactly that list.
   */
  lemma StockListAt(t: string, p: nat, sep: string, cs: seq<string>)
    requires |sep| > 0 && forall i :: 0 <= i < |sep| ==> InClass(sep[i], ColonOrSpace)
    requires p + 10 + |sep| <= |t| && t[p..p + 10] == "stock code" && t[p + 10..p + 10 + |sep|] == sep
    requires CodesAt(t, p + 10 + |sep|, cs)
    ensures StockCodeAt(t, p) == Some((cs, CodesEnd(p + 10 + |sep|, cs)))
  {
    var e := p + 10 + |sep|;
    CodesAtDigit(t, e, cs);
    ListHead(t, p, sep);
    CodeListOfCodes(t, e, cs);
    StockCodeAtUnfold(t, p, e);
    var m := CodeList(t, e);
    assert m == (m.0, m.1) == (cs, CodesEnd(e, cs));
  }

  /**
   A mention "stock code" with its list of codes, anywhere in the title after
   text where the first pattern finds nothing: the scan captures exactly that
   list there, so every listed code is referenced.
   */
  lemma StockListFound(t: string, p: nat, sep: string, cs: seq<string>)
    requires |sep| > 0 && forall i :: 0 <= i < |sep| ==> InClass(sep[i], ColonOrSpace)
    requires p + 10 + |sep| <= |t| && t[p..p + 10] == "stock code" && t[p + 10..p + 10 + |sep|] == sep
    requires CodesAt(t, p + 10 + |sep|, cs)
    requires forall q :: 0 <= q < p ==> StockCodeAt(t, q).None?
    ensures CodesEnd(p + 10 + |sep|, cs) <= |t|
    ensures StockCodes(t, 0) == cs + StockCodes(t, CodesEnd(p + 10 + |sep|, cs))
    ensures forall i :: 0 <= i < |cs| ==> cs[i] in ReferencedCodes(t)
  {
    ScanReaches(t, 0, p);
    StockListAt(t, p, sep, cs);
    var rest := StockCodes(t, CodesEnd(p + 10 + |sep|, cs));
    assert StockCodes(t, p) == cs + rest;
    assert forall i :: 0 <= i < |cs| ==> (cs + rest)[i] == cs[i];
  }

  /** The first pattern at `p` once its head has been found to end at `e`. */
  lemma StockCodeAtUnfold(t: string, p: nat, e: nat)
    requires p + 10 < e <= |t|
    requires LitAt(t, p, "stock") && Skip(t, p + 5, Space) == p + 6 && LitAt(t, p + 6, "code")
    requires LowerChar(t[p + 10]) != 's' && Skip(t, p + 10, ColonOrSpace) == e
    requires |CodeList(t, e).0| > 0
    ensures StockCodeAt(t, p) == Some(CodeList(t, e))
  {
  }

  lemma ListHead(t: string, p: nat, sep: string)
    requires |sep| > 0 && forall i :: 0 <= i < |sep| ==> InClass(sep[i], ColonOrSpace)
    requires p + 10 + |sep| <= |t| && t[p..p + 10] == "stock code" && t[p + 10..p + 10 + |sep|] == sep
    requires p + 10 + |sep| < |t| && IsDigit(t[p + 10 + |sep|])
    ensures LitAt(t, p, "stock") && Skip(t, p + 5, Space) == p + 6 && LitAt(t, p + 6, "code")
    ensures LowerChar(t[p + 10]) != 's' && Skip(t, p + 10, ColonOrSpace) == p + 10 + |sep|
  {
    var s := p + 10 + |sep|;
    var h := t[p..p + 10];
    assert t[p..p + 5] == h[..5] == "stock";
    assert t[p + 5] == h[5] == ' ' && t[p + 6] == h[6] == 'c';
    assert t[p + 6..p + 10] == h[6..] == "code";
    assert t[p + 10] == sep[0];
    assert forall i :: p + 10 <= i < s ==> t[i] == sep[i - (p + 10)];
    SkipRun(t, p + 5, p + 6, Space);
    SkipRun(t, p + 10, s, ColonOrSpace);
  }

  // ---------------------------------------------------------------------------
  // \((\d{3,5})\.HK\)
  // ---------------------------------------------------------------------------

  /** The second pattern tried at `p`: the captured code and where the match ends. */
  function HkCodeAt(t: string, p: nat): (r: Option<(string, nat)>)
    requires p <= |t|
    ensures r.Some? ==> p < r.value.1 <= |t| && IsCode(r.value.0)
  {
    if p < |t| && t[p] == '(' then
      var e := Skip(t, p + 1, Digit);
      if 3 <= e - (p + 1) <= 5 && LitAt(t, e, ".hk)") then Some((t[p + 1..e], e + 4)) else None
    else None
  }

  /** `re.finditer` with the second pattern from `p`. */
  function HkCodes(t: string, p: nat): (codes: seq<string>)
    requires p <= |t|
    ensures forall i :: 0 <= i < |codes| ==> IsCode(codes[i])
    decreases |t| - p
  {
    if p == |t| then []
    else
      match HkCodeAt(t, p)
      case Some(m) => [m.0] + HkCodes(t, m.1)
      case None => HkCodes(t, p + 1)
  }

  /** An occurrence of "(code.HK)" at `p`, ignoring the case of "HK". */
  ghost predicate HkOccurs(t: string, p: int, c: string) {
    && 0 <= p < |t| && t[p] == '('
    && IsCode(c)
    && p + 1 + |c| <= |t| && t[p + 1..p + 1 + |c|] == c
    && LitAt(t, p + 1 + |c|, ".hk)")
  }

  lemma HkCodeAtOccurs(t: string, p: nat, c: string)
    requires p <= |t|
    ensures (HkCodeAt(t, p).Some? && HkCodeAt(t, p).value.0 == c) <==> HkOccurs(t, p, c)
  {
    if HkOccurs(t, p, c) {
      var e := p + 1 + |c|;
      assert forall i :: p + 1 <= i < e ==> t[i] == c[i - (p + 1)];
      assert Lower(t[e..e + 4])[0] == '.';
      assert Skip(t, p + 1, Digit) == e by {
        SkipRun(t, p + 1, e, Digit);
      }
    }
  }

  /** A run of class-`k` characters ended by one outside the class is exactly what `Skip` finds. */
  lemma {:induction false} SkipRun(t: string, p: nat, e: nat, k: CharClass)
    requires p <= e <= |t|
    requires forall i :: p <= i < e ==> InClass(t[i], k)
    requires e < |t| ==> !InClass(t[e], k)
    ensures Skip(t, p, k) == e
    decreases e - p
  {
    if p < e {
      SkipRun(t, p + 1, e, k);
    }
  }

  /** No "(" lies strictly inside a match of the second pattern, so no occurrence starts there. */
  lemma NoOccurrenceInside(t: string, p: nat, c: string)
    requires p <= |t| && HkCodeAt(t, p).Some?
    ensures forall q :: p < q < HkCodeAt(t, p).value.1 ==> !HkOccurs(t, q, c)
  {
    var e := Skip(t, p + 1, Digit);
    assert Lower(t[e..e + 4]) == ".hk)";
    forall q | p < q < HkCodeAt(t, p).value.1
      ensures t[q] != '('
    {
      if q < e {
        assert IsDigit(t[q]);
      } else {
        assert LowerChar(t[q]) == Lower(t[e..e + 4])[q - e];
      }
    }
  }

  /** The second pattern's codes are exactly the "(code.HK)" occurrences at or after `p`. */
  lemma {:induction false} HkCodesComplete(t: string, p: nat, c: string)
    requires p <= |t|
    ensures c in HkCodes(t, p) <==> exists q :: p <= q && HkOccurs(t, q, c)
    decreases |t| - p
  {
    if p < |t| {
      var r := HkCodeAt(t, p);
      if r.Some? {
        HkCodesComplete(t, r.value.1, c);
        MatchStep(t, p, c);
      } else {
        HkCodesComplete(t, p + 1, c);
        MissStep(t, p, c);
      }
    }
  }

  /** After a match at `p`, scanning resumes at its end without missing an occurrence. */
  lemma MatchStep(t: string, p: nat, c: string)
    requires p < |t| && HkCodeAt(t, p).Some?
    requires c in HkCodes(t, HkCodeAt(t, p).value.1) <==> exists q :: HkCodeAt(t, p).value.1 <= q && HkOccurs(t, q, c)
    ensures c in HkCodes(t, p) <==> exists q :: p <= q && HkOccurs(t, q, c)
  {
    var m := HkCodeAt(t, p).value;
    HkCodeAtOccurs(t, p, c);
    NoOccurrenceInside(t, p, c);
    assert HkCodes(t, p) == [m.0] + HkCodes(t, m.1);
  }

  /** Without a match at `p`, scanning moves on by one character. */
  lemma MissStep(t: string, p: nat, c: string)
    requires p < |t| && HkCodeAt(t, p).None?
    requires c in HkCodes(t, p + 1) <==> exists q :: p + 1 <= q && HkOccurs(t, q, c)
    ensures c in HkCodes(t, p) <==> exists q :: p <= q && HkOccurs(t, q, c)
  {
    HkCodeAtOccurs(t, p, c);
    assert HkCodes(t, p) == HkCodes(t, p + 1);
  }

  // ---------------------------------------------------------------------------
  // Normalisation and the result
  // ---------------------------------------------------------------------------

  /** `f"{code.lstrip('0') or '0'}".zfill(4) + ".HK"`. */
  function Ticker(code: string): string {
    ZFill(StripLeadingZeros(code), 4) + ".HK"
  }

  /** The shape of every returned ticker: four or five digits, then ".HK". */
  predicate IsTickerForm(x: string) {
    && 7 <= |x| <= 8
    && x[|x| - 3..] == ".HK"
    && forall i :: 0 <= i < |x| - 3 ==> IsDigit(x[i])
  }

  /** The set of codes the title references, from both patterns. */
  function ReferencedCodes(title: string): (codes: set<string>)
    ensures forall c :: c in codes ==> IsCode(c)
  {
    set c | c in StockCodes(title, 0) + HkCodes(title, 0)
  }

  /** The normalised tickers of the referenced codes that differ from the filing's own code. */
  function TickerSet(title: string, ownCode: string): (s: set<string>)
    ensures forall x :: x in s ==> IsTickerForm(x) && x != Ticker(ownCode)
  {
    var own := StripLeadingZeros(ownCode);
    var codes := ReferencedCodes(title);
    var s := set c | c in codes && StripLeadingZeros(c) != own :: Ticker(c);
    forall x | x in s
      ensures IsTickerForm(x) && x != Ticker(ownCode)
    {
      var c :| c in codes && StripLeadingZeros(c) != own && x == Ticker(c);
      TickerForm(c);
      TickerDistinct(c, ownCode);
    }
    s
  }

  /** `extract_referenced_tickers(title, own_stock_code)`. */
  function ExtractReferencedTickers(title: string, ownCode: string): (r: seq<string>)
    ensures StrictlySorted(r)
    ensures forall i :: 0 <= i < |r| ==> IsTickerForm(r[i])
    ensures Ticker(ownCode) !in r
    ensures forall x :: x in r <==> x in TickerSet(title, ownCode)
  {
    SortedList(TickerSet(title, ownCode))
  }

  /** A ticker is returned exactly when some referenced code normalises to it and differs from the own code. */
  lemma ReferencedTickersExactly(title: string, ownCode: string, x: string)
    ensures x in ExtractReferencedTickers(title, ownCode) <==>
              exists c :: c in ReferencedCodes(title) && StripLeadingZeros(c) != StripLeadingZeros(ownCode) && x == Ticker(c)
  {
  }

  /** A referenced code gives a well-formed ticker. */
  lemma TickerForm(c: string)
    requires IsCode(c)
    ensures IsTickerForm(Ticker(c))
  {
    var n := StripLeadingZeros(c);
    assert forall i :: 0 <= i < |n| ==> IsDigit(n[i]);
    ZFillDigits(n, 4);
    DigitsThenHk(ZFill(n, 4));
  }

  lemma DigitsThenHk(z: string)
    requires 4 <= |z| <= 5 && forall i :: 0 <= i < |z| ==> IsDigit(z[i])
    ensures IsTickerForm(z + ".HK")
  {
    var x := z + ".HK";
    assert x[|x| - 3..] == ".HK";
    assert forall i :: 0 <= i < |x| - 3 ==> x[i] == z[i];
  }

  /** A code that normalises differently from the filing's own code never yields the filing's own ticker. */
  lemma TickerDistinct(c: string, ownCode: string)
    requires IsCode(c)
    requires StripLeadingZeros(c) != StripLeadingZeros(ownCode)
    ensures Ticker(c) != Ticker(ownCode)
  {
    var n := StripLeadingZeros(c);
    var m := StripLeadingZeros(ownCode);
    assert forall i :: 0 <= i < |n| ==> IsDigit(n[i]);
    if Ticker(c) == Ticker(ownCode) {
      var z, w := ZFill(n, 4), ZFill(m, 4);
      assert |z| == |w|;
      assert z == (z + ".HK")[..|z|] == (w + ".HK")[..|w|] == w;
      ZFillNormalisedInjective(n, m);
    }
  }

  /** Zero-padding cannot make two different normalised codes equal. */
  lemma ZFillNormalisedInjective(n: string, m: string)
    requires |n| >= 1 && forall i :: 0 <= i < |n| ==> IsDigit(n[i])
    requires n == "0" || n[0] != '0'
    requires m == "0" || (|m| > 0 && m[0] != '0')
    requires ZFill(n, 4) == ZFill(m, 4)
    ensures n == m
  {
    var z := ZFill(n, 4);
    ZFillDigits(n, 4);
    if |m| > 0 && (m[0] == '+' || m[0] == '-') {
      ZFillKeepsSign(m, 4);
      assert false;
    } else {
      ZFillUnsigned(m, 4);
      var a := |z| - |n|;
      var b := |z| - |m|;
      if a < b {
        assert false;
      } else if b < a {
        assert false;
      } else {
        assert z[a..] == n && z[b..] == m;
      }
    }
  }

  /** Normalising a zero-padded normalised code gives the code back. */
  lemma PaddedNormalises(n: string, width: nat)
    requires |n| >= 1 && forall i :: 0 <= i < |n| ==> IsDigit(n[i])
    requires n == "0" || n[0] != '0'
    ensures StripLeadingZeros(ZFill(n, width)) == n
  {
    var z := ZFill(n, width);
    ZFillDigits(n, width);
    var a := |z| - |n|;
    assert z[a..] == n;
    var r := LStripChar(z, '0');
    var p := |z| - |r|;
    if n == "0" {
      assert forall i :: 0 <= i < |z| ==> z[i] == '0' by {
        assert z[a] == n[0];
      }
    } else {
      assert z[a] == n[0];
      if p < a {
        assert false;
      } else if p > a {
        assert false;
      }
      assert r == z[a..];
    }
  }

  /**
   A title naming another company and the filing's own company: the other
   ticker is returned and the filing's own is not.
   */
  lemma HkSuffixExample()
    ensures "0451.HK" in ExtractReferencedTickers("(0451.HK) (0005.HK)", "0005")
    ensures "0005.HK" !in ExtractReferencedTickers("(0451.HK) (0005.HK)", "0005")
  {
    var t := "(0451.HK) (0005.HK)";
    ExampleOccurs();
    HkCodesComplete(t, 0, "0451");
    ExampleNormalises();
    ReferencedTickersExactly(t, "0005", "0451.HK");
  }

  /** The title "Joint Announcement (stock code: a, b)" for four-digit codes `a` and `b`. */
  function JointTitle(a: string, b: string): string
  {
    "Joint Announcement (stock code: " + a + ", " + b + ")"
  }

  /** Both codes of a comma-separated stock code list are referenced, wherever the mention sits in the title. */
  lemma JointMention(a: string, b: string)
    requires IsCode(a) && IsCode(b) && |a| == 4 && |b| == 4
    ensures a in ReferencedCodes(JointTitle(a, b)) && b in ReferencedCodes(JointTitle(a, b))
  {
    var t := JointTitle(a, b);
    JointPrefix(a, b);
    JointCodes(a, b);
    assert t[20..30] == "stock code" && t[30..32] == ": ";
    StockListFound(t, 20, ": ", [a, b]);
  }

  lemma JointPrefix(a: string, b: string)
    requires |a| == 4 && |b| == 4
    ensures forall q :: 0 <= q < 20 ==> StockCodeAt(JointTitle(a, b), q).None?
  {
    var t := JointTitle(a, b);
    assert t[..20] == "Joint Announcement (";
    NoStockWithoutS(t, 20);
  }

  lemma JointCodes(a: string, b: string)
    requires IsCode(a) && IsCode(b) && |a| == 4 && |b| == 4
    ensures CodesAt(JointTitle(a, b), 32, [a, b])
  {
    var t := JointTitle(a, b);
    assert t[32..36] == a && t[36] == ',' && t[37] == ' ';
    assert t[38..42] == b && t[42] == ')';
    assert CodesAt(t, 38, [b]);
    assert [a, b][1..] == [b];
  }

  /** The joint announcement example: both listed companies are referenced, with leading zeros kept in the ticker. */
  lemma JointExample()
    ensures "0298.HK" in ExtractReferencedTickers("Joint Announcement (stock code: 0298, 1234)", "0001")
    ensures "1234.HK" in ExtractReferencedTickers("Joint Announcement (stock code: 0298, 1234)", "0001")
  {
    var t := JointTitle("0298", "1234");
    assert t == "Joint Announcement (stock code: 0298, 1234)";
    JointMention("0298", "1234");
    JointNormalises();
    ReferencedTickersExactly(t, "0001", "0298.HK");
    ReferencedTickersExactly(t, "0001", "1234.HK");
  }

  /** The own code is left out even when it heads the list. */
  lemma JointOwnExample()
    ensures "0001.HK" !in ExtractReferencedTickers("Joint Announcement (stock code: 0001, 0298)", "0001")
    ensures "0298.HK" in ExtractReferencedTickers("Joint Announcement (stock code: 0001, 0298)", "0001")
  {
    var t := JointTitle("0001", "0298");
    assert t == "Joint Announcement (stock code: 0001, 0298)";
    JointMention("0001", "0298");
    JointNormalises();
    ReferencedTickersExactly(t, "0001", "0298.HK");
  }

  lemma JointNormalises()
    ensures StripLeadingZeros("0298") != StripLeadingZeros("0001")
    ensures StripLeadingZeros("1234") != StripLeadingZeros("0001")
    ensures Ticker("0298") == "0298.HK" && Ticker("1234") == "1234.HK" && Ticker("0001") == "0001.HK"
  {
    JointFirstNormalises();
    JointSecondNormalises();
    JointOwnNormalises();
  }

  lemma JointFirstNormalises()
    ensures StripLeadingZeros("0298") == "298"
    ensures Ticker("0298") == "0298.HK"
  {
    assert "0298"[1..] == "298";
    assert LStripChar("298", '0') == "298";
    assert Zeros(1) == "0";
    assert ZFill("298", 4) == "0" + "298";
  }

  lemma JointSecondNormalises()
    ensures StripLeadingZeros("1234") == "1234"
    ensures Ticker("1234") == "1234.HK"
  {
    assert LStripChar("1234", '0') == "1234";
    assert Zeros(0) == "";
  }

  lemma JointOwnNormalises()
    ensures StripLeadingZeros("0001") == "1"
    ensures Ticker("0001") == "0001.HK"
  {
    JointOwnStripped();
    JointOwnPadded();
  }

  lemma JointOwnPadded()
    ensures ZFill("1", 4) + ".HK" == "0001.HK"
  {
    assert Zeros(3) == "000";
  }

  lemma JointOwnStripped()
    ensures StripLeadingZeros("0001") == "1"
  {
    var r := StripLeadingZeros("0001");
    assert "0001"[3] == '1';
    assert r == "0001"[4 - |r|..];
  }

  lemma ExampleOccurs()
    ensures HkOccurs("(0451.HK) (0005.HK)", 0, "0451")
  {
    var t := "(0451.HK) (0005.HK)";
    assert t[1..5] == "0451";
    assert Lower(t[5..9]) == ".hk)";
  }

  lemma ExampleNormalises()
    ensures StripLeadingZeros("0451") != StripLeadingZeros("0005")
    ensures Ticker("0451") == "0451.HK"
    ensures Ticker("0005") == "0005.HK"
  {
    OtherNormalises();
    OwnNormalises();
  }

  lemma OtherNormalises()
    ensures StripLeadingZeros("0451") == "451"
    ensures Ticker("0451") == "0451.HK"
  {
    assert "0451"[1..] == "451";
    assert LStripChar("451", '0') == "451";
    assert Zeros(1) == "0";
    assert ZFill("451", 4) == "0" + "451";
  }

  lemma OwnNormalises()
    ensures StripLeadingZeros("0005") == "5"
    ensures Ticker("0005") == "0005.HK"
  {
    OwnStripped();
    PaddedFive();
  }

  lemma OwnStripped()
    ensures StripLeadingZeros("0005") == "5"
  {
    var r := StripLeadingZeros("0005");
    assert "0005"[3] == '5';
    assert r == "0005"[4 - |r|..];
  }

  lemma PaddedFive()
    ensures ZFill("5", 4) + ".HK" == "0005.HK"
  {
    assert Zeros(3) == "000";
  }
}
