/**
 The two string cleaners of src/hkex_scraper/utils.py that everything else
 leans on: `squash_ws` (whitespace normalisation of names, titles and table
 cells) and `escape_sql` (embedding a value in a SurrealQL single-quoted
 string literal).
 */
module TextUtils {
  import opened Strings
  import opened Wrappers

  // ---------------------------------------------------------------------------
  // squash_ws
  // ---------------------------------------------------------------------------

  ghost predicate NoDoubleSpace(r: string) {
    forall i :: 0 < i < |r| ==> !IsSpace(r[i - 1]) || !IsSpace(r[i])
  }

  /** What `squash_ws` promises of its result. */
  ghost predicate Squashed(r: string) {
    && (|r| == 0 || (!IsSpace(r[0]) && !IsSpace(r[|r| - 1])))
    && NoDoubleSpace(r)
    && (forall i :: 0 <= i < |r| ==> IsPrintable(r[i]) || r[i] == ' ')
  }

  /** First step of `squash_ws`: a character that is neither printable nor the space becomes a space. */
  function ReplaceUnprintable(s: string): (r: string)
    ensures |r| == |s|
    ensures forall i :: 0 <= i < |r| ==> IsPrintable(r[i]) || r[i] == ' '
    ensures forall i :: 0 <= i < |r| ==> (IsSpace(r[i]) ==> r[i] == ' ')
  {
    seq(|s|, i requires 0 <= i < |s| => if IsPrintable(s[i]) || s[i] == ' ' then s[i] else ' ')
  }

  /** `re.sub(r"\s+", " ", s)`: every maximal run of whitespace becomes one space. */
  function CollapseWs(s: string): (r: string)
    ensures |r| <= |s|
    ensures |s| == 0 ==> r == ""
    ensures |s| > 0 ==> |r| > 0 && (IsSpace(r[0]) <==> IsSpace(s[0]))
    ensures NoDoubleSpace(r)
    ensures forall i :: 0 <= i < |r| ==> (IsSpace(r[i]) ==> r[i] == ' ')
    decreases |s|
  {
    if |s| == 0 then ""
    else if IsSpace(s[0]) then " " + CollapseWs(LStrip(s))
    else [s[0]] + CollapseWs(s[1..])
  }

  /** `squash_ws(s)`: remove control and zero-width characters, collapse whitespace, strip. */
  function SquashWs(s: string): (r: string)
    ensures Squashed(r)
  {
    var collapsed := CollapseWs(ReplaceUnprintable(s));
    CollapseKeepsPrintable(ReplaceUnprintable(s));
    StripKeepsSpacing(collapsed);
    Strip(collapsed)
  }

  /** Collapsing introduces no character other than the space. */
  lemma {:induction false} CollapseKeepsPrintable(s: string)
    requires forall i :: 0 <= i < |s| ==> IsPrintable(s[i]) || s[i] == ' '
    ensures forall i :: 0 <= i < |CollapseWs(s)| ==> IsPrintable(CollapseWs(s)[i]) || CollapseWs(s)[i] == ' '
    decreases |s|
  {
    if |s| > 0 {
      if IsSpace(s[0]) {
        CollapseKeepsPrintable(LStrip(s));
      } else {
        CollapseKeepsPrintable(s[1..]);
      }
    }
  }

  /** Stripping a single-spaced, printable text yields a squashed one. */
  lemma StripKeepsSpacing(t: string)
    requires NoDoubleSpace(t)
    requires forall i :: 0 <= i < |t| ==> IsPrintable(t[i]) || t[i] == ' '
    ensures Squashed(Strip(t))
  {
    StripIsSlice(t);
    var a := |t| - |LStrip(t)|;
    NoDoubleSpaceSlice(t, a, |Strip(t)|, Strip(t));
    PrintableSlice(t, a, |Strip(t)|, Strip(t));
  }

  lemma NoDoubleSpaceSlice(t: string, a: nat, n: nat, u: string)
    requires a + n <= |t| && u == t[a..][..n] && NoDoubleSpace(t)
    ensures NoDoubleSpace(u)
  {
    forall i | 0 < i < |u|
      ensures !IsSpace(u[i - 1]) || !IsSpace(u[i])
    {
      assert u[i - 1] == t[a + i - 1] && u[i] == t[a + i];
    }
  }

  lemma PrintableSlice(t: string, a: nat, n: nat, u: string)
    requires a + n <= |t| && u == t[a..][..n]
    requires forall i :: 0 <= i < |t| ==> IsPrintable(t[i]) || t[i] == ' '
    ensures forall i :: 0 <= i < |u| ==> IsPrintable(u[i]) || u[i] == ' '
  {
    forall i | 0 <= i < |u|
      ensures IsPrintable(u[i]) || u[i] == ' '
    {
      assert u[i] == t[a + i];
    }
  }

  // ---- an independent description: the words of the text, joined by single spaces

  /** One step of `CollapseWs` over a non-space character. */
  lemma CollapseCons(x: char, t: string)
    requires !IsSpace(x)
    ensures CollapseWs([x] + t) == [x] + CollapseWs(t)
  {
    assert ([x] + t)[1..] == t;
  }

  /** Collapsing a word followed by more text leaves the word alone. */
  lemma {:induction false} CollapseWord(w: string, rest: string)
    requires forall i :: 0 <= i < |w| ==> !IsSpace(w[i])
    ensures CollapseWs(w + rest) == w + CollapseWs(rest)
    decreases |w|
  {
    if |w| == 0 {
      assert w + rest == rest;
    } else {
      var x, t := w[0], w[1..];
      assert w == [x] + t;
      assert w + rest == [x] + (t + rest);
      CollapseCons(x, t + rest);
      CollapseWord(t, rest);
      assert [x] + (t + CollapseWs(rest)) == ([x] + t) + CollapseWs(rest);
    }
  }

  /** Right-stripping only reaches into the part after the last non-space. */
  lemma {:induction false} RStripAppend(a: string, b: string)
    requires |b| > 0 && !IsSpace(b[0])
    ensures RStrip(a + b) == a + RStrip(b)
    decreases |b|
  {
    if IsSpace(b[|b| - 1]) {
      assert (a + b)[..|a + b| - 1] == a + b[..|b| - 1];
      RStripAppend(a, b[..|b| - 1]);
    }
  }

  lemma LStripOfCollapse(s: string)
    ensures LStrip(CollapseWs(s)) == CollapseWs(LStrip(s))
  {
    if |s| > 0 && IsSpace(s[0]) {
      var c := CollapseWs(LStrip(s));
      assert CollapseWs(s) == " " + c;
      assert (" " + c)[1..] == c;
      LStripIdempotent(s);
    }
  }

  lemma JoinCons(p: string, ps: seq<string>, sep: string)
    requires |ps| > 0
    ensures Join([p] + ps, sep) == p + sep + Join(ps, sep)
  {
    assert ([p] + ps)[1..] == ps;
  }

  /** Right-stripping text whose last character is not whitespace changes nothing. */
  lemma RStripNoTrailingSpace(t: string)
    requires |t| == 0 || !IsSpace(t[|t| - 1])
    ensures RStrip(t) == t
  {
  }

  /** Collapsing then right-stripping text that starts with a word joins its words. */
  lemma {:induction false} RStripCollapseIsJoin(s: string)
    requires |s| == 0 || !IsSpace(s[0])
    ensures RStrip(CollapseWs(s)) == Join(Words(s), " ")
    decreases |s|
  {
    if |s| > 0 {
      var w := WordAt(s);
      var rest := s[|w|..];
      assert s == w + rest;
      CollapseWord(w, rest);
      WordsCons(s);
      if |LStrip(rest)| > 0 {
        RStripCollapseIsJoin(LStrip(rest));
      }
      AfterWord(w, rest);
    }
  }

  /** The step of `RStripCollapseIsJoin` after its first word `w`. */
  lemma AfterWord(w: string, rest: string)
    requires |w| > 0 && forall i :: 0 <= i < |w| ==> !IsSpace(w[i])
    requires |rest| == 0 || IsSpace(rest[0])
    requires |LStrip(rest)| > 0 ==> RStrip(CollapseWs(LStrip(rest))) == Join(Words(LStrip(rest)), " ")
    ensures RStrip(w + CollapseWs(rest)) == Join([w] + Words(rest), " ")
  {
    WordsOfLStrip(rest);
    if |rest| == 0 {
      assert w + CollapseWs(rest) == w;
      RStripNoTrailingSpace(w);
    } else if |LStrip(rest)| == 0 {
      TrailingSpace(w, rest);
    } else {
      MoreWords(w, rest);
    }
  }

  lemma TrailingSpace(w: string, rest: string)
    requires |w| > 0 && !IsSpace(w[|w| - 1])
    requires |rest| > 0 && IsSpace(rest[0]) && |LStrip(rest)| == 0
    ensures RStrip(w + CollapseWs(rest)) == w
  {
    CollapseSpace(rest);
    assert CollapseWs(rest) == " ";
    RStripSpaceAfterWord(w);
  }

  lemma MoreWords(w: string, rest: string)
    requires |rest| > 0 && IsSpace(rest[0]) && |LStrip(rest)| > 0
    requires RStrip(CollapseWs(LStrip(rest))) == Join(Words(LStrip(rest)), " ")
    ensures RStrip(w + CollapseWs(rest)) == Join([w] + Words(LStrip(rest)), " ")
  {
    var u := LStrip(rest);
    var cu := CollapseWs(u);
    var ws := Words(u);
    CollapseSpace(rest);
    ConcatAssoc(w, " ", cu);
    RStripAppend(w + " ", cu);
    WordsCons(u);
    JoinCons(w, ws, " ");
  }

  /** A run of leading whitespace collapses to one space. */
  lemma CollapseSpace(s: string)
    requires |s| > 0 && IsSpace(s[0])
    ensures CollapseWs(s) == " " + CollapseWs(LStrip(s))
  {
  }

  lemma RStripSpaceAfterWord(w: string)
    requires |w| > 0 && !IsSpace(w[|w| - 1])
    ensures RStrip(w + " ") == w
    ensures RStrip(w + " " + "") == w
  {
    assert w + " " + "" == w + " ";
    assert (w + " ")[..|w|] == w;
  }

  /** `squash_ws` keeps exactly the words of the cleaned text, separated by single spaces. */
  lemma SquashWsJoinsWords(s: string)
    ensures SquashWs(s) == Join(Words(ReplaceUnprintable(s)), " ")
  {
    var c := ReplaceUnprintable(s);
    LStripOfCollapse(c);
    RStripCollapseIsJoin(LStrip(c));
    WordsOfLStrip(c);
  }

  // ---- idempotence

  lemma {:induction false} CollapseFixpoint(t: string)
    requires NoDoubleSpace(t)
    requires forall i :: 0 <= i < |t| ==> (IsSpace(t[i]) ==> t[i] == ' ')
    ensures CollapseWs(t) == t
    decreases |t|
  {
    if |t| > 0 {
      if IsSpace(t[0]) {
        assert LStrip(t) == t[1..] by {
          if |t| > 1 {
            assert !IsSpace(t[1]);
          }
        }
      }
      assert NoDoubleSpace(t[1..]) by {
        forall i | 0 < i < |t[1..]|
          ensures !IsSpace(t[1..][i - 1]) || !IsSpace(t[1..][i])
        {
          assert t[1..][i - 1] == t[i] && t[1..][i] == t[i + 1];
        }
      }
      CollapseFixpoint(t[1..]);
      assert t == [t[0]] + t[1..];
    }
  }

  /** Text that already satisfies `squash_ws`'s promise is left unchanged by it. */
  lemma SquashedFixpoint(t: string)
    requires Squashed(t)
    ensures SquashWs(t) == t
  {
    assert ReplaceUnprintable(t) == t;
    CollapseFixpoint(t);
    StripNoEdgeSpace(t);
  }

  /** `squash_ws` is idempotent. */
  lemma SquashWsIdempotent(s: string)
    ensures SquashWs(SquashWs(s)) == SquashWs(s)
  {
    SquashedFixpoint(SquashWs(s));
  }

  // ---------------------------------------------------------------------------
  // escape_sql
  // ---------------------------------------------------------------------------

  /** `"".join(c if c.isprintable() or c == " " else "" for c in s)`. */
  function KeepPrintable(s: string): (r: string)
    ensures |r| <= |s|
    ensures forall i :: 0 <= i < |r| ==> IsPrintable(r[i]) || r[i] == ' '
  {
    if |s| == 0 then ""
    else (if IsPrintable(s[0]) || s[0] == ' ' then [s[0]] else "") + KeepPrintable(s[1..])
  }

  /** How one character is written inside a single-quoted literal. */
  function EscapeChar(c: char): string {
    if c == '\\' then "\\\\" else if c == '\'' then "\\'" else [c]
  }

  function EscapeAll(s: string): string {
    if |s| == 0 then "" else EscapeChar(s[0]) + EscapeAll(s[1..])
  }

  /** Reading a literal body back: a backslash takes the next character literally. */
  function Unescape(r: string): string {
    if |r| == 0 then ""
    else if r[0] == '\\' && |r| >= 2 then [r[1]] + Unescape(r[2..])
    else [r[0]] + Unescape(r[1..])
  }

  /** A valid body of a single-quoted literal: no bare quote, no dangling backslash. */
  predicate WellEscaped(r: string) {
    if |r| == 0 then true
    else if r[0] == '\\' then |r| >= 2 && WellEscaped(r[2..])
    else if r[0] == '\'' then false
    else WellEscaped(r[1..])
  }

  /** `escape_sql(s)`; `None` stands for Python's `None`. */
  function EscapeSql(s: Option<string>): (r: string)
    ensures s.None? ==> r == ""
    ensures s.Some? ==> |r| <= 2 * |s.value|
    ensures '\n' !in r && '\r' !in r && '\t' !in r
    ensures s.Some? ==> Unescape(r) == KeepPrintable(s.value)
    ensures WellEscaped(r)
  {
    match s
    case None => ""
    case Some(v) =>
      var printable := KeepPrintable(v);
      var spaced := Replace(Replace(Replace(printable, "\n", " "), "\r", " "), "\t", " ");
      var r := Replace(Replace(spaced, "\\", "\\\\"), "'", "\\'");
      SpaceStepIsDead(printable);
      EscapeIsEscapeAll(printable);
      EscapePrintable(printable);
      r
  }

  /** Escaping printable text: at most doubled, still on one line, well escaped, and reversible. */
  lemma EscapePrintable(p: string)
    requires forall i :: 0 <= i < |p| ==> IsPrintable(p[i]) || p[i] == ' '
    ensures |EscapeAll(p)| <= 2 * |p|
    ensures '\n' !in EscapeAll(p) && '\r' !in EscapeAll(p) && '\t' !in EscapeAll(p)
    ensures Unescape(EscapeAll(p)) == p
    ensures WellEscaped(EscapeAll(p))
  {
    EscapeAllFacts(p);
  }

  /** The `\n`/`\r`/`\t` replacement in `escape_sql` never fires: the printable filter already removed them. */
  lemma SpaceStepIsDead(p: string)
    requires forall i :: 0 <= i < |p| ==> IsPrintable(p[i]) || p[i] == ' '
    ensures Replace(Replace(Replace(p, "\n", " "), "\r", " "), "\t", " ") == p
  {
    NoCharNoReplace(p, '\n', " ");
    NoCharNoReplace(p, '\r', " ");
    NoCharNoReplace(p, '\t', " ");
  }

  lemma {:induction false} NoCharNoReplace(p: string, c: char, r: string)
    requires c !in p
    ensures Replace(p, [c], r) == p
    decreases |p|
  {
    if |p| > 0 {
      ReplaceCharCons(p[0], p[1..], c, r);
      NoCharNoReplace(p[1..], c, r);
      assert p == [p[0]] + p[1..];
    }
  }

  lemma {:induction false} ReplaceCharAppend(a: string, b: string, c: char, r: string)
    ensures Replace(a + b, [c], r) == Replace(a, [c], r) + Replace(b, [c], r)
    decreases |a|
  {
    if |a| == 0 {
      assert a + b == b;
    } else {
      assert a == [a[0]] + a[1..];
      assert a + b == [a[0]] + (a[1..] + b);
      ReplaceCharCons(a[0], a[1..] + b, c, r);
      ReplaceCharCons(a[0], a[1..], c, r);
      ReplaceCharAppend(a[1..], b, c, r);
    }
  }

  /** Doubling backslashes and then escaping quotes escapes each character independently. */
  lemma {:induction false} EscapeIsEscapeAll(q: string)
    ensures Replace(Replace(q, "\\", "\\\\"), "'", "\\'") == EscapeAll(q)
    decreases |q|
  {
    if |q| > 0 {
      ReplaceCharCons(q[0], q[1..], '\\', "\\\\");
      assert q == [q[0]] + q[1..];
      var head := if q[0] == '\\' then "\\\\" else [q[0]];
      ReplaceCharAppend(head, Replace(q[1..], "\\", "\\\\"), '\'', "\\'");
      if q[0] == '\\' {
        ReplaceCharCons('\\', "\\", '\'', "\\'");
        ReplaceCharCons('\\', "", '\'', "\\'");
      } else {
        ReplaceCharCons(q[0], "", '\'', "\\'");
      }
      EscapeIsEscapeAll(q[1..]);
    }
  }

  lemma {:induction false} EscapeAllFacts(q: string)
    ensures |EscapeAll(q)| <= 2 * |q|
    ensures forall c :: c in EscapeAll(q) ==> c in q || c == '\\' || c == '\''
    ensures Unescape(EscapeAll(q)) == q
    ensures WellEscaped(EscapeAll(q))
    decreases |q|
  {
    if |q| > 0 {
      EscapeAllFacts(q[1..]);
      var rest := EscapeAll(q[1..]);
      var e := EscapeChar(q[0]) + rest;
      assert EscapeAll(q) == e;
      if q[0] == '\\' || q[0] == '\'' {
        assert e[2..] == rest;
      } else {
        assert e[1..] == rest;
      }
      assert q == [q[0]] + q[1..];
    }
  }
}
