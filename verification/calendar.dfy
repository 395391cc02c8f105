/**
 `generate_monthly_chunks` from src/hkex_scraper/api.py: a date range is cut
 into calendar-month pieces, newest month first. Dates are modelled at day
 granularity; the time-of-day part of a `datetime` is not part of this model.
 */
module Calendar {

  // ---------------------------------------------------------------------------
  // Gregorian dates
  // ---------------------------------------------------------------------------

  datatype Date = Date(year: int, month: int, day: int)

  predicate IsLeap(y: int) {
    y % 4 == 0 && (y % 100 != 0 || y % 400 == 0)
  }

  /** `calendar.monthrange(y, m)[1]`: the number of days in the month. */
  function DaysInMonth(y: int, m: int): (n: int)
    ensures 28 <= n <= 31
    ensures m == 2 ==> (n == 29 <==> IsLeap(y))
  {
    if m == 2 then (if IsLeap(y) then 29 else 28)
    else if m == 4 || m == 6 || m == 9 || m == 11 then 30
    else 31
  }

  /** The dates a Python `datetime` can hold (years 1 to 9999). */
  predicate Valid(d: Date) {
    1 <= d.year <= 9999 && 1 <= d.month <= 12 && 1 <= d.day <= DaysInMonth(d.year, d.month)
  }

  /** Chronological order of dates. */
  predicate LessEq(a: Date, b: Date) {
    a.year < b.year || (a.year == b.year && (a.month < b.month || (a.month == b.month && a.day <= b.day)))
  }

  function Max(a: Date, b: Date): Date {
    if LessEq(a, b) then b else a
  }

  function Min(a: Date, b: Date): Date {
    if LessEq(a, b) then a else b
  }

  /** The day after `d`. */
  function NextDay(d: Date): (r: Date)
    requires Valid(d) && (d.year < 9999 || !(d.month == 12 && d.day == 31))
    ensures Valid(r)
    ensures LessEq(d, r) && r != d
  {
    if d.day < DaysInMonth(d.year, d.month) then Date(d.year, d.month, d.day + 1)
    else if d.month < 12 then Date(d.year, d.month + 1, 1)
    else Date(d.year + 1, 1, 1)
  }

  // ---------------------------------------------------------------------------
  // Months as a single counter
  // ---------------------------------------------------------------------------

  /** Months counted from year 0: consecutive months have consecutive indices. */
  function MonthIndex(y: int, m: int): int {
    y * 12 + m - 1
  }

  function IndexOf(d: Date): int {
    MonthIndex(d.year, d.month)
  }

  function YearOf(c: int): int {
    c / 12
  }

  function MonthOf(c: int): (m: int)
    ensures 1 <= m <= 12
  {
    c % 12 + 1
  }

  lemma MonthIndexRoundTrip(y: int, m: int)
    requires 1 <= m <= 12
    ensures YearOf(MonthIndex(y, m)) == y && MonthOf(MonthIndex(y, m)) == m
  {
    var c := MonthIndex(y, m);
    assert c == y * 12 + (m - 1) && 0 <= m - 1 < 12;
  }

  /** The 1st of month `c`. */
  function MonthStart(c: int): Date {
    Date(YearOf(c), MonthOf(c), 1)
  }

  /** The last day of month `c`. */
  function MonthEnd(c: int): Date {
    Date(YearOf(c), MonthOf(c), DaysInMonth(YearOf(c), MonthOf(c)))
  }

  lemma IndexOfMonth(c: int)
    ensures IndexOf(MonthStart(c)) == c && IndexOf(MonthEnd(c)) == c
  {
  }

  /** Dates in different months compare as their months do. */
  lemma OrderOfMonths(a: Date, b: Date)
    requires 1 <= a.month <= 12 && 1 <= b.month <= 12
    ensures IndexOf(a) < IndexOf(b) ==> LessEq(a, b) && a != b
    ensures LessEq(a, b) ==> IndexOf(a) <= IndexOf(b)
  {
  }

  /** The month after `c` starts the day after `c` ends. */
  lemma MonthsAdjoin(c: int)
    requires 12 <= c < 9999 * 12 + 11
    ensures NextDay(MonthEnd(c)) == MonthStart(c + 1)
  {
    var y, m := YearOf(c), MonthOf(c);
    assert c == y * 12 + (m - 1);
    if m < 12 {
      assert c + 1 == y * 12 + m;
      MonthIndexRoundTrip(y, m + 1);
    } else {
      assert c + 1 == (y + 1) * 12;
      MonthIndexRoundTrip(y + 1, 1);
    }
  }

  // ---------------------------------------------------------------------------
  // generate_monthly_chunks
  // ---------------------------------------------------------------------------

  datatype Chunk = Chunk(start: Date, end: Date)

  /** The piece of [from, to] that falls in month `c`. */
  function ChunkFor(c: int, from: Date, to: Date): Chunk {
    Chunk(Max(MonthStart(c), from), Min(MonthEnd(c), to))
  }

  /** The number of chunks: one per month from `from`'s month to `to`'s, none when `from`'s month is later. */
  function ChunkCount(from: Date, to: Date): (n: nat)
    ensures n == 0 <==> IndexOf(to) < IndexOf(from)
  {
    if IndexOf(to) < IndexOf(from) then 0 else IndexOf(to) - IndexOf(from) + 1
  }

  /**
   `generate_monthly_chunks(date_from, date_to)`. The cursor walks from the
   first of `to`'s month back to `from`'s month. When `from` lies in January of
   year 1 the cursor would step to year 0, which `datetime` rejects: the call
   raises and returns nothing, modelled as `ok == false` with no chunks.
   */
  method GenerateMonthlyChunks(from: Date, to: Date) returns (chunks: seq<Chunk>, ok: bool)
    requires Valid(from) && Valid(to)
    ensures ok <==> !(from.year == 1 && from.month == 1 && ChunkCount(from, to) > 0)
    ensures !ok ==> chunks == []
    ensures ok ==> |chunks| == ChunkCount(from, to)
    ensures ok ==> MonthByMonth(chunks, from, to)
  {
    chunks := [];
    var chunkOf := ChunkOf(from, to);
    var c := IndexOf(to);
    while c >= IndexOf(from)
      invariant c == IndexOf(to) - |chunks| && c >= MonthIndex(1, 1)
      invariant |chunks| <= ChunkCount(from, to)
      invariant |chunks| > 0 ==> c >= IndexOf(from) - 1
      invariant chunks == Backwards(chunkOf, IndexOf(to), |chunks|)
      decreases c - IndexOf(from)
    {
      BackwardsStep(chunkOf, IndexOf(to), chunks, chunkOf(c));
      chunks := chunks + [chunkOf(c)];
      if c == MonthIndex(1, 1) {
        // The month before January of year 1 is `datetime(0, 12, 1)`, which raises ValueError.
        return [], false;
      }
      c := c - 1;
    }
    ok := true;
    BackwardsMonthByMonth(from, to, |chunks|);
  }

  /** The chunk of each month, as a value, so that the month arithmetic stays folded. */
  function ChunkOf(from: Date, to: Date): int -> Chunk {
    c => ChunkFor(c, from, to)
  }

  /** `f` of the `n` months counting back from month `top`, built one month at a time. */
  ghost function Backwards(f: int -> Chunk, top: int, n: nat): seq<Chunk>
    decreases n
  {
    if n == 0 then [] else Backwards(f, top, n - 1) + [f(top - (n - 1))]
  }

  /** Appending the next older month's chunk extends the count-back by one. */
  lemma BackwardsStep(f: int -> Chunk, top: int, s: seq<Chunk>, x: Chunk)
    requires s == Backwards(f, top, |s|) && x == f(top - |s|)
    ensures s + [x] == Backwards(f, top, |s + [x]|)
  {
    assert Backwards(f, top, |s| + 1) == Backwards(f, top, |s|) + [f(top - |s|)];
  }

  lemma {:induction false} BackwardsIndex(f: int -> Chunk, top: int, n: nat)
    ensures |Backwards(f, top, n)| == n
    ensures forall i :: 0 <= i < n ==> Backwards(f, top, n)[i] == f(top - i)
    decreases n
  {
    if n > 0 {
      BackwardsIndex(f, top, n - 1);
    }
  }

  lemma BackwardsMonthByMonth(from: Date, to: Date, n: nat)
    ensures MonthByMonth(Backwards(ChunkOf(from, to), IndexOf(to), n), from, to)
  {
    var bs := Backwards(ChunkOf(from, to), IndexOf(to), n);
    BackwardsIndex(ChunkOf(from, to), IndexOf(to), n);
    forall i | 0 <= i < |bs|
      ensures bs[i] == ChunkFor(IndexOf(to) - i, from, to)
    {
      assert bs[i] == ChunkOf(from, to)(IndexOf(to) - i);
    }
  }

  /**
   Chunk `i` lies inside [from, to] and within month `i` counted back from
   `to`'s month, and it is non-empty when from <= to.
   */
  ghost predicate InRange(chunks: seq<Chunk>, from: Date, to: Date) {
    && (forall i :: 0 <= i < |chunks| ==> LessEq(from, chunks[i].start) && LessEq(chunks[i].end, to))
    && (forall i :: 0 <= i < |chunks| ==> IndexOf(chunks[i].start) == IndexOf(chunks[i].end) == IndexOf(to) - i)
    && (LessEq(from, to) ==> forall i :: 0 <= i < |chunks| ==> LessEq(chunks[i].start, chunks[i].end))
  }

  /** Chunk `i` is the piece of [from, to] in the `i`-th month counted back from `to`'s month. */
  ghost predicate MonthByMonth(chunks: seq<Chunk>, from: Date, to: Date) {
    forall i :: 0 <= i < |chunks| ==> chunks[i] == ChunkFor(IndexOf(to) - i, from, to)
  }

  /** What every chunk sequence of the form produced by `GenerateMonthlyChunks` satisfies. */
  lemma ChunkFacts(chunks: seq<Chunk>, from: Date, to: Date)
    requires Valid(from) && Valid(to)
    requires |chunks| <= ChunkCount(from, to)
    requires MonthByMonth(chunks, from, to)
    ensures InRange(chunks, from, to)
  {
    forall i | 0 <= i < |chunks|
      ensures LessEq(from, chunks[i].start) && LessEq(chunks[i].end, to)
      ensures IndexOf(chunks[i].start) == IndexOf(chunks[i].end) == IndexOf(to) - i
      ensures LessEq(from, to) ==> LessEq(chunks[i].start, chunks[i].end)
    {
      ChunkInMonth(IndexOf(to) - i, from, to);
    }
  }

  /** A chunk for a month between `from`'s and `to`'s lies in that month and inside [from, to], and is non-empty when from <= to. */
  lemma ChunkInMonth(c: int, from: Date, to: Date)
    requires Valid(from) && Valid(to)
    requires IndexOf(from) <= c <= IndexOf(to)
    ensures LessEq(from, ChunkFor(c, from, to).start) && LessEq(ChunkFor(c, from, to).end, to)
    ensures IndexOf(ChunkFor(c, from, to).start) == c && IndexOf(ChunkFor(c, from, to).end) == c
    ensures LessEq(from, to) ==> LessEq(ChunkFor(c, from, to).start, ChunkFor(c, from, to).end)
  {
    var ch := ChunkFor(c, from, to);
    IndexOfMonth(c);
    if c == IndexOf(from) {
      MonthIndexRoundTrip(from.year, from.month);
    }
    if c == IndexOf(to) {
      MonthIndexRoundTrip(to.year, to.month);
    }
  }

  /** Adjacent chunks leave no gap: each later chunk ends the day before the previous one starts. */
  lemma ChunksContiguous(from: Date, to: Date, i: int)
    requires Valid(from) && Valid(to)
    requires 0 <= i && i + 1 < ChunkCount(from, to)
    ensures NextDay(ChunkFor(IndexOf(to) - i - 1, from, to).end) == ChunkFor(IndexOf(to) - i, from, to).start
  {
    var c := IndexOf(to) - i;
    InnerMonthEnd(c - 1, to);
    InnerMonthStart(c, from);
    MonthsAdjoin(c - 1);
  }

  /** Before `to`'s month, a chunk runs to the end of its month. */
  lemma InnerMonthEnd(c: int, to: Date)
    requires Valid(to) && c < IndexOf(to)
    ensures Min(MonthEnd(c), to) == MonthEnd(c)
  {
    IndexOfMonth(c);
    OrderOfMonths(MonthEnd(c), to);
  }

  /** After `from`'s month, a chunk starts on the 1st of its month. */
  lemma InnerMonthStart(c: int, from: Date)
    requires Valid(from) && IndexOf(from) < c
    ensures Max(MonthStart(c), from) == MonthStart(c)
  {
    IndexOfMonth(c);
    OrderOfMonths(from, MonthStart(c));
  }

  /** Every day of [from, to] lies in the chunk of its own month. */
  lemma ChunksCover(from: Date, to: Date, d: Date)
    requires Valid(from) && Valid(to) && Valid(d)
    requires LessEq(from, d) && LessEq(d, to)
    ensures 0 <= IndexOf(to) - IndexOf(d) < ChunkCount(from, to)
    ensures LessEq(ChunkFor(IndexOf(d), from, to).start, d) && LessEq(d, ChunkFor(IndexOf(d), from, to).end)
  {
    OrderOfMonths(from, d);
    OrderOfMonths(d, to);
    MonthIndexRoundTrip(d.year, d.month);
  }
}
