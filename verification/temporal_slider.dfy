/**
  The map's temporal slider: the years the current results fall in, the
  per-year histogram drawn above the slider, the window of years the map
  shows, and the play, reset and skip-to-end controls that move it.

  The interval timer and React state are replaced by pure transitions on a
  `Window`; one timer tick is one call of `Tick`. The current year (the
  fallback upper bound when no result has a usable date) is a parameter.
 */
module TemporalSlider {
  import opened Wrappers
  import opened JsValues
  import opened SearchTypes
  import opened Seqs

  /** The year of one occurrence as the slider reads it: none without a date or when the date does not parse. */
  function YearOfOccurrence(o: Occurrence, yearOf: YearOf): (y: Option<int>)
    ensures y.Some? <==> Filled(o.eventDate) && yearOf(o.eventDate.value).Some?
  {
    if Filled(o.eventDate) then yearOf(o.eventDate.value) else None
  }

  /**
    `yearData`: the year of every occurrence that has one, in the order of the
    results. The source sorts them as well; nothing below depends on the order.
   */
  function Years(os: seq<Occurrence>, yearOf: YearOf): (ys: seq<int>)
    ensures |ys| <= |os|
    ensures forall k | 0 <= k < |os| && YearOfOccurrence(os[k], yearOf).Some? ::
      YearOfOccurrence(os[k], yearOf).value in ys
    ensures |os| == 1 && YearOfOccurrence(os[0], yearOf).Some? ==> ys == [YearOfOccurrence(os[0], yearOf).value]
    ensures |os| == 1 && YearOfOccurrence(os[0], yearOf).None? ==> ys == []
    decreases |os|
  {
    if |os| == 0 then []
    else
      var rest := Years(os[1..], yearOf);
      assert forall k | 1 <= k < |os| :: os[k] == os[1..][k - 1];
      match YearOfOccurrence(os[0], yearOf)
      case Some(y) => [y] + rest
      case None => rest
  }

  /**
    The years of a concatenation are the years of each part, in order: with the
    one-record case above, `Years` holds exactly one entry per dated record and
    nothing else.
   */
  lemma {:induction false} YearsAppend(a: seq<Occurrence>, b: seq<Occurrence>, yearOf: YearOf)
    ensures Years(a + b, yearOf) == Years(a, yearOf) + Years(b, yearOf)
    decreases |a|
  {
    if |a| == 0 {
      assert a + b == b;
    } else {
      assert (a + b)[1..] == a[1..] + b;
      YearsAppend(a[1..], b, yearOf);
    }
  }

  /** `Math.min(...ys)`. */
  function Min(ys: seq<int>): (m: int)
    requires |ys| > 0
    ensures m in ys
    ensures forall k | 0 <= k < |ys| :: m <= ys[k]
    decreases |ys|
  {
    if |ys| == 1 then ys[0]
    else
      var m := Min(ys[1..]);
      assert forall k | 1 <= k < |ys| :: ys[k] == ys[1..][k - 1];
      if ys[0] <= m then ys[0] else m
  }

  /** `Math.max(...ys)`. */
  function Max(ys: seq<int>): (m: int)
    requires |ys| > 0
    ensures m in ys
    ensures forall k | 0 <= k < |ys| :: ys[k] <= m
    decreases |ys|
  {
    if |ys| == 1 then ys[0]
    else
      var m := Max(ys[1..]);
      assert forall k | 1 <= k < |ys| :: ys[k] == ys[1..][k - 1];
      if ys[0] >= m then ys[0] else m
  }

  /** `minYear`: the earliest data year, or 1900 when there is none. */
  function MinYear(ys: seq<int>): (m: int)
    ensures |ys| > 0 ==> m in ys && forall k | 0 <= k < |ys| :: m <= ys[k]
    ensures |ys| == 0 ==> m == 1900
  {
    if |ys| > 0 then Min(ys) else 1900
  }

  /** `maxYear`: the latest data year, or the current year when there is none. */
  function MaxYear(ys: seq<int>, currentYear: int): (m: int)
    ensures |ys| > 0 ==> m in ys && forall k | 0 <= k < |ys| :: ys[k] <= m
    ensures |ys| == 0 ==> m == currentYear
  {
    if |ys| > 0 then Max(ys) else currentYear
  }

  /** Every data year lies between `minYear` and `maxYear`. */
  lemma YearsWithinBounds(ys: seq<int>, currentYear: int)
    ensures forall k | 0 <= k < |ys| :: MinYear(ys) <= ys[k] <= MaxYear(ys, currentYear)
    ensures |ys| > 0 ==> MinYear(ys) <= MaxYear(ys, currentYear)
  {
  }

  /** How many of `ys` lie in `[lo, hi]`. */
  function CountBetween(ys: seq<int>, lo: int, hi: int): (n: nat)
    ensures n <= |ys|
    decreases |ys|
  {
    if |ys| == 0 then 0
    else (if lo <= ys[0] <= hi then 1 else 0) + CountBetween(ys[1..], lo, hi)
  }

  /** Widening `[lo, hi - 1]` by the year `hi` adds that year's multiplicity. */
  lemma {:induction false} CountBetweenExtend(ys: seq<int>, lo: int, hi: int)
    requires lo <= hi
    ensures CountBetween(ys, lo, hi) == CountBetween(ys, lo, hi - 1) + multiset(ys)[hi]
    decreases |ys|
  {
    if |ys| > 0 {
      assert ys == [ys[0]] + ys[1..];
      assert multiset(ys)[hi] == (if ys[0] == hi then 1 else 0) + multiset(ys[1..])[hi];
      CountBetweenExtend(ys[1..], lo, hi);
    }
  }

  /** When every year lies in `[lo, hi]`, all of them are counted. */
  lemma {:induction false} CountBetweenAll(ys: seq<int>, lo: int, hi: int)
    requires forall k | 0 <= k < |ys| :: lo <= ys[k] <= hi
    ensures CountBetween(ys, lo, hi) == |ys|
    decreases |ys|
  {
    if |ys| > 0 {
      assert forall k | 0 <= k < |ys| - 1 :: ys[1..][k] == ys[k + 1];
      CountBetweenAll(ys[1..], lo, hi);
    }
  }

  /** Every year of `[lo, hi]` is a key of `counts`. */
  ghost predicate Covers(counts: map<int, nat>, lo: int, hi: int) {
    forall y :: lo <= y <= hi ==> y in counts
  }

  /** The sum of the histogram bars for the years `lo` to `hi`. */
  function Total(counts: map<int, nat>, lo: int, hi: int): nat
    requires Covers(counts, lo, hi)
    decreases hi - lo
  {
    if hi < lo then 0 else Total(counts, lo, hi - 1) + counts[hi]
  }

  /** Bars holding the multiplicities of `ys` add up to the number of those years in range. */
  lemma {:induction false} TotalOfTallies(counts: map<int, nat>, ys: seq<int>, lo: int, hi: int)
    requires Covers(counts, lo, hi)
    requires forall y | y in counts :: counts[y] == multiset(ys)[y]
    ensures Total(counts, lo, hi) == CountBetween(ys, lo, hi)
    decreases hi - lo
  {
    if hi < lo {
      assert forall k | 0 <= k < |ys| :: !(lo <= ys[k] <= hi);
      CountBetweenNone(ys, lo, hi);
    } else {
      TotalOfTallies(counts, ys, lo, hi - 1);
      CountBetweenExtend(ys, lo, hi);
    }
  }

  /** An empty range counts nothing. */
  lemma {:induction false} CountBetweenNone(ys: seq<int>, lo: int, hi: int)
    requires hi < lo
    ensures CountBetween(ys, lo, hi) == 0
    decreases |ys|
  {
    if |ys| > 0 {
      CountBetweenNone(ys[1..], lo, hi);
    }
  }

  /**
    `occurrencesByYear`: a bar for every year from `minY` to `maxY`, starting at
    zero, then one more for each data year.
   */
  method OccurrencesByYear(ys: seq<int>, minY: int, maxY: int) returns (counts: map<int, nat>)
    ensures forall y :: y in counts <==> minY <= y <= maxY || y in ys
    ensures forall y | y in counts :: counts[y] == multiset(ys)[y]
    ensures (forall k | 0 <= k < |ys| :: minY <= ys[k] <= maxY) ==> Total(counts, minY, maxY) == |ys|
  {
    counts := map[];
    var year := minY;
    while year <= maxY
      invariant year == minY || year <= maxY + 1
      invariant forall y :: y in counts <==> minY <= y < year
      invariant forall y | y in counts :: counts[y] == 0
      decreases maxY - year
    {
      counts := counts[year := 0];
      year := year + 1;
    }
    var i := 0;
    while i < |ys|
      invariant 0 <= i <= |ys|
      invariant forall y :: y in counts <==> minY <= y <= maxY || y in ys[..i]
      invariant forall y | y in counts :: counts[y] == multiset(ys[..i])[y]
    {
      var y := ys[i];
      var c := if y in counts then counts[y] else 0;
      assert ys[..i + 1] == ys[..i] + [y];
      counts := counts[y := c + 1];
      i := i + 1;
    }
    assert ys[..i] == ys;
    if forall k | 0 <= k < |ys| :: minY <= ys[k] <= maxY {
      TotalOfTallies(counts, ys, minY, maxY);
      CountBetweenAll(ys, minY, maxY);
    }
  }

  /**
    The histogram's bars between `minYear` and `maxYear` account for every
    data year exactly once.
   */
  lemma HistogramCountsEveryYear(ys: seq<int>, currentYear: int, counts: map<int, nat>)
    requires forall y :: y in counts <==> MinYear(ys) <= y <= MaxYear(ys, currentYear) || y in ys
    requires forall y | y in counts :: counts[y] == multiset(ys)[y]
    ensures Covers(counts, MinYear(ys), MaxYear(ys, currentYear))
    ensures Total(counts, MinYear(ys), MaxYear(ys, currentYear)) == |ys|
  {
    var lo, hi := MinYear(ys), MaxYear(ys, currentYear);
    YearsWithinBounds(ys, currentYear);
    TotalOfTallies(counts, ys, lo, hi);
    CountBetweenAll(ys, lo, hi);
  }

  /** The "Showing" test: the occurrence has a date whose year lies in `[start, end]`. */
  predicate InWindow(o: Occurrence, yearOf: YearOf, start: int, end: int) {
    var y := YearOfOccurrence(o, yearOf);
    y.Some? && start <= y.value <= end
  }

  /** "Showing N of M occurrences": how many results the window selects. */
  function Showing(os: seq<Occurrence>, yearOf: YearOf, start: int, end: int): (n: nat)
    ensures n <= |os|
    ensures start > end ==> n == 0
  {
    var shown := Filter(os, o => InWindow(o, yearOf, start, end));
    assert |shown| > 0 ==> shown[0] in shown;
    |shown|
  }

  /** The "Showing" count is the number of data years inside the window. */
  lemma {:induction false} ShowingCountsYears(os: seq<Occurrence>, yearOf: YearOf, start: int, end: int)
    ensures Showing(os, yearOf, start, end) == CountBetween(Years(os, yearOf), start, end)
    decreases |os|
  {
    if |os| > 0 {
      ShowingCountsYears(os[1..], yearOf, start, end);
    }
  }

  /**
    Inside the data range, the "Showing" count is the sum of the per-year
    counts (`occurrencesByYear`) over the window's years.
   */
  lemma ShowingIsYearCountsInWindow(os: seq<Occurrence>, yearOf: YearOf, currentYear: int,
                                 counts: map<int, nat>, start: int, end: int)
    requires forall y | y in counts :: counts[y] == multiset(Years(os, yearOf))[y]
    requires forall y :: MinYear(Years(os, yearOf)) <= y <= MaxYear(Years(os, yearOf), currentYear) ==> y in counts
    requires MinYear(Years(os, yearOf)) <= start && end <= MaxYear(Years(os, yearOf), currentYear)
    ensures Covers(counts, start, end)
    ensures Showing(os, yearOf, start, end) == Total(counts, start, end)
  {
    ShowingCountsYears(os, yearOf, start, end);
    TotalOfTallies(counts, Years(os, yearOf), start, end);
  }

  /** The slider's window of years and whether the animation runs. */
  datatype Window = Window(start: int, end: int, playing: bool)

  /** The initial window: the whole data range, playing when `autoPlay` is set. */
  function Initial(ys: seq<int>, currentYear: int, autoPlay: bool): (w: Window)
    ensures w.start == MinYear(ys) && w.end == MaxYear(ys, currentYear) && w.playing == autoPlay
  {
    Window(MinYear(ys), MaxYear(ys, currentYear), autoPlay)
  }

  /**
    One autoplay tick. A paused slider does not move. A playing one slides
    both ends a year later, or, once its end has reached `maxY`, starts over
    with the five-year window that begins at `minY`.
   */
  function Tick(w: Window, minY: int, maxY: int): (r: Window)
    ensures r.playing == w.playing
    ensures !w.playing ==> r == w
    ensures w.playing && w.end < maxY ==> r.end - r.start == w.end - w.start && r.end == w.end + 1
    ensures w.playing && w.end >= maxY ==> r.start == minY && r.end == minY + 5
  {
    if !w.playing then w
    else if w.end >= maxY then w.(start := minY, end := minY + 5)
    else w.(start := w.start + 1, end := w.end + 1)
  }

  /** `n` ticks in a row. */
  function Ticks(w: Window, minY: int, maxY: int, n: nat): Window
    decreases n
  {
    if n == 0 then w else Ticks(Tick(w, minY, maxY), minY, maxY, n - 1)
  }

  /**
    A playing window whose end is not past `maxY` slides, keeping its width,
    until its end reaches `maxY`; the tick after that starts over at `minY`.
   */
  lemma {:induction false} PlaybackReachesEnd(w: Window, minY: int, maxY: int)
    requires w.playing && w.end <= maxY
    ensures Ticks(w, minY, maxY, maxY - w.end) == w.(start := w.start + (maxY - w.end), end := maxY)
    ensures Ticks(w, minY, maxY, maxY - w.end + 1) == w.(start := minY, end := minY + 5)
    decreases maxY - w.end
  {
    if w.end == maxY {
      assert Ticks(w, minY, maxY, 1) == Tick(w, minY, maxY);
    } else {
      var next := Tick(w, minY, maxY);
      PlaybackReachesEnd(next, minY, maxY);
      assert Ticks(w, minY, maxY, maxY - w.end) == Ticks(next, minY, maxY, maxY - next.end);
      assert Ticks(w, minY, maxY, maxY - w.end + 1) == Ticks(next, minY, maxY, maxY - next.end + 1);
    }
  }

  /** A paused window stays where it is however many ticks pass. */
  lemma {:induction false} PausedStaysPut(w: Window, minY: int, maxY: int, n: nat)
    requires !w.playing
    ensures Ticks(w, minY, maxY, n) == w
    decreases n
  {
    if n > 0 {
      PausedStaysPut(w, minY, maxY, n - 1);
    }
  }

  /** `handlePlayPause`: toggles the animation and leaves the window alone. */
  function PlayPause(w: Window): (r: Window)
    ensures r.playing != w.playing
    ensures r.start == w.start && r.end == w.end
  {
    w.(playing := !w.playing)
  }

  /** `handleReset`: stops the animation and shows the whole data range. */
  function Reset(w: Window, minY: int, maxY: int): (r: Window)
    ensures !r.playing && r.start == minY && r.end == maxY
  {
    Window(minY, maxY, false)
  }

  /** `handleSkipToEnd`: stops the animation and shows the last five years before `maxY`. */
  function SkipToEnd(w: Window, maxY: int): (r: Window)
    ensures !r.playing && r.end == maxY && r.end - r.start == 5
  {
    Window(maxY - 5, maxY, false)
  }

  /** After a reset the map shows every result that has a usable date. */
  lemma ResetShowsAllDated(os: seq<Occurrence>, yearOf: YearOf, currentYear: int, w: Window)
    ensures var ys := Years(os, yearOf);
      var r := Reset(w, MinYear(ys), MaxYear(ys, currentYear));
      Showing(os, yearOf, r.start, r.end) == |ys|
  {
    var ys := Years(os, yearOf);
    YearsWithinBounds(ys, currentYear);
    ShowingCountsYears(os, yearOf, MinYear(ys), MaxYear(ys, currentYear));
    CountBetweenAll(ys, MinYear(ys), MaxYear(ys, currentYear));
  }

  /** Playing from skip-to-end starts over at once: the first tick wraps to `minY`. */
  lemma PlayAfterSkipWraps(w: Window, minY: int, maxY: int)
    ensures Tick(PlayPause(SkipToEnd(w, maxY)), minY, maxY) == Window(minY, minY + 5, true)
  {
  }
}
