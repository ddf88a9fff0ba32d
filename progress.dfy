/**
 * The calculations of the reading-time engine, as values: the words still to
 * read below a read line, the read line's place within the sliding window,
 * the gate and blend of the reading-speed estimator, the seconds left and the
 * position of the indicator in the viewport.
 */
module Progress {
  import opened Numeric
  import opened TextScan
  import opened Page

  /* ---------------- remaining words ---------------- */

  /** The read line is inside the unit (borders included). */
  predicate Straddles(u: TextUnit, y: real) {
    u.top <= y <= u.bottom
  }

  /** The read line has not yet gone past the unit's bottom. */
  predicate NotPassed(u: TextUnit, y: real) {
    y <= u.bottom
  }

  lemma {:induction false} ScaledFractionBounds(w: real, p: real)
    requires w >= 0.0 && 0.0 <= p <= 1.0
    ensures 0.0 <= w * p <= w
  {
    assert w * p <= w * 1.0;
  }

  /**
   * The words of a straddled unit still to read: the unit's words scaled by
   * the part of its height below the read line, rounded; never negative and
   * never more than the unit holds.
   */
  function PartialCredit(u: TextUnit, y: real): (c: int)
    requires u.top < u.bottom && Straddles(u, y)
    ensures 0 <= c <= u.words
    ensures y == u.top ==> c == u.words
    ensures y == u.bottom ==> c == 0
  {
    var percentReadOfNode := (((y - u.top) * 100.0) / (u.bottom - u.top)) / 100.0;
    PercentQuotient(y - u.top, u.bottom - u.top);
    QuotientSigns(y - u.top, u.bottom - u.top);
    ScaledFractionBounds(u.words as real, percentReadOfNode);
    Round(u.words as real - u.words as real * percentReadOfNode)
  }

  /** A read line half-way down a unit leaves half of its words, rounded half up. */
  lemma {:induction false} MidpointCredit(u: TextUnit)
    requires u.top < u.bottom
    ensures PartialCredit(u, (u.top + u.bottom) / 2.0) == Round(u.words as real / 2.0)
  {
    var y := (u.top + u.bottom) / 2.0;
    PercentQuotient(y - u.top, u.bottom - u.top);
    assert (y - u.top) / (u.bottom - u.top) == 0.5;
  }

  /**
   * The credit rounds the unread words, not the words read: a one-word unit
   * with the read line half-way down keeps its word, where `1 - round(1 * 0.5)`
   * would leave none.
   */
  lemma PartialCreditRoundsUnread()
    ensures var u := TextUnit(0.0, 2.0, 1);
      PartialCredit(u, 1.0) == 1 && 1 - Round(1.0 * 0.5) == 0
  {
    PercentQuotient(1.0, 2.0);
  }

  /** The sum of the words of the units the read line has not passed. */
  function UnpassedWords(units: seq<TextUnit>, y: real): nat {
    if units == [] then 0
    else
      var last := units[|units| - 1];
      UnpassedWords(units[..|units| - 1], y) + (if NotPassed(last, y) then last.words else 0)
  }

  /** The index of the first unit, in list order, that the read line is inside. */
  function FirstStraddled(units: seq<TextUnit>, y: real): (r: Option<nat>)
    ensures r.Some? ==> r.value < |units| && Straddles(units[r.value], y)
    ensures r.Some? ==> forall j :: 0 <= j < r.value ==> !Straddles(units[j], y)
    ensures r.None? ==> forall j :: 0 <= j < |units| ==> !Straddles(units[j], y)
  {
    if units == [] then None
    else
      var n := |units| - 1;
      var first := FirstStraddled(units[..n], y);
      if first.Some? then first
      else if Straddles(units[n], y) then Some(n)
      else None
  }

  /**
   * The one division the pass makes is defined: the unit that gets partial
   * credit, if there is one, has a positive height. Any other unit may have
   * none (text that is not laid out measures `top == bottom`).
   */
  predicate CreditDefined(units: seq<TextUnit>, y: real) {
    var f := FirstStraddled(units, y);
    f.Some? ==> units[f.value].top < units[f.value].bottom
  }

  /** A list whose every unit has a positive height has its credit defined for every read line. */
  lemma {:induction false} WellMeasuredCreditDefined(units: seq<TextUnit>, y: real)
    requires WellMeasured(units)
    ensures CreditDefined(units, y)
  {
  }

  /**
   * When the geometry gives every contributing leaf of a tree a positive
   * height, the scan's units have their credit defined for every read line.
   */
  lemma {:induction false} MeasurableTreeCreditDefined(root: DomNode, y: real)
    requires LeavesMeasurable(root)
    ensures CreditDefined(Measure(Leaves(root)), y)
  {
    TreeWellMeasured(root);
    WellMeasuredCreditDefined(Measure(Leaves(root)), y);
  }

  /** The first straddled unit of a prefix is the first straddled unit of the whole list. */
  lemma {:induction false} FirstStraddledOfPrefix(units: seq<TextUnit>, y: real, i: nat)
    requires i <= |units|
    ensures FirstStraddled(units[..i], y).Some? ==> FirstStraddled(units, y) == FirstStraddled(units[..i], y)
  {
    var p := units[..i];
    var fp := FirstStraddled(p, y);
    if fp.Some? {
      var j := fp.value;
      assert p[j] == units[j];
      assert forall k :: 0 <= k < j ==> p[k] == units[k];
      assert Straddles(units[j], y);
      var f := FirstStraddled(units, y);
      assert f.Some?;
    }
  }

  /** The words already read of the first straddled unit, if there is one. */
  function WordsRead(units: seq<TextUnit>, y: real): int
    requires CreditDefined(units, y)
  {
    match FirstStraddled(units, y)
    case None => 0
    case Some(i) => units[i].words - PartialCredit(units[i], y)
  }

  /**
   * The specification of `_calculateRemainingWords`: every unit not yet
   * passed counts in full, except that the first unit the read line is inside
   * counts only its rounded unread part.
   */
  function RemainingWords(units: seq<TextUnit>, y: real): int
    requires CreditDefined(units, y)
  {
    UnpassedWords(units, y) - WordsRead(units, y)
  }

  lemma {:induction false} UnpassedAtMostTotal(units: seq<TextUnit>, y: real)
    ensures UnpassedWords(units, y) <= TotalWords(units)
  {
    if units != [] {
      UnpassedAtMostTotal(units[..|units| - 1], y);
    }
  }

  lemma {:induction false} UnpassedCountsUnit(units: seq<TextUnit>, y: real, i: nat)
    requires i < |units| && NotPassed(units[i], y)
    ensures units[i].words <= UnpassedWords(units, y)
  {
    var n := |units| - 1;
    if i < n {
      UnpassedCountsUnit(units[..n], y, i);
    }
  }

  lemma {:induction false} UnpassedAllAhead(units: seq<TextUnit>, y: real)
    requires forall i :: 0 <= i < |units| ==> y <= units[i].top <= units[i].bottom
    ensures UnpassedWords(units, y) == TotalWords(units)
  {
    if units != [] {
      var n := |units| - 1;
      assert forall i :: 0 <= i < n ==> units[..n][i] == units[i];
      UnpassedAllAhead(units[..n], y);
    }
  }

  /** For non-negative word counts, the remaining words lie between 0 and the total. */
  lemma {:induction false} RemainingWithinTotal(units: seq<TextUnit>, y: real)
    requires CreditDefined(units, y)
    ensures 0 <= RemainingWords(units, y) <= TotalWords(units)
  {
    UnpassedAtMostTotal(units, y);
    match FirstStraddled(units, y)
    case None =>
    case Some(i) =>
      UnpassedCountsUnit(units, y, i);
  }

  /**
   * With the read line at or above every unit's top, nothing has been read:
   * the remaining words are all the words.
   */
  lemma {:induction false} RemainingWhenAllAhead(units: seq<TextUnit>, y: real)
    requires CreditDefined(units, y)
    requires forall i :: 0 <= i < |units| ==> y <= units[i].top <= units[i].bottom
    ensures RemainingWords(units, y) == TotalWords(units)
  {
    UnpassedAllAhead(units, y);
  }

  /**
   * The remaining words grow unit by unit, in list order: a passed unit adds
   * nothing, the first straddled unit adds its rounded unread part, and every
   * other unit not passed adds all its words.
   */
  lemma {:induction false} RemainingWordsSnoc(units: seq<TextUnit>, y: real)
    requires CreditDefined(units, y) && units != []
    ensures CreditDefined(units[..|units| - 1], y)
    ensures var n := |units| - 1; var u := units[n];
      RemainingWords(units, y) == RemainingWords(units[..n], y)
        + (if !NotPassed(u, y) then 0
           else if Straddles(u, y) && FirstStraddled(units[..n], y).None? then PartialCredit(u, y)
           else u.words)
  {
    var n := |units| - 1;
    FirstStraddledOfPrefix(units, y, n);
    assert forall i :: 0 <= i < n ==> units[..n][i] == units[i];
  }

  /** `RemainingWordsSnoc` for the prefixes of a list, as a left-to-right pass sees them. */
  lemma {:induction false} RemainingWordsPrefixStep(units: seq<TextUnit>, y: real, i: nat)
    requires CreditDefined(units, y) && i < |units|
    ensures CreditDefined(units[..i], y) && CreditDefined(units[..i + 1], y)
    ensures FirstStraddled(units[..i + 1], y).Some?
            == (FirstStraddled(units[..i], y).Some? || Straddles(units[i], y))
    ensures FirstStraddled(units[..i], y).None? && Straddles(units[i], y) ==> units[i].top < units[i].bottom
    ensures RemainingWords(units[..i + 1], y) == RemainingWords(units[..i], y)
        + (if !NotPassed(units[i], y) then 0
           else if Straddles(units[i], y) && FirstStraddled(units[..i], y).None? then PartialCredit(units[i], y)
           else units[i].words)
  {
    var e := units[..i + 1];
    assert e[..i] == units[..i];
    assert e[i] == units[i];
    FirstStraddledOfPrefix(units, y, i + 1);
    RemainingWordsSnoc(e, y);
  }

  /**
   * The units the read line has not passed, in order: every unit kept is not
   * passed, and every unit not passed is kept, as often as it occurs.
   */
  function DropPassed(units: seq<TextUnit>, y: real): (r: seq<TextUnit>)
    ensures forall i :: 0 <= i < |r| ==> NotPassed(r[i], y)
  {
    if units == [] then []
    else
      var last := units[|units| - 1];
      DropPassed(units[..|units| - 1], y) + (if NotPassed(last, y) then [last] else [])
  }

  /** Every unit not passed is kept, as often as it occurs, and no passed unit is. */
  lemma {:induction false} DropPassedCounts(units: seq<TextUnit>, y: real)
    ensures forall u :: multiset(DropPassed(units, y))[u] == if NotPassed(u, y) then multiset(units)[u] else 0
  {
    if units != [] {
      var n := |units| - 1;
      DropPassedCounts(units[..n], y);
      assert units == units[..n] + [units[n]];
    }
  }

  /** Dropping works piece by piece, so the units kept stay in their original order. */
  lemma {:induction false} DropPassedAppend(a: seq<TextUnit>, b: seq<TextUnit>, y: real)
    ensures DropPassed(a + b, y) == DropPassed(a, y) + DropPassed(b, y)
    decreases |b|
  {
    if b != [] {
      var b', last := b[..|b| - 1], b[|b| - 1];
      var tail := if NotPassed(last, y) then [last] else [];
      assert (a + b)[..|a + b| - 1] == a + b';
      assert DropPassed(a + b, y) == DropPassed(a + b', y) + tail;
      DropPassedAppend(a, b', y);
      assert DropPassed(b, y) == DropPassed(b', y) + tail;
    } else {
      assert a + b == a;
    }
  }

  /** The first straddled unit itself, rather than its index. */
  function StraddledUnit(units: seq<TextUnit>, y: real): Option<TextUnit> {
    match FirstStraddled(units, y)
    case None => None
    case Some(i) => Some(units[i])
  }

  lemma {:induction false} DropPassedKeepsUnpassed(units: seq<TextUnit>, y: real)
    ensures UnpassedWords(DropPassed(units, y), y) == UnpassedWords(units, y)
  {
    if units != [] {
      var n := |units| - 1;
      var d := DropPassed(units[..n], y);
      DropPassedKeepsUnpassed(units[..n], y);
      if NotPassed(units[n], y) {
        var e := d + [units[n]];
        assert DropPassed(units, y) == e;
        assert e[..|e| - 1] == d;
        assert UnpassedWords(e, y) == UnpassedWords(d, y) + units[n].words;
      } else {
        assert DropPassed(units, y) == d;
      }
    }
  }

  lemma {:induction false} DropPassedKeepsStraddled(units: seq<TextUnit>, y: real)
    ensures StraddledUnit(DropPassed(units, y), y) == StraddledUnit(units, y)
  {
    if units != [] {
      var n := |units| - 1;
      var d := DropPassed(units[..n], y);
      DropPassedKeepsStraddled(units[..n], y);
      if NotPassed(units[n], y) {
        var e := d + [units[n]];
        assert DropPassed(units, y) == e;
        assert e[..|e| - 1] == d;
        assert e[|e| - 1] == units[n];
        assert FirstStraddled(e, y).Some? == (FirstStraddled(d, y).Some? || Straddles(units[n], y));
      } else {
        assert DropPassed(units, y) == d;
      }
    }
  }

  /**
   * A unit whose bottom is above the read line contributes nothing: leaving
   * all such units out does not change the remaining words.
   */
  lemma {:induction false} PassedUnitsContributeNothing(units: seq<TextUnit>, y: real)
    requires CreditDefined(units, y)
    ensures CreditDefined(DropPassed(units, y), y)
    ensures RemainingWords(DropPassed(units, y), y) == RemainingWords(units, y)
  {
    DropPassedKeepsUnpassed(units, y);
    DropPassedKeepsStraddled(units, y);
    var d := DropPassed(units, y);
    assert StraddledUnit(d, y) == StraddledUnit(units, y);
    assert CreditDefined(d, y);
    assert WordsRead(d, y) == WordsRead(units, y);
  }

  /**
   * Three stacked units of 50, 30 and 20 words, 100 pixels each, with the read
   * line half-way down the second: the first is passed, half of the second
   * and all of the third remain.
   */
  lemma ExampleThreeUnits()
    ensures var units := [TextUnit(0.0, 100.0, 50), TextUnit(100.0, 200.0, 30), TextUnit(200.0, 300.0, 20)];
      CreditDefined(units, 150.0) && RemainingWords(units, 150.0) == 35
  {
    var units := [TextUnit(0.0, 100.0, 50), TextUnit(100.0, 200.0, 30), TextUnit(200.0, 300.0, 20)];
    assert units[..2][..1] == [units[0]];
    assert units[..2] == [units[0], units[1]];
    assert units[..2][..1][..0] == [];
    assert UnpassedWords(units[..2][..1], 150.0) == 0;
    assert UnpassedWords(units[..2], 150.0) == 30;
    assert UnpassedWords(units, 150.0) == 50;
    assert FirstStraddled(units[..2][..1], 150.0) == None;
    assert FirstStraddled(units[..2], 150.0) == Some(1);
    assert FirstStraddled(units, 150.0) == Some(1);
    assert PartialCredit(units[1], 150.0) == 15 by {
      PercentQuotient(50.0, 100.0);
      assert Round(30.0 - 30.0 * 0.5) == 15;
    }
  }

  /* ---------------- the read line ---------------- */

  /** The scroll position at which the read line starts its sweep. */
  function WindowStart(p: PageData): real {
    Max(0.0, p.yTopStart)
  }

  /** The scroll position at which the read line ends its sweep. */
  function WindowStop(p: PageData): real {
    p.yVizStop - p.windowHeight
  }

  /**
   * The part of the sliding window scrolled through, clamped to `[0, 1]`.
   * The source divides by `maxY - minY` unguarded, so the window must not be
   * empty; a window whose stop lies above its start (content shorter than the
   * viewport) gives a finite, clamped value like any other.
   */
  function ReadLinePercentage(scroll: real, minY: real, maxY: real): (p: real)
    requires maxY != minY
    ensures 0.0 <= p <= 1.0
    ensures minY < maxY ==> (scroll <= minY ==> p == 0.0) && (scroll >= maxY ==> p == 1.0)
    ensures minY <= scroll <= maxY ==> p == (scroll - minY) / (maxY - minY)
    ensures maxY < minY ==> (scroll >= minY ==> p == 0.0) && (scroll <= maxY ==> p == 1.0)
  {
    var raw := (((scroll - minY) * 100.0) / (maxY - minY)) / 100.0;
    PercentQuotient(scroll - minY, maxY - minY);
    QuotientSigns(scroll - minY, maxY - minY);
    Clamp(0.0, 1.0, raw)
  }

  /** Scrolling further down a proper window never moves the read line back. */
  lemma {:induction false} ReadLinePercentageMonotone(s1: real, s2: real, minY: real, maxY: real)
    requires minY < maxY && s1 <= s2
    ensures ReadLinePercentage(s1, minY, maxY) <= ReadLinePercentage(s2, minY, maxY)
  {
    ScalingMonotone(s1 - minY, s2 - minY, maxY - minY, 1.0);
  }

  /** The read line, interpolated between the top and the bottom of the content. */
  function ReadLineY(percentage: real, start: real, stop: real): (y: real)
    requires 0.0 <= percentage <= 1.0
    ensures start <= stop ==> start <= y <= stop
    ensures percentage == 0.0 ==> y == start
    ensures percentage == 1.0 ==> y == stop
  {
    ScaledFractionBoundsSigned(stop - start, percentage);
    start + percentage * (stop - start)
  }

  lemma {:induction false} ScaledFractionBoundsSigned(w: real, p: real)
    requires 0.0 <= p <= 1.0
    ensures w >= 0.0 ==> 0.0 <= p * w <= w
  {
    if w >= 0.0 {
      ScaledFractionBounds(w, p);
    }
  }

  /** The read line for a scroll position, on the page `p`. */
  function ReadLineAt(p: PageData, scroll: real): (y: real)
    requires WindowStop(p) != WindowStart(p)
    ensures p.readLineStart <= p.readLineStop ==> p.readLineStart <= y <= p.readLineStop
  {
    ReadLineY(ReadLinePercentage(scroll, WindowStart(p), WindowStop(p)), p.readLineStart, p.readLineStop)
  }

  /** The indicator is shown exactly while the scroll position is inside the window. */
  predicate ShowsFlag(scroll: real, minY: real, maxY: real) {
    !(scroll < minY) && !(scroll > maxY)
  }

  /* ---------------- the reading-speed estimator ---------------- */

  /** Milliseconds between two ticks of the estimator. */
  const ReadTimeCalcIntervalMs: int := 5000
  /** Samples below this many words per minute are implausible. */
  const MinWordsPerMin: int := 20
  /** Samples above this many words per minute are implausible. */
  const MaxWordsPerMin: int := 1200
  /** A longer scroll between two ticks is navigation, not reading. */
  const MaxScrollDistance: real := 1800.0

  /**
   * The words-per-minute rate of reading `words` words in one interval: in
   * `ReadTimeCalcIntervalMs` milliseconds at `sample` words a minute, the
   * reader reads exactly `words` words.
   */
  function SpeedSample(words: int): (sample: int)
    ensures sample * ReadTimeCalcIntervalMs == 60000 * words
  {
    (60 / (ReadTimeCalcIntervalMs / 1000)) * words
  }

  /**
   * The tick's gate: there were words left at the last tick and the reader
   * scrolled forwards, by at most the maximum distance.
   */
  predicate ReadingForwards(lastRemainingWords: Option<int>, scrollDist: real) {
    lastRemainingWords.Some? && lastRemainingWords.value > 0
    && scrollDist > 0.0 && scrollDist <= MaxScrollDistance
  }

  predicate PlausibleSample(sample: int) {
    MinWordsPerMin <= sample <= MaxWordsPerMin
  }

  /** `Math.floor((old + sample) / 2)`: the running blend of speed and sample. */
  function BlendSpeed(speed: real, sample: int): (r: int)
    ensures r as real <= (speed + sample as real) / 2.0 < r as real + 1.0
  {
    Floor((speed + sample as real) / 2.0)
  }

  /**
   * The speed after a tick that found `remainingWords` left and a scroll of
   * `scrollDist` since the previous one, or `None` when the tick leaves the
   * speed as it was.
   */
  function NextSpeed(speed: real, lastRemainingWords: Option<int>, remainingWords: int,
                     scrollDist: real): (r: Option<int>)
    ensures r.Some? ==> ReadingForwards(lastRemainingWords, scrollDist)
    ensures r.Some? ==> PlausibleSample(SpeedSample(lastRemainingWords.value - remainingWords))
  {
    if ReadingForwards(lastRemainingWords, scrollDist) then
      var sample := SpeedSample(lastRemainingWords.value - remainingWords);
      if PlausibleSample(sample) then Some(BlendSpeed(speed, sample)) else None
    else None
  }

  /**
   * The speed changes only on a forward, plausible tick: the very first tick
   * (no previous count), a tick after nothing was left, a backward, still or
   * too long scroll, and an implausible sample all leave it unchanged.
   */
  lemma {:induction false} SpeedChangesOnlyWhenGated(speed: real, last: Option<int>, remaining: int, dist: real)
    ensures last.None? ==> NextSpeed(speed, last, remaining, dist).None?
    ensures last.Some? && last.value <= 0 ==> NextSpeed(speed, last, remaining, dist).None?
    ensures dist <= 0.0 || dist > 1800.0 ==> NextSpeed(speed, last, remaining, dist).None?
    ensures last.Some? && !(20 <= 12 * (last.value - remaining) <= 1200)
            ==> NextSpeed(speed, last, remaining, dist).None?
    ensures last.Some? && last.value > 0 && 0.0 < dist <= 1800.0 && 20 <= 12 * (last.value - remaining) <= 1200
            ==> NextSpeed(speed, last, remaining, dist) == Some(BlendSpeed(speed, 12 * (last.value - remaining)))
  {
  }

  /**
   * A blend lies between the old speed and the sample (rounded down), so a
   * plausible speed stays plausible and a positive speed stays positive.
   */
  lemma {:induction false} BlendStaysInRange(speed: real, sample: int)
    requires PlausibleSample(sample)
    ensures BlendSpeed(speed, sample) as real <= Max(speed, sample as real)
    ensures Min(speed, sample as real) - 1.0 < BlendSpeed(speed, sample) as real
    ensures speed > 0.0 ==> BlendSpeed(speed, sample) >= MinWordsPerMin / 2
    ensures MinWordsPerMin as real <= speed <= MaxWordsPerMin as real
            ==> MinWordsPerMin <= BlendSpeed(speed, sample) <= MaxWordsPerMin
  {
    var r := BlendSpeed(speed, sample);
    var m := (speed + sample as real) / 2.0;
    assert r as real <= m < r as real + 1.0;
    if MinWordsPerMin as real <= speed <= MaxWordsPerMin as real {
      assert 20.0 <= m <= 1200.0;
      assert (20.0).Floor == 20;
    }
  }

  /* ---------------- seconds left ---------------- */

  /** `Math.floor(words / (wpm / 60))`: the whole seconds needed to read `words`. */
  function SecondsLeft(words: int, wordsPerMin: real): (s: int)
    requires wordsPerMin > 0.0
    ensures words >= 0 ==> s >= 0
    ensures s as real <= words as real * 60.0 / wordsPerMin < s as real + 1.0
  {
    assert words as real / (wordsPerMin / 60.0) == words as real * 60.0 / wordsPerMin;
    Floor(words as real / (wordsPerMin / 60.0))
  }

  /** More words never take less time, and a faster reader never needs more. */
  lemma {:induction false} SecondsLeftMonotone(w1: int, w2: int, v1: real, v2: real)
    requires 0 <= w1 <= w2 && 0.0 < v2 <= v1
    ensures SecondsLeft(w1, v1) <= SecondsLeft(w2, v2)
  {
    var a, b := w1 as real * 60.0, w2 as real * 60.0;
    QuotientAntitone(a, v1, v2);
    ScalingMonotone(a, b, v2, 1.0);
  }

  /* ---------------- the indicator's position ---------------- */

  /**
   * The indicator's unclamped top: proportional to how far the page is
   * scrolled, centred on that point. The source divides by
   * `documentHeight - windowHeight` unguarded, so the two must differ.
   */
  function CentredFlagTop(scroll: real, windowHeight: real, documentHeight: real, flagHeight: real): (c: real)
    requires documentHeight != windowHeight
    ensures c == scroll / (documentHeight - windowHeight) * windowHeight - flagHeight / 2.0
    // at the top of the page the indicator is centred on the viewport's top edge,
    // fully scrolled it is centred on the bottom edge
    ensures scroll == 0.0 ==> c == -flagHeight / 2.0
    ensures scroll == documentHeight - windowHeight ==> c == windowHeight - flagHeight / 2.0
  {
    var maxYPos := documentHeight - windowHeight;
    var scrollPerc := (((scroll - 0.0) * 100.0) / maxYPos) / 100.0;
    PercentQuotient(scroll - 0.0, maxYPos);
    (scrollPerc * windowHeight) - (flagHeight / 2.0)
  }

  /**
   * The indicator's top in the viewport: the centred position, kept from
   * leaving the viewport at the top and then from leaving it at the bottom.
   */
  function FlagTop(scroll: real, windowHeight: real, documentHeight: real, flagHeight: real): (t: real)
    requires documentHeight != windowHeight
    ensures t <= windowHeight - flagHeight
    ensures flagHeight <= windowHeight ==> t >= 0.0
    ensures var centred := CentredFlagTop(scroll, windowHeight, documentHeight, flagHeight);
      0.0 <= centred <= windowHeight - flagHeight ==> t == centred
  {
    var flagTop := Max(0.0, CentredFlagTop(scroll, windowHeight, documentHeight, flagHeight));
    Min(flagTop, windowHeight - flagHeight)
  }

  /** On a page taller than the window, scrolling down never moves the indicator up. */
  lemma {:induction false} FlagTopMonotone(s1: real, s2: real, windowHeight: real, documentHeight: real,
                                           flagHeight: real)
    requires documentHeight > windowHeight >= 0.0 && s1 <= s2
    ensures FlagTop(s1, windowHeight, documentHeight, flagHeight)
            <= FlagTop(s2, windowHeight, documentHeight, flagHeight)
  {
    CentredFlagTopMonotone(s1, s2, windowHeight, documentHeight, flagHeight);
  }

  /** On a page taller than the window, the centred top moves down as the page scrolls down. */
  lemma {:induction false} CentredFlagTopMonotone(s1: real, s2: real, windowHeight: real, documentHeight: real,
                                                  flagHeight: real)
    requires documentHeight > windowHeight >= 0.0 && s1 <= s2
    ensures CentredFlagTop(s1, windowHeight, documentHeight, flagHeight)
            <= CentredFlagTop(s2, windowHeight, documentHeight, flagHeight)
  {
    var d := documentHeight - windowHeight;
    ScalingMonotone(s1, s2, d, windowHeight);
    CentredOrder(s1 / d, s2 / d, windowHeight, flagHeight,
                 CentredFlagTop(s1, windowHeight, documentHeight, flagHeight),
                 CentredFlagTop(s2, windowHeight, documentHeight, flagHeight));
  }

  lemma {:induction false} CentredOrder(q1: real, q2: real, windowHeight: real, flagHeight: real,
                                        c1: real, c2: real)
    requires q1 <= q2 && windowHeight >= 0.0
    requires c1 == q1 * windowHeight - flagHeight / 2.0 && c2 == q2 * windowHeight - flagHeight / 2.0
    ensures c1 <= c2
  {
    assert (q2 - q1) * windowHeight >= 0.0;
  }
}
