/**
 * The reading-time engine: the module-level `data` record of the source,
 * updated in place by its functions. An `Engine` holds the measured text
 * units, the read line, the reading speed and what the last speed tick saw,
 * and refers to the page record and the indicator it reads and drives.
 *
 * The browser supplies the scroll position and the DOM tree; the periodic
 * timer, the text throttle and the cookie store are outside the engine, so
 * the scroll position is a parameter of every operation, whether the
 * throttle lets a text update through is a parameter of `UpdateView`, and
 * the stored cookie is an optional argument of the constructor and the
 * field `persistedSpeed`.
 */
module ReadTime {
  import opened Numeric
  import opened TextScan
  import opened Page
  import opened Progress
  import opened Ui

  /** Days the speed cookie is kept. */
  const ReadSpeedCookieDays: int := 30

  /** A write of the speed cookie: the value stored and the days it is kept. */
  datatype SpeedCookie = SpeedCookie(wordsPerMin: int, days: int)

  class Engine {
    var readLineYPos: real
    var readLineMaxPercentage: real
    var readLinePercentage: real
    var readSpeedWordsPerMin: real
    var textNodes: seq<TextUnit>
    var lastScrollY: real
    var lastRemainingWords: Option<int>
    /** The last write of the speed cookie, if any. */
    var persistedSpeed: Option<SpeedCookie>
    const page: PageState
    const ui: Flag

    /**
     * The engine's invariant: the speed is positive (the seconds left are a
     * quotient by it), the read line's fraction never exceeds the highest
     * fraction reached and both lie in `[0, 1]`, and the indicator's toggle
     * is consistent.
     */
    ghost predicate Valid()
      reads this, ui
    {
      && readSpeedWordsPerMin > 0.0
      && 0.0 <= readLinePercentage <= readLineMaxPercentage <= 1.0
      && ui.Valid()
    }

    /**
     * The `data` record when the engine starts: no units, no read line yet
     * (`null`, read as 0), the speed from the cookie when one is stored and
     * the configured default otherwise, and the scroll position at start.
     */
    constructor (stored: Option<real>, defaultWordsPerMinute: real, initialScrollY: real,
                 page: PageState, ui: Flag)
      requires stored.Some? ==> stored.value > 0.0
      requires defaultWordsPerMinute > 0.0
      requires ui.Valid()
      ensures Valid()
      ensures readSpeedWordsPerMin == (if stored.Some? then stored.value else defaultWordsPerMinute)
      ensures textNodes == [] && lastScrollY == initialScrollY && lastRemainingWords == None
      ensures readLineYPos == 0.0 && readLinePercentage == 0.0 && readLineMaxPercentage == 0.0
      ensures persistedSpeed == None
      ensures this.page == page && this.ui == ui
    {
      readLineYPos := 0.0;
      readLineMaxPercentage := 0.0;
      readLinePercentage := 0.0;
      readSpeedWordsPerMin := if stored.Some? then stored.value else defaultWordsPerMinute;
      textNodes := [];
      lastScrollY := initialScrollY;
      lastRemainingWords := None;
      persistedSpeed := None;
      this.page := page;
      this.ui := ui;
    }

    /**
     * `_setReadspead`: the speed in use becomes `wordsPerMin`, and so does the
     * cookie, kept for `ReadSpeedCookieDays` days.
     */
    method SetReadSpeed(wordsPerMin: int)
      modifies this`readSpeedWordsPerMin, this`persistedSpeed
      ensures readSpeedWordsPerMin == wordsPerMin as real
      ensures persistedSpeed == Some(SpeedCookie(wordsPerMin, ReadSpeedCookieDays))
    {
      readSpeedWordsPerMin := wordsPerMin as real;
      persistedSpeed := Some(SpeedCookie(wordsPerMin, ReadSpeedCookieDays));
    }

    /**
     * `_recurseThroughTextNodesAndBuildLines`: appends one unit for every text
     * leaf of `node` whose normalised text is not empty, in document order.
     */
    method RecurseThroughTextNodes(node: DomNode)
      modifies this`textNodes
      ensures textNodes == old(textNodes) + Measure(Leaves(node))
      decreases node
    {
      match node
      case Text(value, top, bottom) =>
        var trimmedVal := Normalize(value);
        MeasureTextLeaf(node);
        if |trimmedVal| > 0 {
          textNodes := textNodes + [TextUnit(top, bottom, MatchCount(trimmedVal))];
        }
      case Element(children) =>
        var i := 0;
        assert old(textNodes) + Measure(LeavesOf(children[..0])) == textNodes by {
          assert children[..0] == [];
        }
        while i < |children|
          invariant 0 <= i <= |children|
          invariant textNodes == old(textNodes) + Measure(LeavesOf(children[..i]))
        {
          MeasureSiblingsStep(old(textNodes), children, i);
          RecurseThroughTextNodes(children[i]);
          i := i + 1;
        }
        assert children[..|children|] == children;
    }

    /**
     * `_calculateRemainingWords`: one pass over the units in list order, as
     * the remaining-words specification prescribes.
     */
    method CalculateRemainingWords() returns (remainingWords: int)
      requires CreditDefined(textNodes, readLineYPos)
      ensures remainingWords == RemainingWords(textNodes, readLineYPos)
    {
      remainingWords := 0;
      var hitFirst := false;
      var i := 0;
      while i < |textNodes|
        invariant 0 <= i <= |textNodes|
        invariant CreditDefined(textNodes[..i], readLineYPos)
        invariant hitFirst == FirstStraddled(textNodes[..i], readLineYPos).Some?
        invariant remainingWords == RemainingWords(textNodes[..i], readLineYPos)
      {
        var node := textNodes[i];
        RemainingWordsPrefixStep(textNodes, readLineYPos, i);
        if readLineYPos <= node.bottom {
          if readLineYPos >= node.top && !hitFirst {
            var percentReadOfNode := (((readLineYPos - node.top) * 100.0) / (node.bottom - node.top)) / 100.0;
            assert Round(node.words as real - (node.words as real * percentReadOfNode))
                   == PartialCredit(node, readLineYPos);
            remainingWords := remainingWords + Round(node.words as real - (node.words as real * percentReadOfNode));
            hitFirst := true;
          } else {
            remainingWords := remainingWords + node.words;
          }
        }
        i := i + 1;
      }
      assert textNodes[..|textNodes|] == textNodes;
    }

    /**
     * `_calculateReadLineAndPercentage`: places the read line for the scroll
     * position, raises the highest fraction reached, and shows the indicator
     * exactly while the scroll position is inside the sliding window, asking
     * for a fade only when that changes whether it is shown.
     */
    method CalculateReadLineAndPercentage(curScrollPos: real)
      requires Valid()
      requires WindowStop(page.GetPageData()) != WindowStart(page.GetPageData())
      modifies this`readLinePercentage, this`readLineYPos, this`readLineMaxPercentage
      modifies ui`flagShown, ui`fades
      ensures Valid()
      ensures var p := page.GetPageData();
        readLinePercentage == ReadLinePercentage(curScrollPos, WindowStart(p), WindowStop(p))
      ensures var p := page.GetPageData();
        readLineYPos == ReadLineY(readLinePercentage, p.readLineStart, p.readLineStop)
      ensures readLineYPos == ReadLineAt(page.GetPageData(), curScrollPos)
      ensures readLineMaxPercentage == Max(old(readLineMaxPercentage), readLinePercentage)
      ensures var p := page.GetPageData();
        ui.flagShown == ShowsFlag(curScrollPos, WindowStart(p), WindowStop(p))
      ensures var p := page.GetPageData();
        ui.fades == FadesAfter(old(ui.fades), old(ui.flagShown), ShowsFlag(curScrollPos, WindowStart(p), WindowStop(p)))
    {
      var p := page.GetPageData();
      var minY := Max(0.0, p.yTopStart);
      var maxY := p.yVizStop - p.windowHeight;

      if curScrollPos < minY {
        ui.HideFlag();
      } else if curScrollPos > maxY {
        ui.HideFlag();
      } else {
        ui.ShowFlag();
      }

      readLinePercentage := ReadLinePercentage(curScrollPos, minY, maxY);
      readLineYPos := ReadLineY(readLinePercentage, p.readLineStart, p.readLineStop);

      if readLinePercentage > readLineMaxPercentage {
        readLineMaxPercentage := readLinePercentage;
      }
    }

    /**
     * `_updateRemainingTime`: the indicator's text is the label for the whole
     * seconds the remaining words take at the current speed.
     */
    method UpdateRemainingTime() returns (remainingWords: int)
      requires Valid()
      requires CreditDefined(textNodes, readLineYPos)
      modifies ui`text
      ensures Valid()
      ensures remainingWords == RemainingWords(textNodes, readLineYPos)
      ensures ui.text == Label(SecondsLeft(remainingWords, readSpeedWordsPerMin), ui.minutesOnly)
    {
      remainingWords := CalculateRemainingWords();
      var secondsLeft := SecondsLeft(remainingWords, readSpeedWordsPerMin);
      ui.UpdateText(secondsLeft);
    }

    /**
     * `_updateRecalculateReadSpeed`, one tick of the estimator: the speed
     * becomes the blend of the old speed and the sample when the gate lets
     * the tick through, and the scroll position and remaining words are
     * remembered for the next tick in every case.
     */
    method UpdateRecalculateReadSpeed(curScrollPos: real)
      requires Valid()
      requires CreditDefined(textNodes, readLineYPos)
      modifies this`readSpeedWordsPerMin, this`persistedSpeed, this`lastScrollY, this`lastRemainingWords
      ensures Valid()
      ensures var next := NextSpeed(old(readSpeedWordsPerMin), old(lastRemainingWords),
                                    RemainingWords(textNodes, readLineYPos), curScrollPos - old(lastScrollY));
        if next.Some? then
          readSpeedWordsPerMin == next.value as real
          && persistedSpeed == Some(SpeedCookie(next.value, ReadSpeedCookieDays))
        else
          readSpeedWordsPerMin == old(readSpeedWordsPerMin) && persistedSpeed == old(persistedSpeed)
      ensures lastScrollY == curScrollPos
      ensures lastRemainingWords == Some(RemainingWords(textNodes, readLineYPos))
    {
      var remainingWords := CalculateRemainingWords();
      var scrollDist := curScrollPos - lastScrollY;

      if lastRemainingWords.Some? && lastRemainingWords.value > 0
         && scrollDist > 0.0 && scrollDist <= MaxScrollDistance {
        var words := lastRemainingWords.value - remainingWords;
        var readSpeedSample := (60 / (ReadTimeCalcIntervalMs / 1000)) * words;
        assert readSpeedSample == SpeedSample(words);

        if readSpeedSample >= MinWordsPerMin && readSpeedSample <= MaxWordsPerMin {
          var newReadspeed := Floor((readSpeedWordsPerMin + readSpeedSample as real) / 2.0);
          assert newReadspeed == BlendSpeed(readSpeedWordsPerMin, readSpeedSample);
          BlendStaysInRange(readSpeedWordsPerMin, readSpeedSample);
          SetReadSpeed(newReadspeed);
        }
      }

      lastScrollY := curScrollPos;
      lastRemainingWords := Some(remainingWords);
    }

    /**
     * `updateView`: recomputes the read line, refreshes the text unless the
     * call comes from a scroll event that the throttle holds back, and
     * returns the top at which the indicator is to be placed.
     */
    method UpdateView(curScrollPos: real, calledFromScroll: bool, throttleOpen: bool) returns (flagTop: real)
      requires Valid()
      requires WindowStop(page.GetPageData()) != WindowStart(page.GetPageData())
      requires page.GetPageData().documentHeight != page.GetPageData().windowHeight
      requires !calledFromScroll || throttleOpen ==> CreditDefined(textNodes, ReadLineAt(page.GetPageData(), curScrollPos))
      modifies this`readLinePercentage, this`readLineYPos, this`readLineMaxPercentage
      modifies ui`flagShown, ui`fades, ui`text
      ensures Valid()
      ensures var p := page.GetPageData();
        readLinePercentage == ReadLinePercentage(curScrollPos, WindowStart(p), WindowStop(p))
      ensures readLineYPos == ReadLineAt(page.GetPageData(), curScrollPos)
      ensures readLineMaxPercentage == Max(old(readLineMaxPercentage), readLinePercentage)
      ensures var p := page.GetPageData();
        ui.flagShown == ShowsFlag(curScrollPos, WindowStart(p), WindowStop(p))
      ensures var p := page.GetPageData();
        ui.fades == FadesAfter(old(ui.fades), old(ui.flagShown), ShowsFlag(curScrollPos, WindowStart(p), WindowStop(p)))
      ensures !calledFromScroll || throttleOpen ==>
        ui.text == Label(SecondsLeft(RemainingWords(textNodes, readLineYPos), readSpeedWordsPerMin), ui.minutesOnly)
      ensures calledFromScroll && !throttleOpen ==> ui.text == old(ui.text)
      ensures var p := page.GetPageData();
        flagTop == FlagTop(curScrollPos, p.windowHeight, p.documentHeight, ui.flagHeight)
    {
      CalculateReadLineAndPercentage(curScrollPos);

      if !calledFromScroll || throttleOpen {
        var remainingWords := UpdateRemainingTime();
      }

      var p := page.GetPageData();
      flagTop := Max(0.0, CentredFlagTop(curScrollPos, p.windowHeight, p.documentHeight, ui.flagHeight));
      flagTop := Min(flagTop, p.windowHeight - ui.flagHeight);
    }

    /**
     * The first half of `buildTextNodeListAndUpdateView`: the units are
     * rebuilt from scratch from the tree under `root`.
     */
    method RebuildTextNodes(root: DomNode)
      modifies this`textNodes
      ensures textNodes == Measure(Leaves(root))
    {
      ghost var units := Measure(Leaves(root));
      assert [] + units == units;
      textNodes := [];
      RecurseThroughTextNodes(root);
    }

    /**
     * `buildTextNodeListAndUpdateView`: the units are rebuilt from the tree
     * under `root`, then the view is updated with the text refreshed.
     */
    method BuildTextNodeListAndUpdateView(root: DomNode, scrollY: real) returns (flagTop: real)
      requires Valid()
      requires WindowStop(page.GetPageData()) != WindowStart(page.GetPageData())
      requires page.GetPageData().documentHeight != page.GetPageData().windowHeight
      requires CreditDefined(Measure(Leaves(root)), ReadLineAt(page.GetPageData(), scrollY))
      modifies this`textNodes, this`readLinePercentage, this`readLineYPos, this`readLineMaxPercentage
      modifies ui`flagShown, ui`fades, ui`text
      ensures Valid()
      ensures textNodes == Measure(Leaves(root))
      ensures var p := page.GetPageData();
        readLinePercentage == ReadLinePercentage(scrollY, WindowStart(p), WindowStop(p))
      ensures readLineYPos == ReadLineAt(page.GetPageData(), scrollY)
      ensures readLineMaxPercentage == Max(old(readLineMaxPercentage), readLinePercentage)
      ensures var p := page.GetPageData();
        ui.flagShown == ShowsFlag(scrollY, WindowStart(p), WindowStop(p))
      ensures var p := page.GetPageData();
        ui.fades == FadesAfter(old(ui.fades), old(ui.flagShown), ShowsFlag(scrollY, WindowStart(p), WindowStop(p)))
      ensures ui.text == Label(SecondsLeft(RemainingWords(textNodes, readLineYPos), readSpeedWordsPerMin), ui.minutesOnly)
      ensures var p := page.GetPageData();
        flagTop == FlagTop(scrollY, p.windowHeight, p.documentHeight, ui.flagHeight)
    {
      RebuildTextNodes(root);
      flagTop := UpdateView(scrollY, false, false);
    }
  }
}
