/**
 * The page module: the six numbers that describe the viewport and the
 * tracked element, recomputed wholesale every time the window is resized.
 * `PageState` is the module-level `page` record that `setPageData`
 * overwrites in place; `GetPageData` hands out its current contents.
 */
module Page {
  import opened Numeric

  /** A snapshot of the `page` record. */
  datatype PageData = PageData(
    windowHeight: real,    // height of the viewport
    documentHeight: real,  // height of the document
    yTopStart: real,       // scroll position from which the indicator is shown
    yVizStop: real,        // lowest visible position at which it is still shown
    readLineStart: real,   // top of the tracked element
    readLineStop: real     // bottom of the tracked element
  )

  /**
   * The record `setPageData` builds from the window, document and element
   * measurements and the configured margins.
   */
  function ComputePageData(windowHeight: real, documentHeight: real, elementTop: real,
                           elementHeight: real, topMargin: real, bottomMargin: real): (p: PageData)
    // the measurements are copied, the read line spans the element
    ensures p.windowHeight == windowHeight && p.documentHeight == documentHeight
    ensures p.readLineStart == elementTop && p.readLineStop - p.readLineStart == elementHeight
    // the show window starts a margin above the element, never above the page top
    ensures p.yTopStart >= 0.0 && p.yTopStart >= elementTop - topMargin
    ensures p.yTopStart == 0.0 || p.yTopStart == elementTop - topMargin
    ensures topMargin >= 0.0 && elementTop >= 0.0 ==> p.yTopStart <= p.readLineStart
    // it stops a margin below the element, never below the page bottom
    ensures p.yVizStop <= documentHeight && p.yVizStop <= p.readLineStop + bottomMargin
    ensures p.yVizStop == documentHeight || p.yVizStop == p.readLineStop + bottomMargin
    ensures bottomMargin >= 0.0 && p.readLineStop <= documentHeight ==> p.yVizStop >= p.readLineStop
  {
    var readLineStop := elementTop + elementHeight;
    PageData(
      windowHeight,
      documentHeight,
      Max(elementTop - topMargin, 0.0),
      Min(readLineStop + bottomMargin, documentHeight),
      elementTop,
      readLineStop)
  }

  class PageState {
    var windowHeight: real
    var documentHeight: real
    var yTopStart: real
    var yVizStop: real
    var readLineStart: real
    var readLineStop: real

    /** `getPageData`: the record as last stored. */
    function GetPageData(): PageData
      reads this
    {
      PageData(windowHeight, documentHeight, yTopStart, yVizStop, readLineStart, readLineStop)
    }

    /**
     * The record before the first `setPageData`: every field is `null`,
     * which JavaScript arithmetic and comparisons read as 0.
     */
    constructor ()
      ensures GetPageData() == PageData(0.0, 0.0, 0.0, 0.0, 0.0, 0.0)
    {
      windowHeight, documentHeight := 0.0, 0.0;
      yTopStart, yVizStop := 0.0, 0.0;
      readLineStart, readLineStop := 0.0, 0.0;
    }

    /**
     * `setPageData`: every field is overwritten from the current measurements
     * and the margins alone; nothing of the previous record survives.
     */
    method SetPageData(windowHeight: real, documentHeight: real, elementTop: real,
                       elementHeight: real, topMargin: real, bottomMargin: real)
      modifies this
      ensures GetPageData() == ComputePageData(windowHeight, documentHeight, elementTop,
                                               elementHeight, topMargin, bottomMargin)
    {
      this.windowHeight := windowHeight;
      this.documentHeight := documentHeight;
      this.readLineStart := elementTop;
      this.readLineStop := this.readLineStart + elementHeight;
      this.yTopStart := Max(this.readLineStart - topMargin, 0.0);
      this.yVizStop := Min(this.readLineStop + bottomMargin, documentHeight);
    }
  }
}
