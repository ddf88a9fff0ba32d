# Active reading time — a verified model of the reading-progress engine

The jQuery plugin *active-reading-time* floats a small indicator next to an
article, saying how long the reader still needs ("5m, 40s left"). It works
in four steps:

1. It scans the article's text leaves into measured units of
   `{top, bottom, words}`.
2. It keeps a *read line* that sweeps through the article as the page
   scrolls through a sliding window.
3. It counts the words still below the read line.
4. Every five seconds it re-estimates the reader's speed from the words
   read since the previous tick.

This project models that engine in Dafny and proves the properties its
code promises. It covers three modules:

- the `data` record and the operations on it (`readTime.module.js`);
- the page bounds record (`page.module.js`);
- the label formatter and the shown/hidden toggle of the indicator
  (`ui.module.js`).

| file | module | models |
|---|---|---|
| `numeric.dfy` | `Numeric` | `Math.round`, `Math.floor`, `Math.max`, `Math.min` and JavaScript's truncating `%`, over exact reals and unbounded integers; `Option` for `null` |
| `decimal.dfy` | `Decimal` | how JavaScript renders an integer inside a string (below 10^21, where it switches to exponent notation), plus a parse-back partner |
| `page.dfy` | `Page` | the `page` record (`PageState`) and `setPageData` / `getPageData` |
| `ui.dfy` | `Ui` | `updateText` as the function `Label`; the indicator as the class `Flag` with `showFlag` / `hideFlag` |
| `textscan.dfy` | `TextScan` | text normalisation, the `\S+\s*` word count, the DOM tree and what a scan of it yields |
| `progress.dfy` | `Progress` | the engine's calculations as specification functions (remaining words, read line, speed gate and blend, seconds left, indicator top) and the lemmas about them |
| `readtime.dfy` | `ReadTime` | the `data` record as the class `Engine`, whose methods update it in place as the source's functions do |

Each imperative function of the source is an `Engine` method. Its contract
ties the new state to a specification function in `Progress` or `TextScan`,
and the lemmas prove what the source promises about that function. Some
examples:

- The scan's loop and recursion are proved to produce `Measure(Leaves(root))`.
- The remaining-words loop, with its `hitFirst` flag, is proved to compute
  `RemainingWords`.
- `RemainingWords` is proved to lie between 0 and the total.

Inputs the browser supplies are parameters:

- the scroll position;
- the DOM tree, with each text leaf's vertical extent;
- the stored cookie value;
- whether the throttle lets a text update through.

## Model

| member | source | states |
|---|---|---|
| Page.ComputePageData | dev/modules/page.module.js:16-22 | the read line spans the element (`stop - start == elementHeight`); `yTopStart` is `max(top - topMargin, 0)`, so never negative and, with a non-negative margin and top, never below the element's top; `yVizStop` is `min(stop + bottomMargin, documentHeight)`, so never past the document and, with a non-negative margin inside the document, never above the element's bottom |
| Page.PageState.constructor | dev/modules/page.module.js:7-14 | before the first `setPageData` every field is `null`, read as 0 |
| Page.PageState.GetPageData | dev/modules/page.module.js:33-35 | `getPageData` hands out the record as last stored; its value after each store is stated by `SetPageData` |
| Page.PageState.SetPageData | dev/modules/page.module.js:16-35 | after the call `getPageData` returns exactly the record computed from the new measurements and margins; nothing of the old record survives |
| Numeric.Round | dev/modules/ui.module.js:96 | `Math.round` returns the integer within half a unit, a half rounding up |
| Numeric.Floor | dev/modules/readTime.module.js:94 | `Math.floor` returns the greatest integer not above its argument |
| Numeric.Max | dev/modules/page.module.js:21 | `Math.max` returns one of its arguments, at least both |
| Numeric.Min | dev/modules/page.module.js:22 | `Math.min` returns one of its arguments, at most both |
| Numeric.Clamp | dev/modules/readTime.module.js:140 | `Math.max(0, Math.min(1, x))` lies in `[0, 1]`, equals `x` inside it and the nearer bound outside |
| Numeric.JsRem | dev/modules/ui.module.js:97 | `%` truncates: the remainder takes the dividend's sign and completes the truncated quotient |
| Numeric.TruncQuot | dev/modules/ui.module.js:97 | the quotient that `%` completes is truncated towards zero: never negative for a non-negative dividend, never positive for a negative one |
| Numeric.PercentQuotient | dev/modules/readTime.module.js:112 | the source's `((x * 100) / d) / 100` is exactly `x / d` |
| Decimal.NatToString | dev/modules/ui.module.js:99 | a number renders as at least one decimal digit, with no leading zero |
| Decimal.IntToStringRoundTrip | dev/modules/ui.module.js:99 | an integer renders with a leading `-` exactly when it is negative, and the digits after any sign read back as its magnitude |
| Decimal.ValueOfNatToString | dev/modules/ui.module.js:99 | reading the rendered digits back gives the number |
| Decimal.NatToStringInjective | dev/modules/ui.module.js:99 | distinct numbers render as distinct strings |
| Decimal.TwoDigits | dev/modules/ui.module.js:99 | a two-digit number renders as its tens digit then its units digit |
| Ui.RoundedMinutes | dev/modules/ui.module.js:96 | `Math.round(s / 60)` is `(s + 30) div 60` for whole seconds (round half up) |
| Ui.Label | dev/modules/ui.module.js:95-106 | `updateText`'s text; what it is for each mode is stated by `DefaultLabelSplitsSeconds`, `MinutesOnlySecondsLeft` and `MinutesOnlyMinutesLeft` |
| Ui.DefaultLabelSplitsSeconds | dev/modules/ui.module.js:95-99 | by default, for `s >= 0`, the label is `mins + "m, " + secs + "s left"`, where `secs` lies in `[0, 59]` and `mins * 60 + secs == s`; the label is fixed by these two numbers alone, so the rounded minutes never affect it |
| Ui.Example340Default | dev/modules/ui.module.js:95-99 | 340 seconds read `5m, 40s left` |
| Ui.MinutesOnlySecondsLeft | dev/modules/ui.module.js:96-102 | with `minutesOnly`, the label is exactly `seconds left` if and only if `s` rounds to 0 minutes (`-30 <= s < 30`) |
| Ui.MinutesTextIsNotSecondsLeft | dev/modules/ui.module.js:103-105 | a minutes label is never the text `seconds left` |
| Ui.MinutesOnlyMinutesLeft | dev/modules/ui.module.js:103-105 | with `minutesOnly` and `s >= 30`, the label is `n minute left` for `n == 1` and `n minutes left` otherwise, where `n = round(s / 60) >= 1` |
| Ui.Example340MinutesOnly | dev/modules/ui.module.js:103-105 | 340 seconds read `6 minutes left` with `minutesOnly` |
| Ui.Example10MinutesOnly | dev/modules/ui.module.js:100-102 | 10 seconds read `seconds left` with `minutesOnly` |
| Ui.Example30MinutesOnly | dev/modules/ui.module.js:96-105 | 30 seconds round up to `1 minute left` with `minutesOnly` |
| Ui.Flag.constructor | dev/modules/ui.module.js:66-81 | the drawn indicator is hidden, has asked for no fade and carries the placeholder text `5m40s left`; its height and mode are fixed from then on |
| Ui.Flag.HideFlag | dev/modules/ui.module.js:15-23 | on a hidden indicator, nothing happens; on a shown one, one fade-out and the indicator is hidden; the toggle invariant (fades alternate, `flagShown` matches the last fade) is kept |
| Ui.Flag.ShowFlag | dev/modules/ui.module.js:26-34 | on a shown indicator, nothing happens; on a hidden one, one fade-in and the indicator is shown; the toggle invariant is kept |
| Ui.ShowFlagTwice | dev/modules/ui.module.js:26-34 | showing twice asks for exactly the fades that showing once does (idempotence) |
| Ui.HideFlagTwice | dev/modules/ui.module.js:15-23 | hiding twice asks for exactly the fades that hiding once does (idempotence) |
| Ui.Flag.UpdateText | dev/modules/ui.module.js:94-109 | the indicator's text becomes the label for the given seconds in the configured mode |
| Ui.FadesAfter | dev/modules/ui.module.js:15-34 | the fades one `showFlag` or `hideFlag` call asks for; `ShowFlag` and `HideFlag` state it case by case |
| TextScan.StripLineBreaks | dev/modules/readTime.module.js:73 | no carriage return or line feed is left, and the text never grows |
| TextScan.StripLineBreaksKeepsOthers | dev/modules/readTime.module.js:73 | every other character is kept, as many times as it occurs (line breaks are deleted, not replaced) |
| TextScan.StripLineBreaksAppend | dev/modules/readTime.module.js:73 | deleting line breaks works piece by piece over a concatenation |
| TextScan.TrimStart | dev/modules/readTime.module.js:73 | the result is a suffix starting with non-white space, and only white space was removed |
| TextScan.TrimEnd | dev/modules/readTime.module.js:73 | the result is a prefix ending with non-white space, and only white space was removed |
| TextScan.Trim | dev/modules/readTime.module.js:73 | `String.prototype.trim`; `TrimEnds`, `TrimKeepsMiddle` and `TrimEmptyIffBlank` state what it keeps |
| TextScan.Normalize | dev/modules/readTime.module.js:73 | line breaks deleted, then the text trimmed; `WordCountPositive` and `LineBreakJoinsWords` state what follows for the word count |
| TextScan.TrimEnds | dev/modules/readTime.module.js:73 | trimmed text is empty or neither starts nor ends with white space |
| TextScan.TrimKeepsMiddle | dev/modules/readTime.module.js:73 | `trim` keeps a contiguous slice and removes only white space on both sides of it |
| TextScan.TrimEmptyIffBlank | dev/modules/readTime.module.js:73-74 | the trimmed text is empty if and only if the text is all white space |
| TextScan.DropNonSpaces | dev/modules/readTime.module.js:79 | one maximal `\S+` run is consumed: everything dropped is non-white space, and the rest is a suffix that is empty or starts with white space |
| TextScan.MatchCount | dev/modules/readTime.module.js:79 | the length of the global match of `\S+\s*`; `MatchCountIsWordStarts` states that it counts the maximal runs |
| TextScan.WordCount | dev/modules/readTime.module.js:73-79 | the word count of a leaf's text; `WordCountPositive` and `LineBreakJoinsWords` state its properties |
| TextScan.MatchCountIsWordStarts | dev/modules/readTime.module.js:79 | the number of `\S+\s*` matches equals the number of maximal non-white-space runs (the independent count `WordStarts`) |
| TextScan.WordCountPositive | dev/modules/readTime.module.js:73-79 | a leaf's normalised text is non-empty if and only if it has at least one word, so `match` never yields `null` where it is applied |
| TextScan.OneWordOneMatch | dev/modules/readTime.module.js:79 | one run of non-white space followed by white space is one match |
| TextScan.LineBreakJoinsWords | dev/modules/readTime.module.js:73-79 | two words separated only by a line break (`"foo\nbar"`) count as one |
| TextScan.Leaves | dev/modules/readTime.module.js:70-88 | a scan visits only text leaves: a text node is its own leaf, and elements are recursed into and never measured |
| TextScan.UnitOf | dev/modules/readTime.module.js:76-80 | a unit spans its leaf, and its words are the number of word starts in the normalised text, at least one for a leaf that contributes |
| TextScan.MeasureTextLeaf | dev/modules/readTime.module.js:71-81 | a text leaf yields its own unit when its normalised text is non-empty, and nothing otherwise |
| TextScan.Measure | dev/modules/readTime.module.js:70-88 | the units a scan of some leaves pushes; `MeasureFaithful`, `MeasureAppend` and `MeasureTextLeaf` state them |
| TextScan.MeasureAppend | dev/modules/readTime.module.js:84-86 | measuring a sequence of leaves distributes over concatenation (siblings in order) |
| TextScan.MeasureSiblingsStep | dev/modules/readTime.module.js:84-86 | scanning one more child appends exactly that child's units |
| TextScan.MeasureFaithful | dev/modules/readTime.module.js:70-88 | one unit per contributing leaf, every unit has a word, and the units hold all the leaves' words |
| TextScan.MeasureWellMeasured | dev/modules/readTime.module.js:75-80 | when every contributing leaf has a positive height, so does every unit |
| TextScan.TreeWellMeasured | dev/modules/readTime.module.js:70-88 | the same for the units of a whole tree |
| Progress.PartialCredit | dev/modules/readTime.module.js:110-113 | the straddled unit's credit `round(w - w * (y - top) / (bottom - top))` lies in `[0, w]`: all `w` at its top, 0 at its bottom |
| Progress.PartialCreditRoundsUnread | dev/modules/readTime.module.js:113 | the code rounds the unread words `round(w - w * p)`: a one-word unit read half-way keeps 1 word, where `w - round(w * p)` would give 0 |
| Progress.MidpointCredit | dev/modules/readTime.module.js:112-113 | a read line half-way down leaves half the words, rounded half up |
| Progress.FirstStraddled | dev/modules/readTime.module.js:108-114 | the index found is that of a straddled unit with no straddled unit before it, and none is found only when no unit is straddled |
| Progress.FirstStraddledOfPrefix | dev/modules/readTime.module.js:108-114 | once a prefix contains a straddled unit, the first of the whole list is that one: later units never take the partial credit (`hitFirst`) |
| Progress.CreditDefined | dev/modules/readTime.module.js:112 | the unit that gets partial credit, if any, has a positive height; other units may have none |
| Progress.WellMeasuredCreditDefined | dev/modules/readTime.module.js:112 | units that all have a positive height have their credit defined for every read line |
| Progress.MeasurableTreeCreditDefined | dev/modules/readTime.module.js:70-88 | a tree whose contributing leaves all have a positive height scans to units with their credit defined for every read line |
| Progress.UnpassedWords | dev/modules/readTime.module.js:109-117 | the words of the units not passed; `UnpassedAtMostTotal` bounds it by the total, and `DropPassedKeepsUnpassed` shows passed units add nothing |
| Progress.WordsRead | dev/modules/readTime.module.js:112-113 | the words read of the first straddled unit; what it contributes is stated by `PartialCredit` and `RemainingWordsSnoc` |
| Progress.RemainingWords | dev/modules/readTime.module.js:104-121 | the remaining words; `RemainingWithinTotal`, `RemainingWhenAllAhead`, `RemainingWordsSnoc` and `PassedUnitsContributeNothing` state its properties, and `CalculateRemainingWords` computes it |
| Progress.RemainingWithinTotal | dev/modules/readTime.module.js:104-121 | the remaining words lie between 0 and the total word count |
| Progress.RemainingWhenAllAhead | dev/modules/readTime.module.js:104-121 | with the read line at or above every unit's top, the remaining words are all the words |
| Progress.RemainingWordsSnoc | dev/modules/readTime.module.js:108-119 | unit by unit in list order: a passed unit adds 0, the first straddled unit adds its partial credit, and any other unit not passed adds all its words |
| Progress.DropPassed | dev/modules/readTime.module.js:109 | every unit kept is one whose bottom the read line has not passed |
| Progress.DropPassedCounts | dev/modules/readTime.module.js:109 | every unit not passed is kept, as often as it occurs, and no passed unit is |
| Progress.DropPassedAppend | dev/modules/readTime.module.js:109 | dropping works piece by piece over a concatenation, so the units kept stay in their original order |
| Progress.PassedUnitsContributeNothing | dev/modules/readTime.module.js:109 | leaving out every unit whose bottom is above the read line does not change the remaining words |
| Progress.ExampleThreeUnits | dev/modules/readTime.module.js:104-121 | units of 50, 30 and 20 words with the read line half-way down the second leave 35 words |
| Progress.ReadLinePercentage | dev/modules/readTime.module.js:126-140 | the fraction lies in `[0, 1]` for any scroll position; for `minY < maxY` it is 0 above the window, 1 below it, and `(scroll - minY) / (maxY - minY)` inside it |
| Progress.ReadLinePercentageMonotone | dev/modules/readTime.module.js:140 | scrolling further down a proper window never lowers the fraction |
| Progress.ReadLineY | dev/modules/readTime.module.js:143 | the read line lies between `readLineStart` and `readLineStop`, at the start for fraction 0 and at the stop for 1 |
| Progress.WindowStart | dev/modules/readTime.module.js:126 | `minY`, the scroll position at which the sliding window starts; `ReadLinePercentage` and `ShowsFlag` state its role |
| Progress.WindowStop | dev/modules/readTime.module.js:127 | `maxY`, the scroll position at which the sliding window stops |
| Progress.ReadLineAt | dev/modules/readTime.module.js:140-143 | the read line for a scroll position on a page lies between the content's top and bottom |
| Progress.ShowsFlag | dev/modules/readTime.module.js:129-137 | the indicator is to be shown exactly when `minY <= scroll <= maxY`; `CalculateReadLineAndPercentage` states that the engine follows it |
| Progress.SpeedSample | dev/modules/readTime.module.js:42-43 | the sample is the rate in words per minute of reading the words in one interval: `sample` words a minute for 5000 ms is exactly `words` words |
| Progress.ReadingForwards | dev/modules/readTime.module.js:40 | the tick's gate; `SpeedChangesOnlyWhenGated` states each case it rejects |
| Progress.PlausibleSample | dev/modules/readTime.module.js:45 | a sample within `[20, 1200]` words per minute; `SpeedChangesOnlyWhenGated` states it is required |
| Progress.BlendSpeed | dev/modules/readTime.module.js:46 | the blend is `floor((old + sample) / 2)` |
| Progress.NextSpeed | dev/modules/readTime.module.js:40-48 | a tick changes the speed only when the gate holds and the sample is plausible |
| Progress.SpeedChangesOnlyWhenGated | dev/modules/readTime.module.js:40-48 | the speed stays put on the first tick (`lastRemainingWords` null), after nothing was left, on a backward, still or over-1800 scroll, and on a sample outside `[20, 1200]`; otherwise it becomes `floor((old + 12 * wordsRead) / 2)` |
| Progress.BlendStaysInRange | dev/modules/readTime.module.js:45-47 | a blend lies between the old speed and the sample (rounded down), so a positive speed stays positive and a plausible one stays plausible |
| Progress.SecondsLeft | dev/modules/readTime.module.js:94 | `floor(words / (wpm / 60))` is non-negative for non-negative words and is the floor of `words * 60 / wpm` |
| Progress.SecondsLeftMonotone | dev/modules/readTime.module.js:94 | more words never take less time, and a faster reader never needs more |
| Progress.CentredFlagTop | dev/modules/readTime.module.js:164-168 | the unclamped top is the scrolled fraction of the page times the window height, minus half the indicator's height: centred on the viewport's top edge at scroll 0, and on its bottom edge fully scrolled |
| Progress.CentredFlagTopMonotone | dev/modules/readTime.module.js:164-168 | on a page taller than the window, the unclamped top moves down as the page scrolls down |
| Progress.FlagTop | dev/modules/readTime.module.js:164-170 | the top never exceeds `windowHeight - flagHeight`, is at least 0 when the indicator fits in the window, and equals the centred top when that already fits |
| Progress.FlagTopMonotone | dev/modules/readTime.module.js:164-170 | on a page taller than the window, scrolling down never moves the indicator up |
| ReadTime.Engine.constructor | dev/modules/readTime.module.js:18-31 | the speed is the stored value if there is one and the default otherwise; there are no units, the read line is 0 (`null`), the last remaining words are `null`, and the last scroll is the initial one |
| ReadTime.Engine.SetReadSpeed | dev/modules/readTime.module.js:58-62 | the speed in use becomes the new value, and so does the cookie, kept for 30 days |
| ReadTime.Engine.RecurseThroughTextNodes | dev/modules/readTime.module.js:70-88 | the recursive walk appends exactly `Measure(Leaves(node))`: one unit per non-empty text leaf, in document order |
| ReadTime.Engine.CalculateRemainingWords | dev/modules/readTime.module.js:104-121 | the `forEach` pass with its `hitFirst` flag returns `RemainingWords` of the units and the read line |
| ReadTime.Engine.CalculateReadLineAndPercentage | dev/modules/readTime.module.js:124-151 | the fraction and read line are set as `ReadLinePercentage` and `ReadLineY` give them; the highest fraction becomes the max of the old one and the new (so it never decreases); the indicator is shown if and only if `minY <= scroll <= maxY`, and a fade is asked for only when that changes whether it is shown |
| ReadTime.Engine.UpdateRemainingTime | dev/modules/readTime.module.js:91-98 | returns the remaining words, and the text becomes the label for `SecondsLeft` of them at the current speed |
| ReadTime.Engine.UpdateRecalculateReadSpeed | dev/modules/readTime.module.js:34-53 | the speed (and the cookie) becomes `NextSpeed`'s value when there is one and is otherwise unchanged; the last scroll and remaining words are overwritten on every tick; the speed stays positive |
| ReadTime.Engine.UpdateView | dev/modules/readTime.module.js:154-173 | the read line, highest fraction, shown state and fades change as in `CalculateReadLineAndPercentage`; the text is refreshed for the new read line unless a scroll call is throttled, when it is unchanged; the returned top is `FlagTop` |
| ReadTime.Engine.RebuildTextNodes | dev/modules/readTime.module.js:176-180 | the unit list is emptied, then rebuilt as exactly the units of the tree, for any tree |
| ReadTime.Engine.BuildTextNodeListAndUpdateView | dev/modules/readTime.module.js:176-183 | after a rescan the units are exactly those of the tree; the read line, highest fraction, shown state and fades follow from the scroll position as in `UpdateView`; the text is refreshed unthrottled for that read line; the returned top is `FlagTop` |

## Left out

- `utils.throttle` and every timer (`setInterval` for the speed tick, `setTimeout` for fades, removal and the throttle's trailing call) are left out: they are wall-clock scheduling. The speed tick is the method `UpdateRecalculateReadSpeed`, one call per tick. Whether the throttle runs the text update now is the `throttleOpen` parameter of `UpdateView`. A throttled call leaves the text as it was; a trailing call it would schedule is a later `UpdateRemainingTime`.
- `getTextNodeOffset` (a DOM Range measurement) is left out: each text leaf carries its `top` and `bottom` in document coordinates. The `scrollY` argument that only feeds that measurement is not a parameter of the scan.
- `$(window).scrollTop()`, `$(window).height()`, `$(document).height()` and the element's offset and height are browser reads, so they are parameters.
- The jQuery event binding, `removeFlag`, `updateOnResize`, `throttledOnScroll`, `setFlagPosition` and the fade animations are DOM plumbing. `UpdateView` returns the top it would pass to `setFlagPosition`, and `Flag.fades` records the fades asked for; the fade timer is not modelled.
- The cookie store (`monster.get` / `monster.set`: `document.cookie`, URI encoding, expiry) is outside the model. The stored value is the constructor's optional `stored` argument; a write is recorded in the field `persistedSpeed`, with the value and the 30-day lifetime. The cookie's name is not modelled.
- The mobile detection, the plugin wrapper and the option merging are left out. The margins, the default speed and the label mode (defaults 40, 40, 200 and false) are parameters. The throttle's 800 ms interval is not modelled, since the throttle itself is not.
- The `/**REM**/` debug writes are removed from built copies, so they are not modelled. The same goes for the `doneReading` and `recalcReadSpeedTMO` fields, which nothing here reads.
- Floating point is not modelled: pixels and speeds are exact reals and counts unbounded integers. So `((x * 100) / d) / 100` is exactly `x / d`, with no rounding error and no overflow.
- JavaScript's `null` fields are modelled as 0, which is how arithmetic and comparisons read them. `lastRemainingWords` is an `Option`: `null > 0` is false, and the model keeps exactly that case apart.
- JavaScript has no integer type: `updateText` receives a whole number of seconds (it is `Math.floor`ed), so the label is a function of an `int`.
- Decimal.IntToString: renders every integer in plain digits. JavaScript does so only below 10^21 in magnitude and switches to exponent notation above; no reading time comes near that.
- Progress.PartialCredit: requires the unit to have a positive height, because the source divides by `bottom - top` unguarded. A zero-height unit would give `NaN` there.
- ReadTime.Engine.CalculateRemainingWords, ReadTime.Engine.UpdateRemainingTime, ReadTime.Engine.UpdateRecalculateReadSpeed, ReadTime.Engine.UpdateView and ReadTime.Engine.BuildTextNodeListAndUpdateView: require `CreditDefined`. Only the unit that gets partial credit must have a positive height; other zero-height units are accepted, as the source accepts them. Such units come from text in scripts, styles or hidden elements. The excluded case is a read line exactly on a zero-height unit that is first straddled. There the source computes `NaN` remaining words and shows `NaNm, NaNs left`; the model does not represent `NaN`.
- Progress.ReadLinePercentage: requires `maxY != minY`, because the source divides by `maxY - minY` unguarded. This requirement carries over to `Engine.CalculateReadLineAndPercentage`, `Engine.UpdateView` and `Engine.BuildTextNodeListAndUpdateView`. A window whose stop lies above its start is modelled as the source computes it.
- Progress.CentredFlagTop: requires `documentHeight != windowHeight`, because the source divides by their difference unguarded. This requirement carries over to `Engine.UpdateView` and `Engine.BuildTextNodeListAndUpdateView`. So for a page that does not scroll at all, the model promises nothing about the read line and label. The source still updates those there and places the indicator at a `NaN` or infinite top.
- Progress.SecondsLeft: requires a positive speed. The engine keeps this as part of `Engine.Valid`, given a positive stored cookie and default. The source would take a stored `"0"` and divide by zero.
- Ui.DefaultLabelSplitsSeconds: is stated for `s >= 0`, the only seconds the engine produces. For negative `s` the label is still modelled, with JavaScript's sign-taking `%`.
- Progress.FlagTopMonotone: is stated for a document taller than the window. For a shorter one the page cannot scroll.
- Progress.RemainingWords: follows the code's `round(w - w * p)` for the straddled unit, not a description that rounds the words read (`w - round(w * p)`). The two differ on halves; `Progress.PartialCreditRoundsUnread` gives an instance.
