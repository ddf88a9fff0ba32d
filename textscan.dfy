/**
 * The content scanner's text handling: how one text leaf of the tracked
 * element is normalised (line breaks deleted, then trimmed) and how its words
 * are counted (the number of matches of the regular expression `\S+\s*`),
 * and the tree of content the scanner walks.
 */
module TextScan {

  /**
   * The characters JavaScript's `\s` and `String.prototype.trim` treat as
   * white space: the WhiteSpace and LineTerminator characters of ECMAScript
   * (tab, vertical tab, form feed, space, no-break space, the byte-order
   * mark, every space separator of Unicode category Zs, line feed, carriage
   * return, line separator and paragraph separator).
   */
  predicate IsSpace(c: char) {
    || c == '\t' || c == '\U{000B}' || c == '\U{000C}' || c == ' '
    || c == '\U{00A0}' || c == '\U{FEFF}' || c == '\U{1680}'
    || ('\U{2000}' <= c <= '\U{200A}')
    || c == '\U{202F}' || c == '\U{205F}' || c == '\U{3000}'
    || c == '\n' || c == '\r' || c == '\U{2028}' || c == '\U{2029}'
  }

  /** The characters the pattern `(\r\n|\n|\r|)` deletes. */
  predicate IsLineBreak(c: char) {
    c == '\r' || c == '\n'
  }

  /**
   * `replace(/(\r\n|\n|\r|)/gm, "")`: every carriage return and line feed is
   * deleted (not replaced by a space); every other character is kept, in order.
   */
  function StripLineBreaks(s: string): (r: string)
    ensures forall i :: 0 <= i < |r| ==> !IsLineBreak(r[i])
    ensures |r| <= |s|
  {
    if s == [] then []
    else
      var rest := StripLineBreaks(s[..|s| - 1]);
      var c := s[|s| - 1];
      assert s == s[..|s| - 1] + [c];
      if IsLineBreak(c) then rest else rest + [c]
  }

  /** Deleting line breaks keeps every other character, as often as it occurs. */
  lemma {:induction false} StripLineBreaksKeepsOthers(s: string, c: char)
    requires !IsLineBreak(c)
    ensures multiset(StripLineBreaks(s))[c] == multiset(s)[c]
  {
    if s != [] {
      var init := s[..|s| - 1];
      StripLineBreaksKeepsOthers(init, c);
      assert s == init + [s[|s| - 1]];
    }
  }

  /** Deleting line breaks works piece by piece: nothing is joined or split. */
  lemma {:induction false} StripLineBreaksAppend(a: string, b: string)
    ensures StripLineBreaks(a + b) == StripLineBreaks(a) + StripLineBreaks(b)
    decreases |b|
  {
    if b != [] {
      var b' := b[..|b| - 1];
      assert (a + b)[..|a + b| - 1] == a + b';
      StripLineBreaksAppend(a, b');
    } else {
      assert a + b == a;
    }
  }

  /** The text with its leading white space removed. */
  function TrimStart(s: string): (r: string)
    ensures |r| <= |s| && r == s[|s| - |r|..]
    ensures r == [] || !IsSpace(r[0])
    ensures forall k :: 0 <= k < |s| - |r| ==> IsSpace(s[k])
  {
    if s != [] && IsSpace(s[0]) then TrimStart(s[1..]) else s
  }

  /** The text with its trailing white space removed. */
  function TrimEnd(s: string): (r: string)
    ensures |r| <= |s| && r == s[..|r|]
    ensures r == [] || !IsSpace(r[|r| - 1])
    ensures forall k :: |r| <= k < |s| ==> IsSpace(s[k])
  {
    if s != [] && IsSpace(s[|s| - 1]) then TrimEnd(s[..|s| - 1]) else s
  }

  /** `String.prototype.trim`. */
  function Trim(s: string): string {
    TrimEnd(TrimStart(s))
  }

  /** Trimmed text neither starts nor ends with white space. */
  lemma {:induction false} TrimEnds(s: string)
    ensures var t := Trim(s); t == [] || (!IsSpace(t[0]) && !IsSpace(t[|t| - 1]))
  {
    var u := TrimStart(s);
    var t := TrimEnd(u);
    if t != [] {
      assert t[0] == u[0];
    }
  }

  /**
   * Trimming keeps a contiguous middle part of the text and removes only
   * white space around it.
   */
  lemma {:induction false} TrimKeepsMiddle(s: string)
    ensures var t, i := Trim(s), |s| - |TrimStart(s)|;
      && 0 <= i <= |s| - |t| && t == s[i..i + |t|]
      && (forall k :: 0 <= k < i ==> IsSpace(s[k]))
      && (forall k :: i + |t| <= k < |s| ==> IsSpace(s[k]))
  {
    var u := TrimStart(s);
    var t := TrimEnd(u);
    var i := |s| - |u|;
    assert t == s[i..i + |t|] by {
      assert u == s[i..];
      assert t == u[..|t|];
    }
    forall k | i + |t| <= k < |s|
      ensures IsSpace(s[k])
    {
      assert s[k] == u[k - i];
    }
  }

  /** Trimming leaves nothing exactly when the text is all white space. */
  lemma {:induction false} TrimEmptyIffBlank(s: string)
    ensures Trim(s) == [] <==> forall k :: 0 <= k < |s| ==> IsSpace(s[k])
  {
    var u := TrimStart(s);
    var i := |s| - |u|;
    if TrimEnd(u) == [] {
      assert u == [];
    } else {
      assert TrimEnd(u)[0] == s[i];
    }
  }

  /** The text of a leaf as the scanner sees it: line breaks deleted, then trimmed. */
  function Normalize(s: string): string {
    Trim(StripLineBreaks(s))
  }

  /** The text after its leading run of non-white-space characters. */
  function DropNonSpaces(s: string): (r: string)
    ensures |r| <= |s| && r == s[|s| - |r|..]
    ensures r == [] || IsSpace(r[0])
    ensures forall k :: 0 <= k < |s| - |r| ==> !IsSpace(s[k])
    ensures s != [] && !IsSpace(s[0]) ==> |r| < |s|
  {
    if s != [] && !IsSpace(s[0]) then DropNonSpaces(s[1..]) else s
  }

  /**
   * The number of matches of `\S+\s*` (global) in `s`: the scanner skips white
   * space it cannot start a match on; each match takes a maximal run of
   * non-white space and the white space after it.
   */
  function MatchCount(s: string): nat
    decreases |s|
  {
    if s == [] then 0
    else if IsSpace(s[0]) then MatchCount(s[1..])
    else 1 + MatchCount(TrimStart(DropNonSpaces(s)))
  }

  /**
   * The reference count of words: a word begins at every non-white-space
   * character that is the first of the text (`afterSpace` initially true)
   * or follows a white-space character.
   */
  function WordStarts(s: string, afterSpace: bool): nat {
    if s == [] then 0
    else (if afterSpace && !IsSpace(s[0]) then 1 else 0) + WordStarts(s[1..], IsSpace(s[0]))
  }

  /** Inside a word nothing new begins until the next white space. */
  lemma {:induction false} WordStartsSkipsWord(s: string)
    ensures WordStarts(s, false) == WordStarts(DropNonSpaces(s), false)
  {
    if s != [] && !IsSpace(s[0]) {
      WordStartsSkipsWord(s[1..]);
    }
  }

  /** Leading white space begins no word. */
  lemma {:induction false} WordStartsSkipsSpaces(s: string)
    ensures WordStarts(s, true) == WordStarts(TrimStart(s), true)
  {
    if s != [] && IsSpace(s[0]) {
      WordStartsSkipsSpaces(s[1..]);
    }
  }

  /** The regular-expression count is the number of places where a word begins. */
  lemma {:induction false} MatchCountIsWordStarts(s: string)
    ensures MatchCount(s) == WordStarts(s, true)
    decreases |s|
  {
    if s == [] {
    } else if IsSpace(s[0]) {
      MatchCountIsWordStarts(s[1..]);
    } else {
      var rest := DropNonSpaces(s);
      WordStartsSkipsWord(s[1..]);
      assert DropNonSpaces(s[1..]) == rest;
      assert WordStarts(rest, false) == WordStarts(rest, true);
      WordStartsSkipsSpaces(rest);
      MatchCountIsWordStarts(TrimStart(rest));
    }
  }

  /** The length of the global match of `\S+\s*` on the normalised text of a leaf. */
  function WordCount(s: string): nat {
    MatchCount(Normalize(s))
  }

  /**
   * A leaf whose normalised text is not empty has at least one word, so the
   * source's `match(...)` never yields `null` on the texts it is applied to;
   * an empty one has none.
   */
  lemma {:induction false} WordCountPositive(s: string)
    ensures Normalize(s) != [] <==> WordCount(s) >= 1
  {
    TrimEnds(StripLineBreaks(s));
  }

  lemma {:induction false} NoLineBreaksKept(s: string)
    requires forall i :: 0 <= i < |s| ==> !IsLineBreak(s[i])
    ensures StripLineBreaks(s) == s
  {
    if s != [] {
      NoLineBreaksKept(s[..|s| - 1]);
    }
  }

  /** A single run of non-white space, with white space after it, is one match. */
  lemma {:induction false} OneWordOneMatch(w: string, sp: string)
    requires w != [] && forall i :: 0 <= i < |w| ==> !IsSpace(w[i])
    requires forall i :: 0 <= i < |sp| ==> IsSpace(sp[i])
    ensures MatchCount(w + sp) == 1
  {
    RunDropped(w, sp);
    SpacesTrimmed(sp);
  }

  lemma {:induction false} RunDropped(w: string, rest: string)
    requires forall i :: 0 <= i < |w| ==> !IsSpace(w[i])
    requires rest == [] || IsSpace(rest[0])
    ensures DropNonSpaces(w + rest) == rest
  {
    if w != [] {
      assert (w + rest)[1..] == w[1..] + rest;
      RunDropped(w[1..], rest);
    }
  }

  lemma {:induction false} SpacesTrimmed(sp: string)
    requires forall i :: 0 <= i < |sp| ==> IsSpace(sp[i])
    ensures TrimStart(sp) == []
  {
    if sp != [] {
      SpacesTrimmed(sp[1..]);
    }
  }

  /**
   * Line breaks are deleted, not turned into spaces: two words separated
   * only by a line break (`foo` and `bar` in `"foo\nbar"`) count as one.
   */
  lemma {:induction false} LineBreakJoinsWords(a: string, b: string)
    requires a != [] && forall i :: 0 <= i < |a| ==> !IsSpace(a[i])
    requires b != [] && forall i :: 0 <= i < |b| ==> !IsSpace(b[i])
    ensures WordCount(a + "\n" + b) == 1
  {
    var ab := a + b;
    assert forall i :: 0 <= i < |ab| ==> !IsSpace(ab[i]);
    assert StripLineBreaks(a + "\n" + b) == ab by {
      StripLineBreaksAppend(a + "\n", b);
      StripLineBreaksAppend(a, "\n");
      NoLineBreaksKept(a);
      NoLineBreaksKept(b);
      assert StripLineBreaks("\n") == [];
    }
    assert Trim(ab) == ab;
    assert MatchCount(ab) == 1 by {
      OneWordOneMatch(ab, []);
      assert ab + [] == ab;
    }
  }

  /* ---------------- the content tree ---------------- */

  /**
   * A node of the tracked element's subtree: a text leaf, carrying the
   * vertical extent the geometry provider reports for it in document
   * coordinates, or any other node, carrying its children in order.
   */
  datatype DomNode =
    | Text(value: string, top: real, bottom: real)
    | Element(children: seq<DomNode>)

  /** One measured text unit. */
  datatype TextUnit = TextUnit(top: real, bottom: real, words: nat)

  /** The text leaves of a subtree in document order; elements are never leaves. */
  function Leaves(n: DomNode): (ls: seq<DomNode>)
    ensures forall i :: 0 <= i < |ls| ==> ls[i].Text?
    ensures n.Text? ==> ls == [n]
    decreases n
  {
    match n
    case Text(_, _, _) => [n]
    case Element(cs) => LeavesOf(cs)
  }

  /** The text leaves of a sequence of sibling subtrees, in order. */
  function LeavesOf(cs: seq<DomNode>): (ls: seq<DomNode>)
    ensures forall i :: 0 <= i < |ls| ==> ls[i].Text?
    decreases cs
  {
    if cs == [] then [] else LeavesOf(cs[..|cs| - 1]) + Leaves(cs[|cs| - 1])
  }

  /**
   * The unit the scanner records for a text leaf whose normalised text is not
   * empty: it spans the leaf, and its words are the word starts of the
   * normalised text, at least one.
   */
  function UnitOf(leaf: DomNode): (u: TextUnit)
    requires leaf.Text?
    ensures u.top == leaf.top && u.bottom == leaf.bottom
    ensures u.words == WordStarts(Normalize(leaf.value), true)
    ensures Contributes(leaf) ==> u.words >= 1
  {
    MatchCountIsWordStarts(Normalize(leaf.value));
    WordCountPositive(leaf.value);
    TextUnit(leaf.top, leaf.bottom, WordCount(leaf.value))
  }

  /** A leaf contributes a unit exactly when its normalised text is not empty. */
  predicate Contributes(leaf: DomNode) {
    leaf.Text? && Normalize(leaf.value) != []
  }

  /** The units of a sequence of leaves: one per contributing leaf, in order. */
  function Measure(ls: seq<DomNode>): seq<TextUnit>
  {
    if ls == [] then []
    else
      var last := ls[|ls| - 1];
      Measure(ls[..|ls| - 1]) + (if Contributes(last) then [UnitOf(last)] else [])
  }

  lemma {:induction false} MeasureAppend(a: seq<DomNode>, b: seq<DomNode>)
    ensures Measure(a + b) == Measure(a) + Measure(b)
    decreases |b|
  {
    if b != [] {
      var b' := b[..|b| - 1];
      assert (a + b)[..|a + b| - 1] == a + b';
      MeasureAppend(a, b');
    } else {
      assert a + b == a;
    }
  }

  /** A text leaf measures to its own unit, or to nothing when its text is blank. */
  lemma {:induction false} MeasureTextLeaf(n: DomNode)
    requires n.Text?
    ensures Measure(Leaves(n)) == if Contributes(n) then [UnitOf(n)] else []
  {
    assert [n][..0] == [];
  }

  /** The leaves of a prefix of siblings grow by the leaves of the next sibling. */
  lemma {:induction false} LeavesOfSnoc(cs: seq<DomNode>, i: nat)
    requires i < |cs|
    ensures LeavesOf(cs[..i + 1]) == LeavesOf(cs[..i]) + Leaves(cs[i])
  {
    assert cs[..i + 1][..i] == cs[..i];
  }

  /** Units measured sibling by sibling are the units of the siblings' leaves together. */
  lemma {:induction false} MeasureSiblingsStep(acc: seq<TextUnit>, cs: seq<DomNode>, i: nat)
    requires i < |cs|
    ensures acc + Measure(LeavesOf(cs[..i])) + Measure(Leaves(cs[i]))
            == acc + Measure(LeavesOf(cs[..i + 1]))
  {
    LeavesOfSnoc(cs, i);
    MeasureAppend(LeavesOf(cs[..i]), Leaves(cs[i]));
  }

  /** The number of contributing leaves. */
  function ContributingCount(ls: seq<DomNode>): nat {
    if ls == [] then 0
    else ContributingCount(ls[..|ls| - 1]) + (if Contributes(ls[|ls| - 1]) then 1 else 0)
  }

  /** The sum of the words of some units. */
  function TotalWords(units: seq<TextUnit>): nat {
    if units == [] then 0 else TotalWords(units[..|units| - 1]) + units[|units| - 1].words
  }

  /** The sum of the word counts of some text leaves. */
  function LeafWords(ls: seq<DomNode>): nat
    requires forall i :: 0 <= i < |ls| ==> ls[i].Text?
  {
    if ls == [] then 0 else LeafWords(ls[..|ls| - 1]) + WordCount(ls[|ls| - 1].value)
  }

  /**
   * Measuring loses nothing: there is one unit per contributing leaf, every
   * unit has at least one word, and the units hold all the words of the
   * leaves (a leaf left out has none).
   */
  lemma {:induction false} MeasureFaithful(ls: seq<DomNode>)
    requires forall i :: 0 <= i < |ls| ==> ls[i].Text?
    ensures |Measure(ls)| == ContributingCount(ls)
    ensures forall i :: 0 <= i < |Measure(ls)| ==> Measure(ls)[i].words >= 1
    ensures TotalWords(Measure(ls)) == LeafWords(ls)
  {
    if ls != [] {
      var init, last := ls[..|ls| - 1], ls[|ls| - 1];
      MeasureFaithful(init);
      WordCountPositive(last.value);
      TotalWordsAppend(Measure(init), if Contributes(last) then [UnitOf(last)] else []);
    }
  }

  lemma {:induction false} TotalWordsAppend(a: seq<TextUnit>, b: seq<TextUnit>)
    ensures TotalWords(a + b) == TotalWords(a) + TotalWords(b)
    decreases |b|
  {
    if b != [] {
      var b' := b[..|b| - 1];
      assert (a + b)[..|a + b| - 1] == a + b';
      TotalWordsAppend(a, b');
    } else {
      assert a + b == a;
    }
  }

  /** Every unit spans a positive height, so its read fraction is defined. */
  predicate WellMeasured(units: seq<TextUnit>) {
    forall i :: 0 <= i < |units| ==> units[i].top < units[i].bottom
  }

  /** The geometry provider gives every contributing leaf of the tree a positive height. */
  predicate LeavesMeasurable(n: DomNode) {
    ContributorsMeasurable(Leaves(n))
  }

  /** Every contributing leaf among `ls` spans a positive height. */
  predicate ContributorsMeasurable(ls: seq<DomNode>) {
    forall i :: 0 <= i < |ls| ==> Contributes(ls[i]) ==> ls[i].top < ls[i].bottom
  }

  lemma {:induction false} MeasureWellMeasured(ls: seq<DomNode>)
    requires ContributorsMeasurable(ls)
    ensures WellMeasured(Measure(ls))
  {
    if ls != [] {
      var init, last := ls[..|ls| - 1], ls[|ls| - 1];
      assert ContributorsMeasurable(init);
      MeasureWellMeasured(init);
      WellMeasuredAppend(Measure(init), if Contributes(last) then [UnitOf(last)] else []);
    }
  }

  /** The units scanned from a measurable tree all have a positive height. */
  lemma {:induction false} TreeWellMeasured(n: DomNode)
    requires LeavesMeasurable(n)
    ensures WellMeasured(Measure(Leaves(n)))
  {
    MeasureWellMeasured(Leaves(n));
  }

  lemma {:induction false} WellMeasuredAppend(a: seq<TextUnit>, b: seq<TextUnit>)
    requires WellMeasured(a) && WellMeasured(b)
    ensures WellMeasured(a + b)
  {
  }
}
