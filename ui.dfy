/**
 * The user-interface module: the text of the floating indicator, computed
 * from the seconds left, and the two-state shown/hidden toggle of the
 * indicator. Drawing, fading and event binding are DOM work and are
 * represented only by the record of the fades the module asks for.
 */
module Ui {
  import opened Numeric
  import opened Decimal

  /** The text the indicator carries when it is first drawn. */
  const InitialLabel: string := "5m40s left"

  /**
   * `updateText`: the label for `secondsLeft` seconds. By default it shows
   * whole minutes and the remaining seconds; with `minutesOnly` it shows the
   * rounded number of minutes, or `seconds left` when that rounds to zero.
   */
  function Label(secondsLeft: int, minutesOnly: bool): string
  {
    var mins := Floor(secondsLeft as real / 60.0);
    var minsRounded := Round(secondsLeft as real / 60.0);
    var secs := JsRem(secondsLeft, 60);
    var text := IntToString(mins) + "m, " + IntToString(secs) + "s left";
    if minutesOnly then
      if minsRounded == 0 then "seconds left"
      else IntToString(minsRounded) + " minute" + (if minsRounded == 1 then "" else "s") + " left"
    else text
  }

  /** `Math.round(s / 60)` for whole seconds `s` is `floor((s + 30) / 60)`. */
  lemma {:induction false} RoundedMinutes(s: int)
    ensures Round(s as real / 60.0) == (s + 30) / 60
  {
    FloorOfQuotient(s + 30, 60);
    assert s as real / 60.0 + 0.5 == (s + 30) as real / 60 as real;
  }

  /**
   * In the default mode the label splits a non-negative `s` into whole
   * minutes and seconds in `[0, 59]` that add back up to `s`.
   */
  lemma {:induction false} DefaultLabelSplitsSeconds(s: int)
    requires s >= 0
    ensures var mins, secs := s / 60, s % 60;
      && 0 <= secs < 60
      && mins * 60 + secs == s
      && Label(s, false) == NatToString(mins) + "m, " + NatToString(secs) + "s left"
  {
    FloorOfQuotient(s, 60);
  }

  /**
   * With `minutesOnly`, the label is exactly `seconds left` when the
   * seconds round to zero minutes, that is when `-30 <= s < 30`.
   */
  lemma {:induction false} MinutesOnlySecondsLeft(s: int)
    ensures Label(s, true) == "seconds left" <==> -30 <= s < 30
  {
    RoundedMinutes(s);
    var n := (s + 30) / 60;
    if n != 0 {
      MinutesTextIsNotSecondsLeft(n);
    }
  }

  /** A label that names the minutes starts with a digit or a minus sign, never with `s`. */
  lemma {:induction false} MinutesTextIsNotSecondsLeft(n: int)
    ensures IntToString(n) + " minute" + (if n == 1 then "" else "s") + " left" != "seconds left"
  {
    var t := IntToString(n) + " minute" + (if n == 1 then "" else "s") + " left";
    assert t[0] == IntToString(n)[0];
    if n >= 0 {
      assert IsDigit(NatToString(n)[0]);
    }
    assert t[0] != "seconds left"[0];
  }

  /**
   * With `minutesOnly` and at least one rounded minute, the label names the
   * minutes, singular for exactly one.
   */
  lemma {:induction false} MinutesOnlyMinutesLeft(s: int)
    requires s >= 30
    ensures var n := (s + 30) / 60;
      && n >= 1
      && Label(s, true) == NatToString(n) + (if n == 1 then " minute left" else " minutes left")
  {
    RoundedMinutes(s);
  }

  /** 340 seconds read as `5m, 40s left` by default. */
  lemma Example340Default()
    ensures Label(340, false) == "5m, 40s left"
  {
    assert Floor(340 as real / 60.0) == 5;
    assert JsRem(340, 60) == 40;
    TwoDigits(40);
  }

  /** 340 seconds round to `6 minutes left` with `minutesOnly`. */
  lemma Example340MinutesOnly()
    ensures Label(340, true) == "6 minutes left"
  {
    MinutesOnlyMinutesLeft(340);
    assert NatToString(6) == "6";
  }

  /** 10 seconds round to no minute at all. */
  lemma Example10MinutesOnly()
    ensures Label(10, true) == "seconds left"
  {
    MinutesOnlySecondsLeft(10);
  }

  /** 30 seconds round up to one minute, named in the singular. */
  lemma Example30MinutesOnly()
    ensures Label(30, true) == "1 minute left"
  {
    MinutesOnlyMinutesLeft(30);
    assert NatToString(1) == "1";
  }

  /**
   * The fades asked for by one `showFlag` (`show`) or `hideFlag` call on an
   * indicator whose shown state was `shown`: none when it is already in the
   * state asked for, one otherwise.
   */
  function FadesAfter(fades: seq<bool>, shown: bool, show: bool): seq<bool> {
    if show == shown then fades else fades + [show]
  }

  /** Consecutive fades requested of the indicator alternate between in and out. */
  ghost predicate Alternating(fades: seq<bool>) {
    forall i :: 0 < i < |fades| ==> fades[i] != fades[i - 1]
  }

  /**
   * The indicator. `fades` records the fade animations asked of the DOM,
   * `true` for a fade-in, `false` for a fade-out.
   */
  class Flag {
    var flagShown: bool
    var text: string
    var fades: seq<bool>
    const flagHeight: real
    const minutesOnly: bool

    /**
     * The toggle's invariant: the flag is shown exactly when the last fade
     * asked for was a fade-in, and no fade is ever asked for twice in a row.
     */
    ghost predicate Valid()
      reads this
    {
      && Alternating(fades)
      && flagShown == (|fades| > 0 && fades[|fades| - 1])
      && (|fades| > 0 ==> fades[0])
    }

    /** `drawFlagAndBindEventListeners`: a hidden flag with the placeholder text. */
    constructor (flagHeight: real, minutesOnly: bool)
      ensures Valid()
      ensures !flagShown && fades == [] && text == InitialLabel
      ensures this.flagHeight == flagHeight && this.minutesOnly == minutesOnly
    {
      flagShown := false;
      text := InitialLabel;
      fades := [];
      this.flagHeight := flagHeight;
      this.minutesOnly := minutesOnly;
    }

    /** `hideFlag`: fades out a shown flag; on a hidden one it does nothing. */
    method HideFlag()
      requires Valid()
      modifies this`flagShown, this`fades
      ensures Valid()
      ensures !flagShown
      ensures fades == if old(flagShown) then old(fades) + [false] else old(fades)
    {
      if !flagShown {
        return;
      }
      fades := fades + [false];
      flagShown := false;
    }

    /** `showFlag`: fades in a hidden flag; on a shown one it does nothing. */
    method ShowFlag()
      requires Valid()
      modifies this`flagShown, this`fades
      ensures Valid()
      ensures flagShown
      ensures fades == if old(flagShown) then old(fades) else old(fades) + [true]
    {
      if flagShown {
        return;
      }
      fades := fades + [true];
      flagShown := true;
    }

    /** `updateText`: the text now reads the text for `secondsLeft`. */
    method UpdateText(secondsLeft: int)
      modifies this`text
      ensures text == Label(secondsLeft, minutesOnly)
    {
      text := Label(secondsLeft, minutesOnly);
    }
  }

  /** Showing twice in a row asks for the same fades as showing once. */
  method ShowFlagTwice(f: Flag)
    requires f.Valid()
    modifies f`flagShown, f`fades
    ensures f.Valid() && f.flagShown
    ensures f.fades == if old(f.flagShown) then old(f.fades) else old(f.fades) + [true]
  {
    f.ShowFlag();
    f.ShowFlag();
  }

  /** Hiding twice in a row asks for the same fades as hiding once. */
  method HideFlagTwice(f: Flag)
    requires f.Valid()
    modifies f`flagShown, f`fades
    ensures f.Valid() && !f.flagShown
    ensures f.fades == if old(f.flagShown) then old(f.fades) + [false] else old(f.fades)
  {
    f.HideFlag();
    f.HideFlag();
  }
}
