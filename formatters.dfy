/**
 * `formatHoursToDays` (frontend/src/utils/formatters.js): a number of
 * hours as "N Day(s) M Hour(s)". Hours are exact rationals (`real`):
 * `Math.floor` is `Floor`, `Math.round` rounds halves up, and `%` on a
 * positive number keeps the part above the last whole multiple.
 */
module Formatters {
  import opened Wrappers
  import Text

  const HoursPerDay: int := 24

  /** `Math.round`: the nearest integer, halves rounded up. */
  function Round(x: real): (n: int)
    ensures n as real - 0.5 <= x < n as real + 0.5
  {
    (x + 0.5).Floor
  }

  /** `Math.floor(totalHours / 24)`. */
  function Days(h: real): (d: int)
    ensures (HoursPerDay * d) as real <= h < (HoursPerDay * (d + 1)) as real
  {
    (h / HoursPerDay as real).Floor
  }

  /** `totalHours % 24` for a positive `totalHours`. */
  function HoursMod(h: real): (r: real)
    ensures 0.0 <= r < HoursPerDay as real
    ensures h == (HoursPerDay * Days(h)) as real + r
  {
    h - (HoursPerDay * Days(h)) as real
  }

  /** `Math.round(totalHours % 24)`: between 0 and 24, both included. */
  function RemainingHours(h: real): (r: int)
    ensures 0 <= r <= HoursPerDay
  {
    Round(HoursMod(h))
  }

  /** "Day" or "Days", "Hour" or "Hours". */
  function Plural(n: nat, unit: string): string
  {
    if n > 1 then unit + "s" else unit
  }

  /** The words of the output: a day part when there are days, then an hour part when there are hours. */
  function Words(days: nat, hours: nat): seq<string>
  {
    (if days > 0 then [Text.NatToString(days), Plural(days, "Day")] else [])
    + (if hours > 0 then [Text.NatToString(hours), Plural(hours, "Hour")] else [])
  }

  /** The output for a day count and an hour count, once the count is positive. */
  function Compose(days: nat, hours: nat): (r: string)
    ensures r == "< 1 Hour" || (|r| > 0 && Text.IsDigit(r[0]))
  {
    if days == 0 && hours == 0 then "< 1 Hour"
    else
      var w := Words(days, hours);
      Text.JoinEnds(w, ' ');
      assert Text.IsDigit(w[0][0]);
      Text.Join(w, ' ')
  }

  /** The output of `formatHoursToDays` as written. */
  function DurationText(h: real): (r: string)
    ensures r == "N/A" <==> h <= 0.0
    ensures h > 0.0 ==> r == "< 1 Hour" || (|r| > 0 && Text.IsDigit(r[0]))
  {
    if h <= 0.0 then "N/A"
    else Compose(Days(h) as nat, RemainingHours(h) as nat)
  }

  /** "N Day" / "N Days" as the template literal prints it. */
  function Part(n: nat, unit: string): string
  {
    Text.NatToString(n) + " " + Plural(n, unit)
  }

  /** `formatHoursToDays`: the parts are pushed in order, then joined with one space. */
  method FormatHoursToDays(totalHours: real) returns (s: string)
    ensures s == DurationText(totalHours)
  {
    if totalHours <= 0.0 {
      return "N/A";
    }
    var days := (totalHours / HoursPerDay as real).Floor;
    var remainingHours := Round(HoursMod(totalHours));
    var parts: seq<string> := [];
    if days > 0 {
      parts := parts + [Part(days, "Day")];
    }
    if remainingHours > 0 {
      parts := parts + [Part(remainingHours, "Hour")];
    }
    if |parts| == 0 {
      return "< 1 Hour";
    }
    DaysAndRemainder(totalHours);
    PartsJoin(days, remainingHours);
    s := Text.Join(parts, ' ');
  }

  /** The pushed parts, joined with one space, are the composed output. */
  lemma PartsJoin(days: nat, hours: nat)
    requires days > 0 || hours > 0
    ensures Text.Join((if days > 0 then [Part(days, "Day")] else []) + (if hours > 0 then [Part(hours, "Hour")] else []), ' ')
            == Compose(days, hours)
  {
    var w := Words(days, hours);
    if days > 0 && hours > 0 {
      assert Text.Join(w[3..], ' ') == w[3];
      assert Text.Join(w[2..], ' ') == w[2] + " " + w[3];
      assert Text.Join(w[1..], ' ') == w[1] + " " + w[2] + " " + w[3];
    } else {
      assert Text.Join(w[1..], ' ') == w[1];
    }
  }

  // ------------------------------------------------------------ reading back

  /** A count followed by its unit word, singular exactly when the count is 1. */
  function ReadCount(numeral: string, word: string, unit: string): Option<nat>
  {
    if numeral != [] && (forall i :: 0 <= i < |numeral| ==> Text.IsDigit(numeral[i]))
       && Text.DigitsValue(numeral) > 0 && word == Plural(Text.DigitsValue(numeral), unit)
    then Some(Text.DigitsValue(numeral))
    else None
  }

  /** The number of hours the space-separated fields of an output stand for. */
  function ReadFields(w: seq<string>): Option<int>
  {
    if w == ["<", "1", "Hour"] then Some(0)
    else if |w| == 4 then
      match (ReadCount(w[0], w[1], "Day"), ReadCount(w[2], w[3], "Hour"))
      case (Some(d), Some(h)) => Some(HoursPerDay * d + h)
      case _ => None
    else if |w| == 2 then
      match (ReadCount(w[0], w[1], "Day"), ReadCount(w[0], w[1], "Hour"))
      case (Some(d), _) => Some(HoursPerDay * d)
      case (_, Some(h)) => Some(h)
      case _ => None
    else None
  }

  /** The number of hours a formatted duration stands for; "< 1 Hour" reads as 0. */
  function ReadDuration(s: string): Option<int>
  {
    ReadFields(Text.Split(s, ' '))
  }

  lemma NumeralHasNoSpace(n: nat)
    ensures ' ' !in Text.NatToString(n)
  {
  }

  lemma ReadCountOfPart(n: nat, unit: string)
    requires n > 0
    ensures ReadCount(Text.NatToString(n), Plural(n, unit), unit) == Some(n)
  {
    Text.NatToStringRoundTrip(n);
  }

  /** The words of the output are its space-separated fields. */
  lemma {:induction false} ComposeFields(days: nat, hours: nat)
    requires days > 0 || hours > 0
    ensures Text.Split(Compose(days, hours), ' ') == Words(days, hours)
  {
    var w := Words(days, hours);
    NumeralHasNoSpace(days);
    NumeralHasNoSpace(hours);
    assert forall i :: 0 <= i < |w| ==> ' ' !in w[i];
    Text.SplitJoin(w, ' ');
  }

  /** Reading back the words of an output gives its total number of hours. */
  lemma ReadWords(days: nat, hours: nat)
    requires days > 0 || hours > 0
    ensures ReadFields(Words(days, hours)) == Some(HoursPerDay * days + hours)
  {
    if days > 0 { ReadCountOfPart(days, "Day"); }
    if hours > 0 { ReadCountOfPart(hours, "Hour"); }
    var w := Words(days, hours);
    assert w != ["<", "1", "Hour"] by {
      if |w| == 3 { assert false; }
    }
  }

  /** Reading back a composed output gives its total number of hours. */
  lemma ComposeReadsBack(days: nat, hours: nat)
    ensures ReadDuration(Compose(days, hours)) == Some(HoursPerDay * days + hours)
  {
    if days == 0 && hours == 0 {
      LessThanAnHourFields();
    } else {
      ComposeFields(days, hours);
      ReadWords(days, hours);
    }
  }

  lemma LessThanAnHourFields()
    ensures Text.Split("< 1 Hour", ' ') == ["<", "1", "Hour"]
  {
    assert Text.Join(["<", "1", "Hour"], ' ') == "< 1 Hour";
    Text.SplitJoin(["<", "1", "Hour"], ' ');
  }

  /** Whole days and a rounded remainder add up to the rounded total. */
  lemma DaysAndRemainder(h: real)
    requires h > 0.0
    ensures Days(h) >= 0
    ensures HoursPerDay * Days(h) + RemainingHours(h) == Round(h)
  {
    var d := Days(h);
    var x := HoursMod(h);
    assert h == (HoursPerDay * d) as real + x;
    assert (h + 0.5) == (HoursPerDay * d) as real + (x + 0.5);
  }

  /** "N/A" is one field that is no duration. */
  lemma NotApplicableReadsNothing()
    ensures ReadDuration("N/A") == None
  {
    Text.SplitSingle("N/A", ' ');
  }

  /**
   * The output describes the rounded number of hours: reading it back
   * gives `Math.round(h)` for every positive `h`, and nothing for "N/A".
   */
  lemma DurationTextReadsBack(h: real)
    ensures h <= 0.0 ==> DurationText(h) == "N/A" && ReadDuration(DurationText(h)) == None
    ensures h > 0.0 ==> ReadDuration(DurationText(h)) == Some(Round(h))
  {
    if h <= 0.0 {
      NotApplicableReadsNothing();
    } else {
      var d, r := DurationTextIsCompose(h);
      ComposeReadsBack(d, r);
    }
  }

  /** A positive duration is composed from its whole days and its rounded remainder. */
  lemma DurationTextIsCompose(h: real) returns (d: nat, r: nat)
    requires h > 0.0
    ensures d == Days(h) && r == RemainingHours(h)
    ensures DurationText(h) == Compose(d, r)
    ensures HoursPerDay * d + r == Round(h)
  {
    DaysAndRemainder(h);
    d, r := Days(h), RemainingHours(h);
  }

  /** "< 1 Hour" is shown exactly for the positive inputs below one half. */
  lemma BelowOneHour(h: real)
    requires h > 0.0
    ensures DurationText(h) == "< 1 Hour" <==> h < 0.5
  {
    DaysAndRemainder(h);
    var d, r := Days(h) as nat, RemainingHours(h) as nat;
    if d > 0 || r > 0 {
      ComposeFields(d, r);
      LessThanAnHourFields();
      var w := Words(d, r);
      assert Text.IsDigit(w[0][0]);
      assert w != ["<", "1", "Hour"];
    }
  }

  /** A fractional remainder of at least 23.5 is rounded up to a full "24 Hours" beside the days. */
  lemma TwentyFourHoursShown()
    ensures DurationText(23.5) == "24 Hours"
    ensures DurationText(47.5) == "1 Day 24 Hours"
  {
    RoundsUpToADay();
    ComposeExamples();
  }

  /** 23.5 and 47.5 leave a remainder of 23.5, which rounds to 24. */
  lemma RoundsUpToADay()
    ensures DurationText(23.5) == Compose(0, 24)
    ensures DurationText(47.5) == Compose(1, 24)
  {
    assert Days(23.5) == 0;
    assert RemainingHours(23.5) == 24;
    assert Days(47.5) == 1;
    assert RemainingHours(47.5) == 24;
  }

  lemma ComposeExamples()
    ensures Compose(0, 24) == "24 Hours"
    ensures Compose(1, 24) == "1 Day 24 Hours"
  {
    assert Text.NatToString(2) == "2";
    assert Text.NatToString(24) == Text.NatToString(2) + [Text.DigitChar(4)] == "24";
    assert Text.NatToString(1) == "1";
    assert Plural(24, "Hour") == "Hours";
    assert Plural(1, "Day") == "Day";
    var short := Words(0, 24);
    assert short == [Text.NatToString(24), Plural(24, "Hour")];
    JoinFields(short);
    var long := Words(1, 24);
    assert long == [Text.NatToString(1), Plural(1, "Day"), Text.NatToString(24), Plural(24, "Hour")];
    JoinFields(long);
  }

  /** Joining two or four fields with one space. */
  lemma JoinFields(w: seq<string>)
    requires |w| == 2 || |w| == 4
    ensures |w| == 2 ==> Text.Join(w, ' ') == w[0] + " " + w[1]
    ensures |w| == 4 ==> Text.Join(w, ' ') == w[0] + " " + w[1] + " " + w[2] + " " + w[3]
  {
    if |w| == 4 {
      assert Text.Join(w[3..], ' ') == w[3];
      assert Text.Join(w[2..], ' ') == w[2] + " " + w[3];
      assert Text.Join(w[1..], ' ') == w[1] + " " + w[2] + " " + w[3];
    } else {
      assert Text.Join(w[1..], ' ') == w[1];
    }
  }

  // -------------------------------------------------------------- corrected

  /** The intended output: round the total first, then split it into days and hours. */
  function CorrectedDurationText(h: real): (r: string)
    ensures r == "N/A" <==> h <= 0.0
    ensures h > 0.0 ==> r == "< 1 Hour" || (|r| > 0 && Text.IsDigit(r[0]))
  {
    if h <= 0.0 then "N/A"
    else
      var total := Round(h);
      Compose((total / HoursPerDay) as nat, (total % HoursPerDay) as nat)
  }

  /** No hour field of `s` reads as a full day or more. */
  predicate HoursBelowADay(s: string)
  {
    var w := Text.Split(s, ' ');
    && (|w| == 4 && ReadCount(w[2], w[3], "Hour").Some? ==> ReadCount(w[2], w[3], "Hour").value < HoursPerDay)
    && (|w| == 2 && ReadCount(w[0], w[1], "Hour").Some? ==> ReadCount(w[0], w[1], "Hour").value < HoursPerDay)
  }

  /** As written, the hour field can read 24. */
  lemma AsWrittenShowsFullDayOfHours()
    ensures !HoursBelowADay(DurationText(23.5))
  {
    assert DurationText(23.5) == Compose(0, 24) by {
      assert Days(23.5) == 0;
      assert RemainingHours(23.5) == 24;
    }
    ComposeHourField(0, 24);
  }

  /** Words for a composed output: each field reads back as its count. */
  lemma ComposeHourField(days: nat, hours: nat)
    requires days > 0 || hours > 0
    ensures HoursBelowADay(Compose(days, hours)) <==> hours < HoursPerDay
  {
    ComposeFields(days, hours);
    if days > 0 { ReadCountOfPart(days, "Day"); }
    if hours > 0 { ReadCountOfPart(hours, "Hour"); }
    var w := Words(days, hours);
    if days > 0 && hours == 0 {
      assert ReadCount(w[0], w[1], "Hour").None? by {
        ReadCountOfPart(days, "Day");
        assert w[1] == Plural(days, "Day");
      }
    }
  }

  /** Splitting a whole number of hours into days and hours and reading it back gives the number. */
  lemma SplitTotalReadsBack(total: nat)
    ensures ReadDuration(Compose(total / HoursPerDay, total % HoursPerDay)) == Some(total)
  {
    ComposeReadsBack(total / HoursPerDay, total % HoursPerDay);
  }

  /** The corrected output reads back to the same rounded total. */
  lemma CorrectedReadsBack(h: real)
    requires h > 0.0
    ensures ReadDuration(CorrectedDurationText(h)) == Some(Round(h))
  {
    var total: nat := Round(h);
    assert CorrectedDurationText(h) == Compose(total / HoursPerDay, total % HoursPerDay);
    SplitTotalReadsBack(total);
  }

  /** The corrected output never shows a full day as hours. */
  lemma CorrectedHoursBelowADay(h: real)
    requires h > 0.0
    ensures HoursBelowADay(CorrectedDurationText(h))
  {
    var total := Round(h);
    var d, hr := (total / HoursPerDay) as nat, (total % HoursPerDay) as nat;
    if d > 0 || hr > 0 {
      ComposeHourField(d, hr);
    } else {
      LessThanAnHourFields();
    }
  }

  /** Where the rounded remainder is below a day, the corrected output is the output as written. */
  lemma CorrectedAgreesBelowADay(h: real)
    requires h > 0.0 && RemainingHours(h) < HoursPerDay
    ensures CorrectedDurationText(h) == DurationText(h)
  {
    DaysAndRemainder(h);
    var total := Round(h);
    assert total / HoursPerDay == Days(h) && total % HoursPerDay == RemainingHours(h);
  }
}
