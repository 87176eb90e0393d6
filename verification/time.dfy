/** Time-of-day arithmetic shared by every part of the studio code: reading
    "HH:MM" into minutes since midnight, writing minutes back as a clock
    label, durations in hours, the half-open overlap test, and the three
    ways the code computes a booking's end time from its start and duration. */
module Time {
  import opened Wrappers
  import opened Strings

  function Pow10(n: nat): (p: nat)
    ensures p >= 1
  {
    if n == 0 then 1 else 10 * Pow10(n - 1)
  }

  /** `Number(s)` for the numerals the code writes into time fields: a run of
      digits, optionally followed by '.' and another run of digits. Anything
      else is `None`, standing for NaN. */
  function ParseNumeral(s: string): (r: Option<real>)
    ensures r.Some? ==> r.value >= 0.0
  {
    match IndexOf(s, '.')
    case None =>
      if |s| > 0 && AllDigits(s) then Some(DecValue(s) as real) else None
    case Some(i) =>
      var whole, frac := s[..i], s[i + 1..];
      if |whole| > 0 && |frac| > 0 && AllDigits(whole) && AllDigits(frac)
      then Some(DecValue(whole) as real + DecValue(frac) as real / Pow10(|frac|) as real)
      else None
  }

  /** Minutes since midnight of "H:M": `const [h, m] = s.split(':').map(Number); h * 60 + m`.
      `None` where the source computes NaN. */
  function ParseTime(s: string): Option<real> {
    match IndexOf(s, ':')
    case None => None
    case Some(i) =>
      match (ParseNumeral(s[..i]), ParseNumeral(s[i + 1..]))
      case (Some(h), Some(m)) => Some(h * 60.0 + m)
      case _ => None
  }

  /** A time without a colon is NaN, and a time that reads as a number is never negative. */
  lemma ParseTimeFacts(s: string)
    ensures (forall j :: 0 <= j < |s| ==> s[j] != ':') ==> ParseTime(s).None?
    ensures ParseTime(s).Some? ==> ParseTime(s).value >= 0.0
  {
    IndexOfFirst(s, ':');
  }

  /** The whole hour and minute fields of a "H:M" label made of digits only. */
  function ClockParts(s: string): (r: Option<(nat, nat)>)
    ensures r.Some? ==> ParseTime(s) == Some((r.value.0 * 60 + r.value.1) as real)
  {
    match IndexOf(s, ':')
    case None => None
    case Some(i) =>
      var hs, ms := s[..i], s[i + 1..];
      if |hs| > 0 && |ms| > 0 && AllDigits(hs) && AllDigits(ms) then
        NumeralOfDigits(hs);
        NumeralOfDigits(ms);
        Some((DecValue(hs), DecValue(ms)))
      else None
  }

  /** The minute of the day a whole-field label names. */
  function ClockMinutes(s: string): nat
    requires ClockParts(s).Some?
  {
    ClockParts(s).value.0 * 60 + ClockParts(s).value.1
  }

  lemma NumeralOfDigits(s: string)
    requires |s| > 0 && AllDigits(s)
    ensures ParseNumeral(s) == Some(DecValue(s) as real)
  {
    DigitsHaveNo(s, '.');
    IndexOfFirst(s, '.');
  }

  /** `${pad2(h)}:${pad2(m)}`. */
  function FormatClock(h: nat, m: nat): string {
    Pad2(h) + ":" + Pad2(m)
  }

  /** The first `c` in `p + [c] + rest` is the one after `p` when `p` has none. */
  lemma {:induction false} IndexOfAfter(p: string, c: char, rest: string)
    requires forall j :: 0 <= j < |p| ==> p[j] != c
    ensures IndexOf(p + [c] + rest, c) == Some(|p|)
    decreases |p|
  {
    if |p| > 0 {
      assert (p + [c] + rest)[1..] == p[1..] + [c] + rest;
      IndexOfAfter(p[1..], c, rest);
    }
  }

  /** "H:M" reads as its two numerals when the hour field holds no colon. */
  lemma SplitAtColon(hs: string, ms: string)
    requires forall j :: 0 <= j < |hs| ==> hs[j] != ':'
    ensures ParseTime(hs + ":" + ms) ==
      (if ParseNumeral(hs).Some? && ParseNumeral(ms).Some?
       then Some(ParseNumeral(hs).value * 60.0 + ParseNumeral(ms).value) else None)
  {
    var s := hs + ":" + ms;
    IndexOfAfter(hs, ':', ms);
    assert s[..|hs|] == hs;
    assert s[|hs| + 1..] == ms;
  }

  lemma DigitsHaveNo(s: string, c: char)
    requires AllDigits(s) && !IsDigit(c)
    ensures forall j :: 0 <= j < |s| ==> s[j] != c
  {
  }

  /** A label's fields are the hour and minute it was written from. */
  lemma ClockPartsOfLabel(h: nat, m: nat)
    ensures ClockParts(FormatClock(h, m)) == Some((h, m))
  {
    var hs, ms := Pad2(h), Pad2(m);
    var s := hs + ":" + ms;
    DigitsHaveNo(hs, ':');
    IndexOfAfter(hs, ':', ms);
    assert s[..|hs|] == hs;
    assert s[|hs| + 1..] == ms;
  }

  /** A label reads back as the hour and minute it was written from. */
  lemma ParseFormatClock(h: nat, m: nat)
    ensures ClockParts(FormatClock(h, m)) == Some((h, m))
    ensures ParseTime(FormatClock(h, m)) == Some((h * 60 + m) as real)
  {
    ClockPartsOfLabel(h, m);
    ClockPartsParse(FormatClock(h, m), h, m);
  }

  lemma ClockPartsParse(s: string, h: nat, m: nat)
    requires ClockParts(s) == Some((h, m))
    ensures ParseTime(s) == Some((h * 60 + m) as real)
  {
  }

  /** The clock label of minute-of-day m, as slot generation writes it. */
  function Clock(m: nat): string {
    FormatClock(m / 60, m % 60)
  }

  /** A well-formed "HH:MM" label: two digits, a colon, two digits, minutes below 60. */
  predicate IsClockLabel(s: string) {
    |s| == 5 && s[2] == ':' && AllDigits(s[..2]) && AllDigits(s[3..]) && DecValue(s[3..]) < 60
  }

  /** Writing minute m and reading it back gives m, and the label is well formed
      whenever the hour has two digits. */
  lemma ClockRoundTrip(m: nat)
    ensures ParseTime(Clock(m)) == Some(m as real)
    ensures m < 6000 ==> IsClockLabel(Clock(m))
  {
    ParseFormatClock(m / 60, m % 60);
    if m < 6000 {
      var s := Clock(m);
      assert s[..2] == Pad2(m / 60);
      assert s[3..] == Pad2(m % 60);
    }
  }

  // ---------------------------------------------------------------------------
  // Durations and overlap.

  /** JavaScript `+` and `*` on numbers that may be NaN (None): NaN in, NaN out. */
  function AddNum(a: Option<real>, b: Option<real>): (r: Option<real>)
    ensures r.Some? <==> a.Some? && b.Some?
    ensures r.Some? ==> r.value == a.value + b.value
  {
    if a.Some? && b.Some? then Some(a.value + b.value) else None
  }

  lemma AddNumAssoc(a: Option<real>, b: Option<real>, c: Option<real>)
    ensures AddNum(AddNum(a, b), c) == AddNum(a, AddNum(b, c))
  {
  }

  function MulNum(a: Option<real>, k: real): (r: Option<real>)
    ensures r.Some? <==> a.Some?
    ensures r.Some? ==> r.value == a.value * k
  {
    if a.Some? then Some(a.value * k) else None
  }

  /** `calculateDuration`: ((eh*60+em) - (sh*60+sm)) / 60, with no clamping;
      NaN (None) when either time does not read as a number. */
  function DurationHours(start: string, end: string): (d: Option<real>)
    ensures d.Some? <==> ParseTime(start).Some? && ParseTime(end).Some?
    ensures d.Some? ==> d.value * 60.0 == ParseTime(end).value - ParseTime(start).value
  {
    var s, e := ParseTime(start), ParseTime(end);
    if s.Some? && e.Some? then Some((e.value - s.value) / 60.0) else None
  }

  /** Swapping the ends negates the duration. */
  lemma DurationAntisymmetric(a: string, b: string)
    ensures DurationHours(a, b).Some? == DurationHours(b, a).Some?
    ensures DurationHours(a, b).Some? ==> DurationHours(a, b).value == -DurationHours(b, a).value
  {
  }

  /** A label written from h:m reads back as h*60+m minutes and as the fields h, m. */
  lemma LabelReads(h: nat, m: nat, s: string)
    requires s == FormatClock(h, m)
    ensures ParseTime(s) == Some((h * 60 + m) as real)
    ensures ClockParts(s) == Some((h, m))
  {
    ParseFormatClock(h, m);
  }

  /** The half-open intervals [s, e) and [bs, be) share a minute. */
  predicate Overlaps(s: real, e: real, bs: real, be: real) {
    s < be && bs < e
  }

  /** Overlap on parsed times: false whenever one of them is NaN, because every
      comparison with NaN is false. */
  predicate OverlapsParsed(s: Option<real>, e: Option<real>, bs: Option<real>, be: Option<real>) {
    s.Some? && e.Some? && bs.Some? && be.Some? && Overlaps(s.value, e.value, bs.value, be.value)
  }

  lemma OverlapsSymmetric(s: real, e: real, bs: real, be: real)
    ensures Overlaps(s, e, bs, be) <==> Overlaps(bs, be, s, e)
  {
  }

  /** Intervals that only touch do not overlap; any non-empty interval overlaps itself. */
  lemma OverlapsExamples()
    ensures !Overlaps(600.0, 660.0, 660.0, 720.0)
    ensures Overlaps(600.0, 690.0, 660.0, 720.0)
    ensures forall s: real, e: real :: s < e ==> Overlaps(s, e, s, e)
  {
  }

  // ---------------------------------------------------------------------------
  // End time of a booking from its start label and its duration. A duration
  // is a number of half hours (the booking form offers 1, 1.5, 2, 2.5 and 3 h).

  function Hours(halfHours: nat): real {
    halfHours as real / 2.0
  }

  /** The newer code (`useBookingRealtime`, `StationSelector`):
      hour + floor(d), then minute + (d % 1) * 60, with no carry into the hour. */
  function EndTimeNoCarry(start: string, halfHours: nat): string
    requires ClockParts(start).Some?
  {
    var (h, m) := ClockParts(start).value;
    FormatClock(h + halfHours / 2, m + (halfHours % 2) * 30)
  }

  /** The older code (`useBooking`): `(hour + d).toString().padStart(2, '0')`
      followed by the start minute; a half-hour duration leaves "x.5" in the hour field. */
  function EndTimeLegacy(start: string, halfHours: nat): string
    requires ClockParts(start).Some?
  {
    LegacyLabel(ClockParts(start).value.0, ClockParts(start).value.1, halfHours)
  }

  /** The older end label on the start's fields h:m. */
  function LegacyLabel(h: nat, m: nat, halfHours: nat): string {
    var hourField := if halfHours % 2 == 0 then Pad2(h + halfHours / 2) else NatToDec(h + halfHours / 2) + ".5";
    hourField + ":" + Pad2(m)
  }

  /** The end time with the carry done: the clock label of start + d * 60 minutes. */
  function EndTimeCarried(start: string, halfHours: nat): string
    requires ClockParts(start).Some?
  {
    Clock(ClockMinutes(start) + 30 * halfHours)
  }

  /** The carried label reads back as start + d * 60 minutes and is a
      well-formed clock label while the hour has two digits. */
  lemma EndTimeCarriedMeaning(start: string, halfHours: nat)
    requires ClockParts(start).Some?
    ensures ParseTime(EndTimeCarried(start, halfHours)) == Some((ClockMinutes(start) + 30 * halfHours) as real)
    ensures ClockMinutes(start) + 30 * halfHours < 6000 ==> IsClockLabel(EndTimeCarried(start, halfHours))
  {
    ClockRoundTrip(ClockMinutes(start) + 30 * halfHours);
  }

  lemma NoCarryFields(start: string, h: nat, m: nat, halfHours: nat)
    requires ClockParts(start) == Some((h, m))
    ensures EndTimeNoCarry(start, halfHours) == FormatClock(h + halfHours / 2, m + (halfHours % 2) * 30)
  {
  }

  /** `FormatClock(h, m)` is a well-formed clock label exactly when both fields have two digits
      and the minute is below 60. */
  lemma FormatClockIsLabel(h: nat, m: nat)
    ensures IsClockLabel(FormatClock(h, m)) <==> h < 100 && m < 60
  {
    var s := FormatClock(h, m);
    if h < 100 && m < 100 {
      assert s[..2] == Pad2(h) && s[3..] == Pad2(m);
    }
  }

  /** The no-carry label reads back as start + d * 60 minutes, even when its
      minute field is 60 or more. */
  lemma NoCarryFieldsParse(h: nat, m: nat, halfHours: nat)
    ensures ParseTime(FormatClock(h + halfHours / 2, m + (halfHours % 2) * 30))
            == Some((h * 60 + m) as real + 30.0 * halfHours as real)
  {
    ParseFormatClock(h + halfHours / 2, m + (halfHours % 2) * 30);
    MinutesOfFields(h, m, halfHours);
  }

  /** For a start label with fields h:m, the no-carry end label still reads back
      as the right minute count, and (with a two-digit hour) it is a well-formed
      clock label exactly when no carry was due. */
  lemma EndTimeNoCarryMeaning(start: string, h: nat, m: nat, halfHours: nat)
    requires ClockParts(start) == Some((h, m))
    ensures ParseTime(EndTimeNoCarry(start, halfHours))
            == Some((h * 60 + m) as real + 30.0 * halfHours as real)
    ensures h + halfHours / 2 < 100 ==>
            (IsClockLabel(EndTimeNoCarry(start, halfHours)) <==> m + (halfHours % 2) * 30 < 60)
  {
    NoCarryFields(start, h, m, halfHours);
    NoCarryFieldsParse(h, m, halfHours);
    FormatClockIsLabel(h + halfHours / 2, m + (halfHours % 2) * 30);
  }

  /** Advancing the hour by floor(d) and the minute by (d % 1) * 60 adds d * 60 minutes. */
  lemma MinutesOfFields(h: nat, m: nat, halfHours: nat)
    ensures ((h + halfHours / 2) * 60 + m + (halfHours % 2) * 30) as real
            == (h * 60 + m) as real + 30.0 * halfHours as real
  {
  }

  /** 09:30 plus 1.5 hours is written "10:60". */
  lemma EndTimeNoCarryExample()
    ensures EndTimeNoCarry("09:30", 3) == "10:60"
    ensures !IsClockLabel("10:60")
  {
    ParseFormatClock(9, 30);
    assert FormatClock(9, 30) == "09:30";
    assert FormatClock(10, 60) == "10:60";
    FormatClockIsLabel(10, 60);
  }

  /** A numeral with a fraction reads as its whole part plus the scaled fraction. */
  lemma FractionNumeral(whole: string, frac: string)
    requires |whole| > 0 && AllDigits(whole) && |frac| > 0 && AllDigits(frac)
    ensures ParseNumeral(whole + "." + frac).Some?
    ensures ParseNumeral(whole + "." + frac).value
            == DecValue(whole) as real + DecValue(frac) as real / Pow10(|frac|) as real
  {
    var f := whole + "." + frac;
    DigitsHaveNo(whole, '.');
    IndexOfAfter(whole, '.', frac);
    assert whole + ['.'] + frac == f;
    assert f[..|whole|] == whole;
    assert f[|whole| + 1..] == frac;
  }

  lemma FiveValue()
    ensures AllDigits("5") && DecValue("5") == 5
  {
    assert "5"[..0] == "";
  }

  /** "n.5" reads as n + 0.5. */
  lemma {:induction false} HalfNumeral(n: nat)
    ensures ParseNumeral(NatToDec(n) + ".5").Some?
    ensures ParseNumeral(NatToDec(n) + ".5").value == n as real + 0.5
  {
    var w := NatToDec(n);
    var f := w + ".5";
    assert f == w + "." + "5";
    FiveValue();
    FractionNumeral(w, "5");
  }

  /** The older label also reads back as the right minute count, but it is a
      well-formed clock label only for whole-hour durations. */
  lemma EndTimeLegacyMeaning(start: string, h: nat, m: nat, halfHours: nat)
    requires ClockParts(start) == Some((h, m))
    ensures ParseTime(EndTimeLegacy(start, halfHours))
            == Some((h * 60 + m) as real + 30.0 * halfHours as real)
    ensures halfHours % 2 == 1 ==> !IsClockLabel(EndTimeLegacy(start, halfHours))
  {
    var e := EndTimeLegacy(start, halfHours);
    assert e == LegacyLabel(h, m, halfHours);
    LegacyLabelParse(h, m, halfHours);
    if halfHours % 2 == 1 {
      LegacyHalfNotLabel(h + halfHours / 2, m);
    }
  }

  /** The older label on fields h:m reads back as h:m plus the duration. */
  lemma LegacyLabelParse(h: nat, m: nat, halfHours: nat)
    ensures ParseTime(LegacyLabel(h, m, halfHours)).Some?
    ensures ParseTime(LegacyLabel(h, m, halfHours)).value == (h * 60 + m) as real + 30.0 * halfHours as real
  {
    if halfHours % 2 == 0 {
      LegacyEvenParse(h, m, halfHours);
    } else {
      LegacyOddParse(h, m, halfHours);
    }
  }

  lemma LegacyEvenParse(h: nat, m: nat, halfHours: nat)
    requires halfHours % 2 == 0
    ensures ParseTime(LegacyLabel(h, m, halfHours)).Some?
    ensures ParseTime(LegacyLabel(h, m, halfHours)).value == (h * 60 + m) as real + 30.0 * halfHours as real
  {
    var eh := h + halfHours / 2;
    assert LegacyLabel(h, m, halfHours) == FormatClock(eh, m);
    ParseFormatClock(eh, m);
    MinutesOfFields(h, m, halfHours);
  }

  lemma LegacyOddParse(h: nat, m: nat, halfHours: nat)
    requires halfHours % 2 == 1
    ensures ParseTime(LegacyLabel(h, m, halfHours)).Some?
    ensures ParseTime(LegacyLabel(h, m, halfHours)).value == (h * 60 + m) as real + 30.0 * halfHours as real
  {
    var eh := h + halfHours / 2;
    var s := LegacyLabel(h, m, halfHours);
    LegacyOddLabel(h, m, halfHours);
    LegacyHalfParse(eh, m);
    OddHalfMinutes(h, m, halfHours);
  }

  lemma LegacyOddLabel(h: nat, m: nat, halfHours: nat)
    requires halfHours % 2 == 1
    ensures LegacyLabel(h, m, halfHours) == NatToDec(h + halfHours / 2) + ".5" + ":" + Pad2(m)
  {
  }

  /** An odd number of half hours adds its whole hours and one half hour. */
  lemma OddHalfMinutes(h: nat, m: nat, halfHours: nat)
    requires halfHours % 2 == 1
    ensures ((h + halfHours / 2) * 60 + 30 + m) as real == (h * 60 + m) as real + 30.0 * halfHours as real
  {
    assert halfHours == 2 * (halfHours / 2) + 1;
  }

  /** "n.5:mm" reads as n hours 30 plus mm minutes. */
  lemma LegacyHalfParse(eh: nat, m: nat)
    ensures ParseTime(NatToDec(eh) + ".5" + ":" + Pad2(m)).Some?
    ensures ParseTime(NatToDec(eh) + ".5" + ":" + Pad2(m)).value == (eh * 60 + 30 + m) as real
  {
    var whole := NatToDec(eh);
    var hourField := whole + ".5";
    var ms := Pad2(m);
    HalfFieldHasNoColon(whole);
    HalfNumeral(eh);
    NumeralOfDigits(ms);
    SplitAtColon(hourField, ms);
    var hv, mv := ParseNumeral(hourField), ParseNumeral(ms);
    assert hv.value == eh as real + 0.5;
    assert mv.value == m as real;
    var r := ParseTime(hourField + ":" + ms);
    assert r.value == hv.value * 60.0 + mv.value;
    assert r.value == (eh * 60 + 30 + m) as real;
  }

  lemma HalfFieldHasNoColon(whole: string)
    requires AllDigits(whole)
    ensures forall j :: 0 <= j < |whole + ".5"| ==> (whole + ".5")[j] != ':'
  {
    var f := whole + ".5";
    forall j | 0 <= j < |f| ensures f[j] != ':' {
      if j < |whole| {
        assert f[j] == whole[j] && IsDigit(whole[j]);
      }
    }
  }

  /** "n.5:mm" is not a clock label: its third character is a digit, '.' or '5', never ':'. */
  lemma LegacyHalfNotLabel(eh: nat, m: nat)
    ensures !IsClockLabel(NatToDec(eh) + ".5" + ":" + Pad2(m))
  {
    var whole := NatToDec(eh);
    var s := whole + ".5" + ":" + Pad2(m);
    if |whole| == 1 {
      assert s[2] == '5';
    } else if |whole| == 2 {
      assert s[2] == '.';
    } else {
      assert s[2] == whole[2] && IsDigit(whole[2]);
    }
  }
}
