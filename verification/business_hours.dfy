/** The studio's business calendar: whether a date is open, its opening
    hours (a default plus per-date exceptions), the start-time slots between
    opening and closing, and the status list for a run of dates. */
module BusinessHours {
  import opened Wrappers
  import opened Strings
  import opened Time
  import Assoc

  datatype DayHours = DayHours(open: string, close: string)

  /** A per-date exception; `open`/`close` are only written for an open day. */
  datatype Exception = Exception(isOpen: bool, open: Option<string>, close: Option<string>)

  /** The default hours and the exceptions keyed by 'YYYY-MM-DD', in insertion order. */
  datatype Config = Config(defaultHours: DayHours, exceptions: seq<(string, Exception)>)

  /** 06:00 to 22:00 every day, no exceptions. */
  const DefaultConfig: Config := Config(DayHours("06:00", "22:00"), [])

  /** `businessHours || DEFAULT_BUSINESS_HOURS`. */
  function Effective(cfg: Option<Config>): Config {
    cfg.GetOr(DefaultConfig)
  }

  /** `isBusinessOpen`: a date is closed exactly when an exception for it says
      closed; a date without an exception is open. */
  function IsBusinessOpen(cfg: Option<Config>, date: string): (r: bool)
    ensures !Assoc.HasKey(Effective(cfg).exceptions, date) ==> r
    ensures Assoc.DistinctKeys(Effective(cfg).exceptions) ==>
      (!r <==> exists i :: 0 <= i < |Effective(cfg).exceptions|
                 && Effective(cfg).exceptions[i] .0 == date && !Effective(cfg).exceptions[i].1.isOpen)
  {
    match Assoc.Get(Effective(cfg).exceptions, date)
    case Some(ex) => ex.isOpen
    case None => true
  }

  /** `field || fallback` for an optional string field: absent and "" both fall back. */
  function OrDefault(field: Option<string>, fallback: string): (r: string)
    ensures r == fallback || (field.Some? && r == field.value && r != "")
    ensures field.Some? && field.value != "" ==> r == field.value
    ensures field.None? || field.value == "" ==> r == fallback
  {
    if field.Some? && field.value != "" then field.value else fallback
  }

  /** `getBusinessHoursForDate`: an open exception supplies each of open and
      close that it sets; otherwise (closed, or no exception) the default hours. */
  function HoursForDate(cfg: Option<Config>, date: string): (r: DayHours)
    ensures (Assoc.Get(Effective(cfg).exceptions, date).None?
             || !Assoc.Get(Effective(cfg).exceptions, date).value.isOpen)
            ==> r == Effective(cfg).defaultHours
    ensures Assoc.Get(Effective(cfg).exceptions, date).Some?
            && Assoc.Get(Effective(cfg).exceptions, date).value.isOpen ==>
      var ex := Assoc.Get(Effective(cfg).exceptions, date).value;
      && (ex.open.Some? && ex.open.value != "" ==> r.open == ex.open.value)
      && (ex.open.None? || ex.open.value == "" ==> r.open == Effective(cfg).defaultHours.open)
      && (ex.close.Some? && ex.close.value != "" ==> r.close == ex.close.value)
      && (ex.close.None? || ex.close.value == "" ==> r.close == Effective(cfg).defaultHours.close)
  {
    var hours := Effective(cfg);
    match Assoc.Get(hours.exceptions, date)
    case Some(ex) =>
      if ex.isOpen then DayHours(OrDefault(ex.open, hours.defaultHours.open), OrDefault(ex.close, hours.defaultHours.close))
      else hours.defaultHours
    case None => hours.defaultHours
  }

  /** With no configuration every date is open from 06:00 to 22:00. */
  lemma NoConfigIsDefault(date: string)
    ensures IsBusinessOpen(None, date)
    ensures HoursForDate(None, date) == DayHours("06:00", "22:00")
  {
  }

  /** Hours other than the default can only come from an open exception for that date. */
  lemma NonDefaultHoursNeedOpenException(cfg: Option<Config>, date: string)
    requires HoursForDate(cfg, date) != Effective(cfg).defaultHours
    ensures IsBusinessOpen(cfg, date)
    ensures exists i :: 0 <= i < |Effective(cfg).exceptions|
              && Effective(cfg).exceptions[i] == (date, Assoc.Get(Effective(cfg).exceptions, date).value)
  {
  }

  // ---------------------------------------------------------------------------
  // Slot generation.

  /** A start-time option: hour, minute and its "HH:MM" label `text` (the source's `label`, also its `value`). */
  datatype Slot = Slot(hour: nat, minute: nat, text: string)

  function SlotAt(m: nat): Slot {
    Slot(m / 60, m % 60, Clock(m))
  }

  function SlotMinutes(s: Slot): nat {
    s.hour * 60 + s.minute
  }

  /** The values the loop `for (minutes = m; minutes < close; minutes += interval)`
      visits: the first is m, each lies below close, each is `interval` after the
      one before, and the step after the last reaches close. */
  function LoopMinutes(m: nat, close: nat, interval: nat): (r: seq<nat>)
    requires interval > 0
    ensures |r| == 0 <==> m >= close
    ensures |r| > 0 ==> r[0] == m && r[|r| - 1] + interval >= close
    ensures forall i :: 0 <= i < |r| ==> m <= r[i] < close
    ensures forall i :: 0 < i < |r| ==> r[i] == r[i - 1] + interval
    decreases close - m
  {
    if m >= close then []
    else
      var rest := LoopMinutes(m + interval, close, interval);
      var r := [m] + rest;
      assert forall i :: 0 < i < |r| ==> r[i] == rest[i - 1];
      r
  }

  /** The i-th value visited is m + i * interval. */
  lemma {:induction false} LoopMinutesArithmetic(m: nat, close: nat, interval: nat, i: nat)
    requires interval > 0
    requires i < |LoopMinutes(m, close, interval)|
    ensures LoopMinutes(m, close, interval)[i] == m + i * interval
    decreases i
  {
    if i > 0 {
      LoopMinutesArithmetic(m, close, interval, i - 1);
      assert (i - 1) * interval + interval == i * interval;
    }
  }

  /** The loop runs ceil((close - m) / interval) times: the last value lies
      below close and one more step would not. */
  lemma LoopMinutesCount(m: nat, close: nat, interval: nat)
    requires interval > 0 && m < close
    ensures var n := |LoopMinutes(m, close, interval)|;
      n > 0 && (n - 1) * interval < close - m <= n * interval
  {
    var n := |LoopMinutes(m, close, interval)|;
    LoopMinutesArithmetic(m, close, interval, n - 1);
    assert (n - 1) * interval + interval == n * interval;
  }

  /** One slot per visited minute value. */
  function SlotsFrom(m: nat, close: nat, interval: nat): (r: seq<Slot>)
    requires interval > 0
    ensures |r| == |LoopMinutes(m, close, interval)|
    ensures forall i :: 0 <= i < |r| ==> r[i] == SlotAt(LoopMinutes(m, close, interval)[i])
    ensures forall i :: 0 <= i < |r| ==> SlotMinutes(r[i]) == LoopMinutes(m, close, interval)[i]
  {
    var ms := LoopMinutes(m, close, interval);
    seq(|ms|, i requires 0 <= i < |ms| => SlotAt(ms[i]))
  }

  /** Every label parses back to its slot's minute and is a well-formed clock
      label while the hour has two digits. */
  lemma SlotLabelsRoundTrip(m: nat, close: nat, interval: nat)
    requires interval > 0
    ensures forall s :: s in SlotsFrom(m, close, interval) ==>
              ParseTime(s.text) == Some(SlotMinutes(s) as real)
              && (SlotMinutes(s) < 6000 ==> IsClockLabel(s.text))
  {
    forall s | s in SlotsFrom(m, close, interval)
      ensures ParseTime(s.text) == Some(SlotMinutes(s) as real)
      ensures SlotMinutes(s) < 6000 ==> IsClockLabel(s.text)
    {
      ClockRoundTrip(SlotMinutes(s));
    }
  }

  /** A time field the code can read as whole hours and minutes, or one it
      reads as NaN. */
  predicate WholeOrNaN(s: string) {
    ClockParts(s).Some? || ParseTime(s).None?
  }

  /** `generateTimeSlots(open, close, interval)`. A NaN bound makes the loop
      condition false at once, so no slots. */
  function GenerateTimeSlots(open: string, close: string, interval: nat): (r: seq<Slot>)
    requires interval > 0
    requires WholeOrNaN(open) && WholeOrNaN(close)
    ensures ParseTime(open).None? || ParseTime(close).None? ==> r == []
    ensures ParseTime(open).Some? && ParseTime(close).Some? ==>
      && (ParseTime(close).value <= ParseTime(open).value ==> r == [])
      && (forall i :: 0 <= i < |r| ==>
            ParseTime(open).value <= SlotMinutes(r[i]) as real < ParseTime(close).value)
    ensures forall i :: 0 < i < |r| ==> SlotMinutes(r[i]) == SlotMinutes(r[i - 1]) + interval
  {
    if ClockParts(open).Some? && ClockParts(close).Some? then SlotsFrom(ClockMinutes(open), ClockMinutes(close), interval)
    else []
  }

  /** With whole-field bounds the slots are those of the loop over their minutes. */
  lemma GenerateFromParts(open: string, close: string, interval: nat)
    requires interval > 0
    requires ClockParts(open).Some? && ClockParts(close).Some?
    ensures GenerateTimeSlots(open, close, interval) == SlotsFrom(ClockMinutes(open), ClockMinutes(close), interval)
  {
  }

  /** The loop from o to c > o visits ceil((c - o) / interval) values. */
  lemma SlotsFromCount(o: nat, c: nat, interval: nat)
    requires interval > 0 && o < c
    ensures var n := |SlotsFrom(o, c, interval)|; (n - 1) * interval < c - o <= n * interval
  {
    LoopMinutesCount(o, c, interval);
  }

  /** Slot i of the loop from o starts at o + i * interval. */
  lemma SlotsFromMinute(o: nat, c: nat, interval: nat, i: nat)
    requires interval > 0
    requires i < |SlotsFrom(o, c, interval)|
    ensures SlotMinutes(SlotsFrom(o, c, interval)[i]) == o + i * interval
  {
    LoopMinutesArithmetic(o, c, interval, i);
  }

  /** The label of slot i reads back as the slot's minute. */
  lemma SlotsFromLabel(o: nat, c: nat, interval: nat, i: nat)
    requires interval > 0
    requires i < |SlotsFrom(o, c, interval)|
    ensures ParseTime(SlotsFrom(o, c, interval)[i].text) == Some(SlotMinutes(SlotsFrom(o, c, interval)[i]) as real)
  {
    ClockRoundTrip(LoopMinutes(o, c, interval)[i]);
  }

  // ---------------------------------------------------------------------------
  // Status over a run of dates.

  datatype DayStatus = DayStatus(date: string, isOpen: bool, hours: DayHours)

  /** `getBusinessStatusForDateRange`, given the date keys of today and the
      following days (computing them from the clock is outside the model). */
  function StatusForDates(cfg: Config, dates: seq<string>): (r: seq<DayStatus>)
    ensures |r| == |dates|
    ensures forall i :: 0 <= i < |r| ==>
      r[i].date == dates[i] && r[i].isOpen == IsBusinessOpen(Some(cfg), dates[i])
      && r[i].hours == HoursForDate(Some(cfg), dates[i])
  {
    seq(|dates|, i requires 0 <= i < |dates| =>
      DayStatus(dates[i], IsBusinessOpen(Some(cfg), dates[i]), HoursForDate(Some(cfg), dates[i])))
  }
}
