/** The start-time picker of the booking page: nothing before a date is
    chosen, a rest-day notice on a closed date, and otherwise the day's
    half-hour slots, with today's slots limited to those starting more than
    15 minutes from now. */
module TimeSelector {
  import opened Wrappers
  import opened Time
  import BusinessHours
  import BookingHooks
  import Seqs

  type Slot = BusinessHours.Slot

  datatype View = NoDate | RestDay | Slots(slots: seq<Slot>)

  /** The interval between offered start times, in minutes. */
  const Interval: nat := 30

  /** The bound, in minutes, a slot of today must lie beyond the current minute. */
  const Buffer: nat := 15

  /** Both of the day's hours read as whole fields or as NaN. */
  predicate HoursReadable(cfg: BusinessHours.Config, date: string) {
    var hours := BusinessHours.HoursForDate(Some(cfg), date);
    BusinessHours.WholeOrNaN(hours.open) && BusinessHours.WholeOrNaN(hours.close)
  }

  /** The filter for today: a slot is kept when it starts more than the
      buffer after `nowMinutes`; on any other day every slot is kept. */
  predicate StillBookable(s: Slot, isToday: bool, nowMinutes: nat) {
    !isToday || BusinessHours.SlotMinutes(s) > nowMinutes + Buffer
  }

  /** The day's generated slots. */
  function DaySlots(cfg: BusinessHours.Config, date: string): (r: seq<Slot>)
    requires HoursReadable(cfg, date)
  {
    var hours := BusinessHours.HoursForDate(Some(cfg), date);
    BusinessHours.GenerateTimeSlots(hours.open, hours.close, Interval)
  }

  /** What the picker shows. `date` is the selected day's key (None before a
      day is chosen); `isToday` and `nowMinutes` stand for the clock. */
  function Show(cfg: BusinessHours.Config, date: Option<string>, isToday: bool, nowMinutes: nat): (r: View)
    requires date.Some? ==> HoursReadable(cfg, date.value)
    ensures r.NoDate? <==> date.None?
    ensures r.RestDay? <==> date.Some? && !BusinessHours.IsBusinessOpen(Some(cfg), date.value)
    ensures r.Slots? ==>
      && Seqs.IsSubsequence(r.slots, DaySlots(cfg, date.value))
      && forall s :: s in r.slots <==> s in DaySlots(cfg, date.value) && StillBookable(s, isToday, nowMinutes)
  {
    if date.None? then NoDate
    else if !BusinessHours.IsBusinessOpen(Some(cfg), date.value) then RestDay
    else Slots(Seqs.Filter(DaySlots(cfg, date.value), (s: Slot) => StillBookable(s, isToday, nowMinutes)))
  }

  /** On another day than today every generated slot is offered. */
  lemma OtherDayOffersAll(cfg: BusinessHours.Config, date: string, nowMinutes: nat)
    requires HoursReadable(cfg, date)
    requires BusinessHours.IsBusinessOpen(Some(cfg), date)
    ensures Show(cfg, Some(date), false, nowMinutes) == Slots(DaySlots(cfg, date))
  {
    Seqs.FilterKeepsAll(DaySlots(cfg, date), (s: Slot) => StillBookable(s, false, nowMinutes));
  }

  /** A day with whole-field hours offers the loop's slots from opening to closing. */
  lemma DaySlotsAreRun(cfg: BusinessHours.Config, date: string)
    requires var hours := BusinessHours.HoursForDate(Some(cfg), date);
      ClockParts(hours.open).Some? && ClockParts(hours.close).Some?
    requires HoursReadable(cfg, date)
    ensures var hours := BusinessHours.HoursForDate(Some(cfg), date);
      DaySlots(cfg, date) == BusinessHours.SlotsFrom(ClockMinutes(hours.open), ClockMinutes(hours.close), Interval)
  {
    var hours := BusinessHours.HoursForDate(Some(cfg), date);
    BusinessHours.GenerateFromParts(hours.open, hours.close, Interval);
  }

  /** On a day whose hours have whole fields, open before close, slot i
      starts i half hours after opening, its label reads back as that minute,
      and the slots cover the day up to the last half hour before closing. */
  lemma DaySlotMeaning(cfg: BusinessHours.Config, date: string, i: nat)
    requires var hours := BusinessHours.HoursForDate(Some(cfg), date);
      ClockParts(hours.open).Some? && ClockParts(hours.close).Some?
      && ClockMinutes(hours.open) < ClockMinutes(hours.close)
    requires HoursReadable(cfg, date)
    requires i < |DaySlots(cfg, date)|
    ensures var hours := BusinessHours.HoursForDate(Some(cfg), date);
      var n := |DaySlots(cfg, date)|;
      (n - 1) * Interval < ClockMinutes(hours.close) - ClockMinutes(hours.open) <= n * Interval
    ensures BusinessHours.SlotMinutes(DaySlots(cfg, date)[i])
            == ClockMinutes(BusinessHours.HoursForDate(Some(cfg), date).open) + i * Interval
    ensures ParseTime(DaySlots(cfg, date)[i].text) == Some(BusinessHours.SlotMinutes(DaySlots(cfg, date)[i]) as real)
  {
    var hours := BusinessHours.HoursForDate(Some(cfg), date);
    var o, c := ClockMinutes(hours.open), ClockMinutes(hours.close);
    DaySlotsAreRun(cfg, date);
    BusinessHours.SlotsFromCount(o, c, Interval);
    BusinessHours.SlotsFromMinute(o, c, Interval, i);
    BusinessHours.SlotsFromLabel(o, c, Interval, i);
  }

  /** Today's filter keeps a tail of the day: once a slot is offered, every
      later slot of the day is too. */
  lemma TodayKeepsALaterRun(cfg: BusinessHours.Config, date: string, nowMinutes: nat, i: nat, j: nat)
    requires var hours := BusinessHours.HoursForDate(Some(cfg), date);
      ClockParts(hours.open).Some? && ClockParts(hours.close).Some?
      && ClockMinutes(hours.open) < ClockMinutes(hours.close)
    requires HoursReadable(cfg, date)
    requires i <= j < |DaySlots(cfg, date)|
    requires StillBookable(DaySlots(cfg, date)[i], true, nowMinutes)
    ensures StillBookable(DaySlots(cfg, date)[j], true, nowMinutes)
  {
    DaySlotMeaning(cfg, date, i);
    DaySlotMeaning(cfg, date, j);
    assert i * Interval <= j * Interval;
  }

  // ---------------------------------------------------------------------------
  // The default day against the hard-coded list.

  lemma Reads0600()
    ensures ClockParts("06:00") == Some((6, 0))
  {
    LabelReads(6, 0, "06:00");
  }

  lemma Reads2200()
    ensures ClockParts("22:00") == Some((22, 0))
  {
    LabelReads(22, 0, "22:00");
  }

  /** Half hour i after 06:00 is slot i of the hard-coded list. */
  lemma HalfHourSlot(i: nat)
    ensures BusinessHours.SlotAt(360 + 30 * i) == BookingHooks.RealtimeSlot(i)
  {
    var q, r := i / 2, i % 2;
    assert 360 + 30 * i == 60 * (q + 6) + 30 * r;
  }

  /** Slot i of a run starting at minute o is the slot of minute o + 30 i. */
  lemma RunSlot(o: nat, c: nat, i: nat)
    requires i < |BusinessHours.SlotsFrom(o, c, Interval)|
    ensures BusinessHours.SlotsFrom(o, c, Interval)[i] == BusinessHours.SlotAt(o + 30 * i)
  {
    BusinessHours.LoopMinutesArithmetic(o, c, Interval, i);
  }

  /** The run from 06:00 to 22:00 holds 32 slots. */
  lemma DefaultRunLength(o: nat, c: nat)
    requires o == 360 && c == 1320
    ensures |BusinessHours.SlotsFrom(o, c, Interval)| == 32
  {
    BusinessHours.SlotsFromCount(o, c, Interval);
  }

  /** Slot i of the run from 06:00 is slot i of the hard-coded list. */
  lemma DefaultRunSlot(o: nat, c: nat, i: nat)
    requires o == 360
    requires i < |BusinessHours.SlotsFrom(o, c, Interval)|
    ensures BusinessHours.SlotsFrom(o, c, Interval)[i] == BookingHooks.RealtimeSlot(i)
  {
    RunSlot(o, c, i);
    HalfHourSlot(i);
  }

  /** The run from 06:00 to 22:00 is the hard-coded list without its last entry. */
  lemma DefaultRun(o: nat, c: nat)
    requires o == 360 && c == 1320
    ensures BusinessHours.SlotsFrom(o, c, Interval) == BookingHooks.RealtimeSlots()[..32]
  {
    var r := BusinessHours.SlotsFrom(o, c, Interval);
    DefaultRunLength(o, c);
    forall i | 0 <= i < 32
      ensures r[i] == BookingHooks.RealtimeSlots()[i]
    {
      DefaultRunSlot(o, c, i);
    }
  }

  /** A day on the default hours generates the newer hook's hard-coded list
      without its last entry: 22:00 is the closing time, not a start. */
  lemma DefaultDayIsHardCodedList(date: string)
    ensures HoursReadable(BusinessHours.DefaultConfig, date)
    ensures DaySlots(BusinessHours.DefaultConfig, date) == BookingHooks.RealtimeSlots()[..32]
  {
    Reads0600();
    Reads2200();
    var hours := BusinessHours.HoursForDate(Some(BusinessHours.DefaultConfig), date);
    DaySlotsAreRun(BusinessHours.DefaultConfig, date);
    DefaultRun(ClockMinutes(hours.open), ClockMinutes(hours.close));
  }
}
