/** The business-hours dialog of the admin panel: the default opening hours,
    the per-date exceptions being edited, and the form for a new exception. */
module BusinessHoursManager {
  import opened Wrappers
  import Assoc
  import Seqs
  import Strings
  import BusinessHours

  type Exception = BusinessHours.Exception

  /** The dialog's state; the `draft` fields are the new-exception form. */
  datatype Editor = Editor(
    defaultOpen: string,
    defaultClose: string,
    exceptions: seq<(string, Exception)>,
    draftDate: string,
    draftOpen: string,
    draftClose: string,
    draftIsOpen: bool)

  /** Opening the dialog: the stored hours are reloaded and the form reset to
      an empty date, 06:00 to 22:00, open. */
  function Load(cfg: BusinessHours.Config): (r: Editor)
    ensures r.draftDate == "" && r.draftOpen == "06:00" && r.draftClose == "22:00" && r.draftIsOpen
  {
    Editor(cfg.defaultHours.open, cfg.defaultHours.close, cfg.exceptions, "", "06:00", "22:00", true)
  }

  /** The payload `handleSave` hands on: the default hours and the exceptions. */
  function Save(e: Editor): BusinessHours.Config {
    BusinessHours.Config(BusinessHours.DayHours(e.defaultOpen, e.defaultClose), e.exceptions)
  }

  /** Saving right after opening hands back the stored hours unchanged. */
  lemma SaveAfterLoad(cfg: BusinessHours.Config)
    ensures Save(Load(cfg)) == cfg
  {
  }

  /** Reopening after a save shows what was saved, with the form reset. */
  lemma LoadAfterSave(e: Editor)
    ensures Load(Save(e)) == e.(draftDate := "", draftOpen := "06:00", draftClose := "22:00", draftIsOpen := true)
  {
  }

  /** The exception the form describes: hours are written only for an open day. */
  function DraftException(e: Editor): (x: Exception)
    ensures x.isOpen == e.draftIsOpen
    ensures x.isOpen ==> x.open == Some(e.draftOpen) && x.close == Some(e.draftClose)
    ensures !x.isOpen ==> x.open.None? && x.close.None?
  {
    if e.draftIsOpen then BusinessHours.Exception(true, Some(e.draftOpen), Some(e.draftClose))
    else BusinessHours.Exception(false, None, None)
  }

  /** `handleAddException`: nothing without a date; otherwise the form's
      exception replaces any entry for the date, every other date keeps its
      entry, and the date field is cleared. */
  function AddException(e: Editor): (r: Editor)
    ensures e.draftDate == "" ==> r == e
    ensures e.draftDate != "" ==>
      && Assoc.Get(r.exceptions, e.draftDate) == Some(DraftException(e))
      && (forall d :: d != e.draftDate ==> Assoc.Get(r.exceptions, d) == Assoc.Get(e.exceptions, d))
      && r == e.(exceptions := r.exceptions, draftDate := "")
    ensures Assoc.DistinctKeys(e.exceptions) ==> Assoc.DistinctKeys(r.exceptions)
  {
    if e.draftDate == "" then e
    else e.(exceptions := Assoc.Put(e.exceptions, e.draftDate, DraftException(e)), draftDate := "")
  }

  /** Once saved, an added exception decides the date: it is open exactly
      when the form said so, and an open day takes the form's hours, each
      falling back to the default when left empty. */
  lemma AddedExceptionGoverns(e: Editor)
    requires e.draftDate != ""
    ensures var cfg := Some(Save(AddException(e)));
      && BusinessHours.IsBusinessOpen(cfg, e.draftDate) == e.draftIsOpen
      && (e.draftIsOpen ==>
            BusinessHours.HoursForDate(cfg, e.draftDate)
            == BusinessHours.DayHours(BusinessHours.OrDefault(Some(e.draftOpen), e.defaultOpen),
                                      BusinessHours.OrDefault(Some(e.draftClose), e.defaultClose)))
      && (!e.draftIsOpen ==> BusinessHours.HoursForDate(cfg, e.draftDate) == BusinessHours.DayHours(e.defaultOpen, e.defaultClose))
  {
  }

  /** Adding an exception leaves every other date's status and hours as they were. */
  lemma AddLeavesOtherDates(e: Editor, d: string)
    requires d != e.draftDate
    ensures BusinessHours.IsBusinessOpen(Some(Save(AddException(e))), d) == BusinessHours.IsBusinessOpen(Some(Save(e)), d)
    ensures BusinessHours.HoursForDate(Some(Save(AddException(e))), d) == BusinessHours.HoursForDate(Some(Save(e)), d)
  {
  }

  /** `handleRemoveException`: the date's entry is gone and nothing else changes. */
  function RemoveException(e: Editor, date: string): (r: Editor)
    ensures Assoc.Get(r.exceptions, date).None?
    ensures forall d :: d != date ==> Assoc.Get(r.exceptions, d) == Assoc.Get(e.exceptions, d)
    ensures r == e.(exceptions := r.exceptions)
    ensures Assoc.DistinctKeys(e.exceptions) ==> Assoc.DistinctKeys(r.exceptions)
  {
    e.(exceptions := Assoc.Remove(e.exceptions, date))
  }

  /** After removing its exception a date is an ordinary open day on the default hours. */
  lemma RemovedDateIsOrdinary(e: Editor, date: string)
    ensures BusinessHours.IsBusinessOpen(Some(Save(RemoveException(e, date))), date)
    ensures BusinessHours.HoursForDate(Some(Save(RemoveException(e, date))), date)
            == BusinessHours.DayHours(e.defaultOpen, e.defaultClose)
  {
  }

  /** Removing the exception just added leaves the same entries as removing
      the date's old entry: adding and removing cancel out. */
  lemma AddThenRemove(e: Editor)
    requires e.draftDate != ""
    ensures forall k :: Assoc.Get(RemoveException(AddException(e), e.draftDate).exceptions, k)
                        == Assoc.Get(RemoveException(e, e.draftDate).exceptions, k)
  {
  }

  // ---------------------------------------------------------------------------
  // The list the dialog shows.

  /** Entries ordered by their date key. */
  predicate KeyLe(a: (string, Exception), b: (string, Exception)) {
    Strings.LexLe(a.0, b.0)
  }

  lemma KeyOrderIsTotalPreorder()
    ensures Seqs.TotalPreorder(KeyLe)
  {
    forall a: (string, Exception), b: (string, Exception) ensures KeyLe(a, b) || KeyLe(b, a) {
      Strings.LexLeTotal(a.0, b.0);
    }
    forall a: (string, Exception), b: (string, Exception), c: (string, Exception) | KeyLe(a, b) && KeyLe(b, c)
      ensures KeyLe(a, c)
    {
      Strings.LexLeTransitive(a.0, b.0, c.0);
    }
  }

  /** `sortedExceptions`: the same entries, in ascending date order. */
  function SortedExceptions(e: Editor): (r: seq<(string, Exception)>)
    ensures multiset(r) == multiset(e.exceptions)
    ensures forall i, j :: 0 <= i < j < |r| ==> Strings.LexLe(r[i].0, r[j].0)
  {
    KeyOrderIsTotalPreorder();
    Seqs.SortBySorted(e.exceptions, KeyLe);
    Seqs.SortBy(e.exceptions, KeyLe)
  }
}
