/** Studio announcements: the banner's choice of what to show today, the
    visitor's dismissals, and the admin editor's create, edit and delete. */
module Announcements {
  import opened Wrappers
  import Seqs
  import Strings

  datatype Kind = Info | Warning | Success | Error

  /** `startDate`/`endDate` are optional date keys; `createdAt` is an ISO time stamp. */
  datatype Announcement = Announcement(
    id: string,
    title: string,
    content: string,
    kind: Kind,
    isActive: bool,
    startDate: Option<string>,
    endDate: Option<string>,
    createdAt: string,
    updatedAt: string)

  /** A date bound that is set: present and not empty. */
  predicate IsSet(bound: Option<string>) {
    bound.Some? && bound.value != ""
  }

  /** Today lies within the announcement's window, each bound inclusive and an
      unset bound open. */
  predicate InWindow(a: Announcement, today: string) {
    (!IsSet(a.startDate) || Strings.LexLe(a.startDate.value, today))
    && (!IsSet(a.endDate) || Strings.LexLe(today, a.endDate.value))
  }

  /** What the banner's three filters keep. */
  predicate Visible(a: Announcement, dismissed: seq<string>, today: string) {
    a.isActive && a.id !in dismissed && InWindow(a, today)
  }

  /** Newest first by creation stamp. */
  predicate NewestFirst(a: Announcement, b: Announcement) {
    Strings.LexLe(b.createdAt, a.createdAt)
  }

  lemma NewestFirstIsTotalPreorder()
    ensures Seqs.TotalPreorder(NewestFirst)
  {
    forall a: Announcement, b: Announcement ensures NewestFirst(a, b) || NewestFirst(b, a) {
      Strings.LexLeTotal(a.createdAt, b.createdAt);
    }
    forall a: Announcement, b: Announcement, c: Announcement | NewestFirst(a, b) && NewestFirst(b, c)
      ensures NewestFirst(a, c)
    {
      Strings.LexLeTransitive(c.createdAt, b.createdAt, a.createdAt);
    }
  }

  /** The list sorted newest first (`sortedAnnouncements`, and the banner's
      order): same entries, descending stamps. */
  function SortNewestFirst(s: seq<Announcement>): (r: seq<Announcement>)
    ensures multiset(r) == multiset(s)
    ensures forall i, j :: 0 <= i < j < |r| ==> Strings.LexLe(r[j].createdAt, r[i].createdAt)
  {
    NewestFirstIsTotalPreorder();
    Seqs.SortBySorted(s, NewestFirst);
    Seqs.SortBy(s, NewestFirst)
  }

  // ---------------------------------------------------------------------------
  // The banner.

  /** `activeAnnouncements` for today's key: the visible entries, newest first. */
  function Shown(all: seq<Announcement>, dismissed: seq<string>, today: string): (r: seq<Announcement>)
    ensures multiset(r) <= multiset(all)
    ensures forall x {:trigger multiset(r)[x]} :: multiset(r)[x] == if Visible(x, dismissed, today) then multiset(all)[x] else 0
    ensures forall a :: a in r <==> a in all && Visible(a, dismissed, today)
    ensures forall i, j :: 0 <= i < j < |r| ==> Strings.LexLe(r[j].createdAt, r[i].createdAt)
  {
    var kept := Seqs.Filter(all, (a: Announcement) => Visible(a, dismissed, today));
    assert forall a :: a in multiset(kept) <==> a in kept;
    var r := SortNewestFirst(kept);
    assert forall a :: a in r <==> a in multiset(r);
    r
  }

  /** `dismissAnnouncement`: the id joins the dismissed list. */
  function Dismiss(dismissed: seq<string>, id: string): (r: seq<string>)
    ensures id in r
    ensures forall x :: x in dismissed ==> x in r
  {
    dismissed + [id]
  }

  /** A dismissed announcement is not shown again, whatever the day. */
  lemma DismissedNeverShown(all: seq<Announcement>, dismissed: seq<string>, a: Announcement, today: string)
    ensures a !in Shown(all, Dismiss(dismissed, a.id), today)
  {
  }

  /** Dismissing one announcement leaves every other one's visibility as it was. */
  lemma DismissOnlyHidesItsOwn(all: seq<Announcement>, dismissed: seq<string>, id: string, a: Announcement, today: string)
    requires a.id != id
    ensures a in Shown(all, Dismiss(dismissed, id), today) <==> a in Shown(all, dismissed, today)
  {
  }

  /** An active, undismissed announcement without dates is shown every day. */
  lemma UndatedShownAlways(all: seq<Announcement>, dismissed: seq<string>, a: Announcement, today: string)
    requires a in all && a.isActive && a.id !in dismissed
    requires !IsSet(a.startDate) && !IsSet(a.endDate)
    ensures a in Shown(all, dismissed, today)
  {
  }

  /** A window is shown on its first and its last day. */
  lemma WindowBoundsInclusive(a: Announcement)
    requires IsSet(a.startDate) && IsSet(a.endDate)
    requires Strings.LexLe(a.startDate.value, a.endDate.value)
    ensures InWindow(a, a.startDate.value) && InWindow(a, a.endDate.value)
  {
    Strings.LexLeReflexive(a.startDate.value);
    Strings.LexLeReflexive(a.endDate.value);
  }

  // ---------------------------------------------------------------------------
  // The editor.

  /** The editor's form (`Partial<Announcement>`): absent fields are None. */
  datatype Form = Form(
    id: Option<string>,
    title: Option<string>,
    content: Option<string>,
    kind: Kind,
    isActive: Option<bool>,
    startDate: Option<string>,
    endDate: Option<string>,
    createdAt: Option<string>)

  /** The form `handleAdd` opens. */
  const BlankForm: Form := Form(None, Some(""), Some(""), Info, Some(true), Some(""), Some(""), None)

  /** The form `handleEdit` opens: a copy of the announcement. */
  function FormOf(a: Announcement): (f: Form)
    ensures f.id == Some(a.id) && f.createdAt == Some(a.createdAt) && f.content == Some(a.content)
    ensures f.title == Some(a.title) && f.kind == a.kind && f.isActive == Some(a.isActive)
    ensures f.startDate == a.startDate && f.endDate == a.endDate
  {
    Form(Some(a.id), Some(a.title), Some(a.content), a.kind, Some(a.isActive), a.startDate, a.endDate, Some(a.createdAt))
  }

  /** `x || fallback` for an optional string. */
  function StrOr(x: Option<string>, fallback: string): (r: string)
    ensures r == fallback || (x.Some? && r == x.value && r != "")
    ensures x.Some? && x.value != "" ==> r == x.value
  {
    if x.Some? && x.value != "" then x.value else fallback
  }

  /** `x || undefined` for an optional date. */
  function DateOrUnset(x: Option<string>): (r: Option<string>)
    ensures r.None? <==> !IsSet(x)
    ensures r.Some? ==> r == x
  {
    if IsSet(x) then x else None
  }

  /** The editing id that marks a new announcement rather than an edit. */
  const NewTarget: string := "new"

  /** The announcement `handleSave` writes. `freshId` stands for `generateId()`
      and `now` for the current time stamp. */
  function Built(editingId: string, f: Form, freshId: string, now: string): (a: Announcement)
    ensures a.content == Strings.Trim(f.content.GetOr(""))
    ensures a.title == Strings.Trim(f.title.GetOr(""))
    ensures a.isActive == f.isActive.GetOr(true)
    ensures a.kind == f.kind
    ensures a.startDate == DateOrUnset(f.startDate) && a.endDate == DateOrUnset(f.endDate)
    ensures editingId == NewTarget ==> a.id == freshId && a.createdAt == now
    ensures editingId != NewTarget ==> a.id == StrOr(f.id, freshId) && a.createdAt == StrOr(f.createdAt, now)
    ensures a.updatedAt == now
  {
    Announcement(
      if editingId == NewTarget then freshId else StrOr(f.id, freshId),
      Strings.Trim(f.title.GetOr("")),
      Strings.Trim(f.content.GetOr("")),
      f.kind,
      f.isActive.GetOr(true),
      DateOrUnset(f.startDate),
      DateOrUnset(f.endDate),
      if editingId == NewTarget then now else StrOr(f.createdAt, now),
      now)
  }

  /** `handleSave`: blank content is refused; a new announcement is appended;
      an edit replaces every announcement whose id is the one being edited. */
  function Save(all: seq<Announcement>, editingId: string, f: Form, freshId: string, now: string): (r: Result<seq<Announcement>>)
    ensures Strings.AllWhitespace(f.content.GetOr("")) <==> r == Err("请输入公告内容")
    ensures r.Ok? && editingId == NewTarget ==>
      |r.value| == |all| + 1 && r.value[..|all|] == all && r.value[|all|] == Built(editingId, f, freshId, now)
    ensures r.Ok? && editingId != NewTarget ==>
      && |r.value| == |all|
      && forall i :: 0 <= i < |all| ==>
           r.value[i] == if all[i].id == editingId then Built(editingId, f, freshId, now) else all[i]
  {
    if Strings.Trim(f.content.GetOr("")) == "" then Err("请输入公告内容")
    else
      var a := Built(editingId, f, freshId, now);
      if editingId == NewTarget then Ok(all + [a])
      else Ok(seq(|all|, i requires 0 <= i < |all| => if all[i].id == editingId then a else all[i]))
  }

  /** Every stored announcement has non-blank content. */
  predicate ContentsFilled(all: seq<Announcement>) {
    forall i :: 0 <= i < |all| ==> all[i].content != ""
  }

  /** Saving keeps every stored announcement's content filled in. */
  lemma SaveKeepsContentsFilled(all: seq<Announcement>, editingId: string, f: Form, freshId: string, now: string)
    requires ContentsFilled(all)
    requires Save(all, editingId, f, freshId, now).Ok?
    ensures ContentsFilled(Save(all, editingId, f, freshId, now).value)
  {
    var r := Save(all, editingId, f, freshId, now).value;
    forall i | 0 <= i < |r| ensures r[i].content != "" {
      if editingId == NewTarget && i < |all| {
        assert r[i] == r[..|all|][i];
      }
    }
  }

  /** Editing an announcement opened with `handleEdit` keeps its id, its
      creation stamp, its kind and its active flag, trims its title, keeps
      its dates when set and refreshes the update stamp. */
  lemma EditKeepsIdentity(all: seq<Announcement>, a: Announcement, content: string, freshId: string, now: string)
    requires a.id != "" && a.id != NewTarget && a.createdAt != ""
    requires !Strings.AllWhitespace(content)
    ensures var r := Save(all, a.id, FormOf(a).(content := Some(content)), freshId, now);
      && r.Ok?
      && forall i :: 0 <= i < |all| && all[i].id == a.id ==>
           && r.value[i].id == a.id && r.value[i].createdAt == a.createdAt && r.value[i].updatedAt == now
           && r.value[i].kind == a.kind && r.value[i].isActive == a.isActive
           && r.value[i].title == Strings.Trim(a.title)
           && r.value[i].startDate == DateOrUnset(a.startDate) && r.value[i].endDate == DateOrUnset(a.endDate)
  {
  }

  /** A created announcement shows up in the stored list under the fresh id. */
  lemma CreateAppendsFresh(all: seq<Announcement>, f: Form, freshId: string, now: string)
    requires !Strings.AllWhitespace(f.content.GetOr(""))
    ensures var r := Save(all, NewTarget, f, freshId, now);
      r.Ok? && exists i :: 0 <= i < |r.value| && r.value[i].id == freshId && r.value[i].createdAt == now
  {
    var r := Save(all, NewTarget, f, freshId, now);
    assert r.value[|all|].id == freshId;
  }

  /** `handleDelete` once confirmed: the announcements with the id are dropped, the rest kept in order. */
  function Delete(all: seq<Announcement>, id: string): (r: seq<Announcement>)
    ensures Seqs.IsSubsequence(r, all)
    ensures forall a :: a in r <==> a in all && a.id != id
    ensures forall a {:trigger multiset(r)[a]} :: multiset(r)[a] == if a.id != id then multiset(all)[a] else 0
  {
    Seqs.Filter(all, (a: Announcement) => a.id != id)
  }
}
