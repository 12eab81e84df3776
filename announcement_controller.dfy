// Announcements on the server: the stored collections of announcements
// and per-user dismissals, the create/update/delete/dismiss handlers with
// their error codes, and the list of active announcements annotated with
// each user's dismissal. Dates are integer timestamps in milliseconds; a
// day is a whole multiple of `DayLength` (time zones are not modelled).
module AnnouncementController {
  import opened Wrappers
  import opened Text
  import opened Seqs

  const DayLength: int := 86400000

  /** The day a timestamp falls on. */
  function Day(t: int): int
  {
    t / DayLength
  }

  /** Midnight at the start of the day of `t`. */
  function DayStart(t: int): (r: int)
    ensures r <= t < r + DayLength
    ensures Day(r) == Day(t)
  {
    Day(t) * DayLength
  }

  datatype Announcement = Announcement(
    id: string,
    title: string,
    content: string,
    template: string,
    startDate: Option<int>,
    endDate: Option<int>,
    maintenanceDate: Option<int>,
    priority: string,
    active: bool,
    createdAt: int,
    updatedAt: int,
    createdBy: string)

  datatype Dismissal = Dismissal(userId: string, announcementId: string,
                                 dontShowAgain: bool, dismissedAt: int)

  /** `ObjectId.isValid` as bson 4 has it: 24 hexadecimal digits, or any
      12 characters. */
  predicate IsValidObjectId(s: string): (valid: bool)
    ensures valid ==> |s| == 12 || |s| == 24
    ensures |s| == 12 ==> valid
    ensures |s| == 24 && (exists i :: 0 <= i < |s| && !IsHexDigit(s[i])) ==> !valid
  {
    (|s| == 24 && forall i :: 0 <= i < |s| ==> IsHexDigit(s[i])) || |s| == 12
  }

  predicate IsHexDigit(c: char)
  {
    '0' <= c <= '9' || 'a' <= c <= 'f' || 'A' <= c <= 'F'
  }

  // ---------------------------------------------------------------------
  // Create
  // ---------------------------------------------------------------------

  /** The create request body. Strings are "" and dates `None` when the
      field is missing or falsy; `active` is `None` when missing. */
  datatype CreateBody = CreateBody(
    title: string, content: string, template: string,
    startDate: Option<int>, endDate: Option<int>, maintenanceDate: Option<int>,
    priority: string, active: Option<bool>)

  /** The document `createAnnouncement` inserts, or the 400 error. */
  function NewAnnouncement(body: CreateBody, id: string, userId: string, now: int): (r: Result<Announcement>)
    ensures r.Failure? <==> body.title == "" || body.content == ""
    ensures r.Success? ==> r.value.createdAt == r.value.updatedAt == now
    ensures r.Success? ==> r.value.template == (if body.template == "" then "general" else body.template)
    ensures r.Success? ==> r.value.priority == (if body.priority == "" then "normal" else body.priority)
    ensures r.Success? ==> r.value.active == body.active.UnwrapOr(true)
    ensures r.Success? ==> r.value.startDate == body.startDate && r.value.endDate == body.endDate
                           && r.value.maintenanceDate == body.maintenanceDate
    ensures r.Success? ==> r.value.id == id && r.value.title == body.title && r.value.content == body.content
  {
    if body.title == "" || body.content == "" then Failure("Title and content are required")
    else Success(Announcement(
      id, body.title, body.content,
      if body.template == "" then "general" else body.template,
      body.startDate, body.endDate, body.maintenanceDate,
      if body.priority == "" then "normal" else body.priority,
      body.active.UnwrapOr(true),
      now, now, userId))
  }

  /** A body with only a title and content gets every default. */
  lemma CreateDefaults(title: string, content: string, id: string, userId: string, now: int)
    requires title != "" && content != ""
    ensures NewAnnouncement(CreateBody(title, content, "", None, None, None, "", None), id, userId, now)
            == Success(Announcement(id, title, content, "general", None, None, None, "normal", true,
                                    now, now, userId))
  {
  }

  // ---------------------------------------------------------------------
  // Update
  // ---------------------------------------------------------------------

  /** The update request body: `None` when a field is absent. A date that
      is present but falsy is `Some(None)` and clears the date. */
  datatype UpdateBody = UpdateBody(
    title: Option<string>, content: Option<string>, template: Option<string>,
    startDate: Option<Option<int>>, endDate: Option<Option<int>>,
    maintenanceDate: Option<Option<int>>, priority: Option<string>, active: Option<bool>)

  /** The `$set` document: `updatedAt` plus the fields present. */
  datatype UpdateSet = UpdateSet(
    updatedAt: int,
    title: Option<string>, content: Option<string>, template: Option<string>,
    startDate: Option<Option<int>>, endDate: Option<Option<int>>,
    maintenanceDate: Option<Option<int>>, priority: Option<string>, active: Option<bool>)

  /** The `update` object, filled in one present field at a time. */
  method BuildUpdate(body: UpdateBody, now: int) returns (u: UpdateSet)
    ensures u.updatedAt == now
    ensures u.title == body.title && u.content == body.content && u.template == body.template
    ensures u.startDate == body.startDate && u.endDate == body.endDate
    ensures u.maintenanceDate == body.maintenanceDate
    ensures u.priority == body.priority && u.active == body.active
  {
    u := UpdateSet(now, None, None, None, None, None, None, None, None);
    if body.title.Some? { u := u.(title := body.title); }
    assert u.title == body.title;
    if body.content.Some? { u := u.(content := body.content); }
    assert u.content == body.content;
    if body.template.Some? { u := u.(template := body.template); }
    assert u.template == body.template;
    if body.startDate.Some? { u := u.(startDate := body.startDate); }
    assert u.startDate == body.startDate;
    if body.endDate.Some? { u := u.(endDate := body.endDate); }
    assert u.endDate == body.endDate;
    if body.maintenanceDate.Some? { u := u.(maintenanceDate := body.maintenanceDate); }
    assert u.maintenanceDate == body.maintenanceDate;
    if body.priority.Some? { u := u.(priority := body.priority); }
    assert u.priority == body.priority;
    if body.active.Some? { u := u.(active := body.active); }
    assert u.active == body.active;
  }

  /** `$set`: each field of the update replaces the stored one. */
  function SetFields(a: Announcement, u: UpdateSet): (r: Announcement)
    ensures r.id == a.id && r.createdAt == a.createdAt && r.createdBy == a.createdBy
    ensures r.updatedAt == u.updatedAt
    ensures r.title == u.title.UnwrapOr(a.title) && r.content == u.content.UnwrapOr(a.content)
    ensures r.template == u.template.UnwrapOr(a.template)
    ensures r.priority == u.priority.UnwrapOr(a.priority) && r.active == u.active.UnwrapOr(a.active)
    ensures r.startDate == u.startDate.UnwrapOr(a.startDate)
    ensures r.endDate == u.endDate.UnwrapOr(a.endDate)
    ensures r.maintenanceDate == u.maintenanceDate.UnwrapOr(a.maintenanceDate)
  {
    a.(updatedAt := u.updatedAt,
       title := u.title.UnwrapOr(a.title),
       content := u.content.UnwrapOr(a.content),
       template := u.template.UnwrapOr(a.template),
       startDate := u.startDate.UnwrapOr(a.startDate),
       endDate := u.endDate.UnwrapOr(a.endDate),
       maintenanceDate := u.maintenanceDate.UnwrapOr(a.maintenanceDate),
       priority := u.priority.UnwrapOr(a.priority),
       active := u.active.UnwrapOr(a.active))
  }

  /** Applying the same update twice is the same as applying it once. */
  lemma SetFieldsIdempotent(a: Announcement, u: UpdateSet)
    ensures SetFields(SetFields(a, u), u) == SetFields(a, u)
  {
  }

  /** An empty body only refreshes `updatedAt`. */
  lemma EmptyUpdateOnlyTouches(a: Announcement, now: int)
    ensures SetFields(a, UpdateSet(now, None, None, None, None, None, None, None, None))
            == a.(updatedAt := now)
  {
  }

  // ---------------------------------------------------------------------
  // The stored collections and the handlers that change them
  // ---------------------------------------------------------------------

  predicate HasAnnouncement(s: seq<Announcement>, id: string)
  {
    exists k :: 0 <= k < |s| && s[k].id == id
  }

  /** No two announcements share an id. */
  predicate UniqueIds(s: seq<Announcement>)
  {
    forall i, j :: 0 <= i < j < |s| ==> s[i].id != s[j].id
  }

  predicate SamePair(d: Dismissal, e: Dismissal)
  {
    d.userId == e.userId && d.announcementId == e.announcementId
  }

  /** A user has at most one dismissal per announcement. */
  predicate UniquePairs(ds: seq<Dismissal>)
  {
    forall i, j :: 0 <= i < j < |ds| ==> !SamePair(ds[i], ds[j])
  }

  /** Every dismissal refers to a stored announcement. */
  predicate AllReferenced(ds: seq<Dismissal>, s: seq<Announcement>)
  {
    forall i :: 0 <= i < |ds| ==> HasAnnouncement(s, ds[i].announcementId)
  }

  /** The announcements other than `id`, in order. */
  function WithoutAnnouncement(s: seq<Announcement>, id: string): (r: seq<Announcement>)
    ensures forall i :: 0 <= i < |r| ==> r[i].id != id && r[i] in s
    ensures forall i :: 0 <= i < |s| && s[i].id != id ==> s[i] in r
    ensures |r| <= |s|
  {
    if s == [] then []
    else
      var rest := WithoutAnnouncement(s[1..], id);
      assert s == [s[0]] + s[1..];
      if s[0].id == id then rest else [s[0]] + rest
  }

  /** The dismissals that do not refer to `id`, in order. */
  function WithoutDismissalsOf(ds: seq<Dismissal>, id: string): (r: seq<Dismissal>)
    ensures forall i :: 0 <= i < |r| ==> r[i].announcementId != id && r[i] in ds
    ensures forall i :: 0 <= i < |ds| && ds[i].announcementId != id ==> ds[i] in r
  {
    if ds == [] then []
    else
      var rest := WithoutDismissalsOf(ds[1..], id);
      assert ds == [ds[0]] + ds[1..];
      if ds[0].announcementId == id then rest else [ds[0]] + rest
  }

  /** Removing a unique id drops exactly one announcement and keeps the
      others' ids distinct. */
  lemma {:induction false} WithoutUnique(s: seq<Announcement>, id: string)
    requires UniqueIds(s) && HasAnnouncement(s, id)
    ensures |WithoutAnnouncement(s, id)| == |s| - 1
    ensures UniqueIds(WithoutAnnouncement(s, id))
  {
    var tail := s[1..];
    TailUnique(s);
    var rest := WithoutAnnouncement(tail, id);
    if s[0].id == id {
      forall i | 0 <= i < |tail|
        ensures tail[i].id != id
      {
        assert tail[i] == s[i + 1];
      }
      WithoutAbsent(tail, id);
      assert WithoutAnnouncement(s, id) == rest;
    } else {
      var k :| 0 <= k < |s| && s[k].id == id;
      assert tail[k - 1].id == id;
      WithoutUnique(tail, id);
      assert WithoutAnnouncement(s, id) == [s[0]] + rest;
      forall j | 0 <= j < |rest|
        ensures s[0].id != rest[j].id
      {
        var m :| 0 <= m < |tail| && tail[m] == rest[j];
        assert s[1 + m] == rest[j];
      }
      ConsUnique(s[0], rest);
    }
  }

  lemma TailUnique(s: seq<Announcement>)
    requires s != [] && UniqueIds(s)
    ensures UniqueIds(s[1..])
  {
    var tail := s[1..];
    forall i, j | 0 <= i < j < |tail|
      ensures tail[i].id != tail[j].id
    {
      assert tail[i] == s[i + 1] && tail[j] == s[j + 1];
    }
  }

  lemma ConsUnique(x: Announcement, rest: seq<Announcement>)
    requires UniqueIds(rest) && forall j :: 0 <= j < |rest| ==> x.id != rest[j].id
    ensures UniqueIds([x] + rest)
  {
    var r := [x] + rest;
    forall i, j | 0 <= i < j < |r|
      ensures r[i].id != r[j].id
    {
      assert r[j] == rest[j - 1];
      if i > 0 {
        assert r[i] == rest[i - 1];
      }
    }
  }

  lemma {:induction false} WithoutAbsent(s: seq<Announcement>, id: string)
    requires forall i :: 0 <= i < |s| ==> s[i].id != id
    ensures WithoutAnnouncement(s, id) == s
  {
    if s != [] {
      WithoutAbsent(s[1..], id);
      assert s == [s[0]] + s[1..];
    }
  }

  lemma {:induction false} WithoutDismissalsUnique(ds: seq<Dismissal>, id: string)
    requires UniquePairs(ds)
    ensures UniquePairs(WithoutDismissalsOf(ds, id))
  {
    if ds != [] {
      var tail := ds[1..];
      TailUniquePairs(ds);
      WithoutDismissalsUnique(tail, id);
      var rest := WithoutDismissalsOf(tail, id);
      if ds[0].announcementId != id {
        forall j | 0 <= j < |rest|
          ensures !SamePair(ds[0], rest[j])
        {
          var m :| 0 <= m < |tail| && tail[m] == rest[j];
          assert ds[1 + m] == rest[j];
        }
        ConsUniquePairs(ds[0], rest);
      }
    }
  }

  lemma TailUniquePairs(ds: seq<Dismissal>)
    requires ds != [] && UniquePairs(ds)
    ensures UniquePairs(ds[1..])
  {
    var tail := ds[1..];
    forall i, j | 0 <= i < j < |tail|
      ensures !SamePair(tail[i], tail[j])
    {
      assert tail[i] == ds[i + 1] && tail[j] == ds[j + 1];
    }
  }

  lemma ConsUniquePairs(d: Dismissal, rest: seq<Dismissal>)
    requires UniquePairs(rest) && forall j :: 0 <= j < |rest| ==> !SamePair(d, rest[j])
    ensures UniquePairs([d] + rest)
  {
    var r := [d] + rest;
    forall i, j | 0 <= i < j < |r|
      ensures !SamePair(r[i], r[j])
    {
      assert r[j] == rest[j - 1];
      if i > 0 {
        assert r[i] == rest[i - 1];
      }
    }
  }

  class AnnouncementStore {
    var announcements: seq<Announcement>
    var dismissals: seq<Dismissal>

    /** Ids are unique, a user has at most one dismissal per announcement,
        and every dismissal refers to a stored announcement. */
    ghost predicate Valid()
      reads this
    {
      UniqueIds(announcements) && UniquePairs(dismissals) && AllReferenced(dismissals, announcements)
    }

    constructor ()
      ensures Valid() && announcements == [] && dismissals == []
    {
      announcements := [];
      dismissals := [];
    }

    /** `createAnnouncement`; `newId` is the id the database assigns. */
    method Create(body: CreateBody, userId: string, now: int, newId: string)
      returns (status: int, created: Option<Announcement>)
      requires Valid() && !HasAnnouncement(announcements, newId)
      modifies this
      ensures Valid()
      ensures status == 400 <==> body.title == "" || body.content == ""
      ensures status == 400 ==> created.None? && unchanged(this)
      ensures status == 200 ==> (created.Some?
                                 && NewAnnouncement(body, newId, userId, now) == Success(created.value)
                                 && announcements == old(announcements) + [created.value]
                                 && dismissals == old(dismissals))
      ensures status == 400 || status == 200
    {
      var r := NewAnnouncement(body, newId, userId, now);
      if r.Failure? {
        return 400, None;
      }
      var a := r.value;
      forall k | 0 <= k < |dismissals|
        ensures HasAnnouncement(announcements + [a], dismissals[k].announcementId)
      {
        var m :| 0 <= m < |announcements| && announcements[m].id == dismissals[k].announcementId;
        assert (announcements + [a])[m] == announcements[m];
      }
      announcements := announcements + [a];
      return 200, Some(a);
    }

    /** `updateAnnouncement`: an invalid id is refused before any lookup;
        an unknown id is 404; otherwise the matching record takes the
        present fields and a fresh `updatedAt`. */
    method Update(id: string, body: UpdateBody, now: int) returns (status: int)
      requires Valid()
      modifies this
      ensures Valid()
      ensures status == 400 <==> !IsValidObjectId(id)
      ensures status == 404 <==> IsValidObjectId(id) && !HasAnnouncement(old(announcements), id)
      ensures status != 200 ==> unchanged(this)
      ensures status == 200 ==>
        |announcements| == |old(announcements)| && dismissals == old(dismissals)
        && forall k :: 0 <= k < |announcements| ==>
             announcements[k] == (if old(announcements[k]).id == id
                                  then SetFields(old(announcements[k]), UpdateSet(now, body.title, body.content,
                                         body.template, body.startDate, body.endDate, body.maintenanceDate,
                                         body.priority, body.active))
                                  else old(announcements[k]))
      ensures status in {200, 400, 404}
    {
      if !IsValidObjectId(id) {
        return 400;
      }
      var u := BuildUpdate(body, now);
      var k := 0;
      while k < |announcements| && announcements[k].id != id
        invariant 0 <= k <= |announcements|
        invariant forall j :: 0 <= j < k ==> announcements[j].id != id
      {
        k := k + 1;
      }
      if k == |announcements| {
        return 404;
      }
      var updated := SetFields(announcements[k], u);
      ghost var before := announcements;
      announcements := announcements[k := updated];
      forall m | 0 <= m < |dismissals|
        ensures HasAnnouncement(announcements, dismissals[m].announcementId)
      {
        var n :| 0 <= n < |before| && before[n].id == dismissals[m].announcementId;
        assert announcements[n].id == before[n].id;
      }
      return 200;
    }

    /** `deleteAnnouncement`: removes the announcement and every dismissal
        that refers to it. */
    method Delete(id: string) returns (status: int)
      requires Valid()
      modifies this
      ensures Valid()
      ensures status == 400 <==> !IsValidObjectId(id)
      ensures status == 404 <==> IsValidObjectId(id) && !HasAnnouncement(old(announcements), id)
      ensures status != 200 ==> unchanged(this)
      ensures status == 200 ==>
        announcements == WithoutAnnouncement(old(announcements), id)
        && |announcements| == |old(announcements)| - 1
        && dismissals == WithoutDismissalsOf(old(dismissals), id)
      ensures status in {200, 400, 404}
    {
      if !IsValidObjectId(id) {
        return 400;
      }
      if !HasAnnouncement(announcements, id) {
        return 404;
      }
      ghost var before := announcements;
      WithoutUnique(announcements, id);
      WithoutDismissalsUnique(dismissals, id);
      announcements := WithoutAnnouncement(announcements, id);
      dismissals := WithoutDismissalsOf(dismissals, id);
      forall m | 0 <= m < |dismissals|
        ensures HasAnnouncement(announcements, dismissals[m].announcementId)
      {
        var d := dismissals[m];
        var i :| 0 <= i < |old(dismissals)| && old(dismissals)[i] == d;
        var n :| 0 <= n < |before| && before[n].id == d.announcementId;
        assert before[n] in announcements;
      }
      return 200;
    }

    /** `dismissAnnouncement`: upserts the (user, announcement) dismissal. */
    method Dismiss(userId: Option<string>, id: string, dontShowAgain: bool, now: int)
      returns (status: int)
      requires Valid()
      modifies this
      ensures Valid()
      ensures status == 401 <==> userId.None?
      ensures status == 400 <==> userId.Some? && !IsValidObjectId(id)
      ensures status == 404 <==> userId.Some? && IsValidObjectId(id) && !HasAnnouncement(announcements, id)
      ensures status != 200 ==> unchanged(this)
      ensures status == 200 ==> (userId.Some?
        && announcements == old(announcements)
        && Dismissal(userId.value, id, dontShowAgain, now) in dismissals
        && (forall d :: d in dismissals && !(d.userId == userId.value && d.announcementId == id)
              ==> d in old(dismissals))
        && (forall d :: d in old(dismissals) && !(d.userId == userId.value && d.announcementId == id)
              ==> d in dismissals))
      ensures status in {200, 400, 401, 404}
    {
      if userId.None? {
        return 401;
      }
      if !IsValidObjectId(id) {
        return 400;
      }
      if !HasAnnouncement(announcements, id) {
        return 404;
      }
      var user := userId.value;
      var record := Dismissal(user, id, dontShowAgain, now);
      var k := 0;
      while k < |dismissals| && !SamePair(dismissals[k], record)
        invariant 0 <= k <= |dismissals|
        invariant forall j :: 0 <= j < k ==> !SamePair(dismissals[j], record)
      {
        k := k + 1;
      }
      ghost var before := dismissals;
      if k == |dismissals| {
        dismissals := dismissals + [record];
        assert dismissals[k] == record;
      } else {
        dismissals := dismissals[k := record];
        assert dismissals[k] == record;
        forall d | d in before && !SamePair(d, record)
          ensures d in dismissals
        {
          var i :| 0 <= i < |before| && before[i] == d;
          assert dismissals[i] == d;
        }
        forall i, j | 0 <= i < j < |dismissals|
          ensures !SamePair(dismissals[i], dismissals[j])
        {
          if i == k {
            assert !SamePair(before[k], before[j]);
          } else if j == k {
            assert !SamePair(before[i], before[k]);
          }
        }
      }
      return 200;
    }
  }

  // ---------------------------------------------------------------------
  // Active announcements and the auto-show rule
  // ---------------------------------------------------------------------

  /** The database filter: active, started, and not ended before today. */
  predicate InWindow(a: Announcement, now: int)
  {
    a.active
    && (a.startDate.None? || a.startDate.value <= now)
    && (a.endDate.None? || a.endDate.value >= DayStart(now))
  }

  /** An announcement that ended earlier today is still returned. */
  lemma EndedEarlierTodayStillActive(a: Announcement, now: int)
    requires a.active && a.startDate.None? && a.endDate.Some?
    requires DayStart(now) <= a.endDate.value < now
    ensures InWindow(a, now)
  {
  }

  /** An announcement annotated with the caller's dismissal. */
  datatype Annotated = Annotated(announcement: Announcement, dismissed: bool,
                                 dontShowAgain: bool, shouldAutoShow: bool)

  /** The maintenance day is today and the dismissal was made on another
      day. */
  predicate MaintenanceReminder(a: Announcement, d: Dismissal, now: int)
  {
    a.maintenanceDate.Some? && Day(a.maintenanceDate.value) == Day(now)
    && Day(d.dismissedAt) != Day(now)
  }

  /** `_shouldAutoShow`, decided in the order of the source's checks. */
  function ShouldAutoShow(a: Announcement, d: Option<Dismissal>, now: int): bool
  {
    if d.None? then true
    else if a.maintenanceDate.Some? && Day(a.maintenanceDate.value) == Day(now)
            && Day(d.value.dismissedAt) != Day(now) then true
    else if d.value.dontShowAgain then
      if a.maintenanceDate.Some? && Day(a.maintenanceDate.value) == Day(now)
         && Day(d.value.dismissedAt) != Day(now) then true
      else false
    else true
  }

  /** The rule in closed form: no auto-show exactly for a "don't show
      again" dismissal, unless it is a maintenance-day reminder. */
  lemma ShouldAutoShowClosedForm(a: Announcement, d: Option<Dismissal>, now: int)
    ensures !ShouldAutoShow(a, d, now)
            <==> d.Some? && d.value.dontShowAgain && !MaintenanceReminder(a, d.value, now)
  {
  }

  function Annotate(a: Announcement, d: Option<Dismissal>, now: int): (r: Annotated)
    ensures r.announcement == a
    ensures r.dismissed <==> d.Some?
    ensures r.dontShowAgain <==> d.Some? && d.value.dontShowAgain
  {
    Annotated(a, d.Some?, d.Some? && d.value.dontShowAgain, ShouldAutoShow(a, d, now))
  }

  /** The last of `ds` that refers to `id`. */
  function LastDismissal(ds: seq<Dismissal>, id: string): (r: Option<Dismissal>)
    ensures r.Some? ==> r.value in ds && r.value.announcementId == id
    ensures r.None? <==> forall k :: 0 <= k < |ds| ==> ds[k].announcementId != id
  {
    if ds == [] then None
    else if ds[|ds| - 1].announcementId == id then Some(ds[|ds| - 1])
    else
      var r := LastDismissal(ds[..|ds| - 1], id);
      assert forall k :: 0 <= k < |ds| - 1 ==> ds[..|ds| - 1][k] == ds[k];
      r
  }

  /** The `Map` the handler builds: keyed by announcement id, a later
      dismissal replacing an earlier one. */
  function DismissalMap(ds: seq<Dismissal>): map<string, Dismissal>
  {
    if ds == [] then map[]
    else
      var last := ds[|ds| - 1];
      DismissalMap(ds[..|ds| - 1])[last.announcementId := last]
  }

  function Lookup(m: map<string, Dismissal>, id: string): Option<Dismissal>
  {
    if id in m then Some(m[id]) else None
  }

  /** Looking an id up in the map finds the last dismissal for it. */
  lemma {:induction false} DismissalMapFindsLast(ds: seq<Dismissal>, id: string)
    ensures Lookup(DismissalMap(ds), id) == LastDismissal(ds, id)
  {
    if ds != [] {
      DismissalMapFindsLast(ds[..|ds| - 1], id);
    }
  }

  /** With one dismissal per (user, announcement), the last dismissal of
      a user for an announcement is their only one. */
  lemma LastDismissalIsTheOne(ds: seq<Dismissal>, d: Dismissal)
    requires UniquePairs(ds) && d in ds
    requires forall k :: 0 <= k < |ds| ==> ds[k].userId == d.userId
    ensures LastDismissal(ds, d.announcementId) == Some(d)
  {
    var r := LastDismissal(ds, d.announcementId);
    var i :| 0 <= i < |ds| && ds[i] == d;
    var j :| 0 <= j < |ds| && ds[j] == r.value;
    if i < j {
      assert SamePair(ds[i], ds[j]);
    } else if j < i {
      assert SamePair(ds[j], ds[i]);
    }
  }

  /** The announcements inside the window, in the given order. */
  function ActiveAt(stored: seq<Announcement>, now: int): (r: seq<Announcement>)
    ensures forall i :: 0 <= i < |r| ==> InWindow(r[i], now) && r[i] in stored
    ensures forall i :: 0 <= i < |stored| && InWindow(stored[i], now) ==> stored[i] in r
    ensures Subsequence(r, stored)
  {
    if stored == [] then []
    else
      var rest := ActiveAt(stored[1..], now);
      assert stored == [stored[0]] + stored[1..];
      if InWindow(stored[0], now) then [stored[0]] + rest
      else
        SubsequenceSkip(rest, stored);
        rest
  }

  /** The loop that fills the `Map` of the caller's dismissals. */
  method BuildDismissalMap(dismissals: seq<Dismissal>) returns (byId: map<string, Dismissal>)
    ensures forall id :: Lookup(byId, id) == LastDismissal(dismissals, id)
  {
    byId := map[];
    var i := 0;
    while i < |dismissals|
      invariant 0 <= i <= |dismissals|
      invariant byId == DismissalMap(dismissals[..i])
    {
      assert dismissals[..i + 1][..i] == dismissals[..i];
      byId := byId[dismissals[i].announcementId := dismissals[i]];
      i := i + 1;
    }
    assert dismissals[..i] == dismissals;
    forall id
      ensures Lookup(byId, id) == LastDismissal(dismissals, id)
    {
      DismissalMapFindsLast(dismissals, id);
    }
  }

  /** `getActiveAnnouncements`: `stored` is the collection in the
      database's sort order and `dismissals` the caller's dismissals. Every
      announcement in the window is returned, in order, annotated with
      the last dismissal that refers to it. */
  method GetActiveAnnouncements(userId: Option<string>, now: int, stored: seq<Announcement>,
                                dismissals: seq<Dismissal>)
    returns (r: seq<Annotated>)
    ensures userId.None? ==> r == []
    ensures userId.Some? ==> |r| == |ActiveAt(stored, now)|
    ensures userId.Some? ==> forall i :: 0 <= i < |r| ==>
              r[i] == Annotate(ActiveAt(stored, now)[i], LastDismissal(dismissals, ActiveAt(stored, now)[i].id), now)
  {
    if userId.None? {
      return [];
    }
    var active := ActiveAt(stored, now);
    var byId := BuildDismissalMap(dismissals);
    r := [];
    var j := 0;
    while j < |active|
      invariant 0 <= j <= |active|
      invariant |r| == j
      invariant forall k :: 0 <= k < j ==>
                  r[k] == Annotate(active[k], LastDismissal(dismissals, active[k].id), now)
    {
      var a := active[j];
      var d := Lookup(byId, a.id);
      r := r + [Annotate(a, d, now)];
      j := j + 1;
    }
  }

  /** Nothing in the window is dropped: each active announcement appears
      in the response. */
  lemma ActiveNeverDropped(stored: seq<Announcement>, now: int, k: nat)
    requires k < |stored| && InWindow(stored[k], now)
    ensures stored[k] in ActiveAt(stored, now)
  {
  }
}
