/** The announcement handlers (backend/controllers/announcementController.js): creation,
    the role-filtered list newest first, lookup, and the creator-or-admin edit and soft delete. */
module AnnouncementController {
  import opened Common
  import opened AnnouncementModel
  import opened Store

  const MsgTitleRequired := "Title and content are required"
  const MsgAnnouncementNotFound := "Announcement not found"
  const MsgNotYoursToUpdate := "You are not authorized to update this announcement"
  const MsgNotYoursToDelete := "You are not authorized to delete this announcement"

  /** `createAnnouncement`. An absent target means "all"; a target outside the enum fails
      validation inside `save`. The subject id is stored unchecked. */
  method CreateAnnouncement(db: Database, caller: Caller, title: string, content: string, target: string,
                            subjectId: Option<Id>, now: Time) returns (r: Response<Doc<Announcement>>)
    requires db.Valid()
    modifies db`announcements, db`nextId
    ensures db.Valid()
    ensures title == "" || content == "" ==> r == Err(BadRequest, MsgTitleRequired)
    ensures title != "" && content != "" && target != "" && ParseTarget(target).None? ==> r == Err(ServerError, MsgServerError)
    ensures r.Err? ==> unchanged(db)
    ensures r.Ok? <==> title != "" && content != "" && (target == "" || ParseTarget(target).Some?)
    ensures r.Ok? ==> && r.value.id == old(db.nextId) && db.nextId == old(db.nextId) + 1
                      && db.announcements == old(db.announcements)[r.value.id := r.value.body]
                      && r.value.body.createdBy == caller.id && r.value.body.subject == subjectId
                      && r.value.body.target == (if target == "" then All else ParseTarget(target).value)
                      && r.value.body == Announcement(title, content, caller.id, r.value.body.target, subjectId, true, now)
  {
    if title == "" || content == "" {
      return Err(BadRequest, MsgTitleRequired);
    }
    var t := ParseTarget(if target != "" then target else "all");
    if t.None? {
      return Err(ServerError, MsgServerError);
    }
    var a := Announcement(title, content, caller.id, t.value, subjectId, true, now);
    var id := db.nextId;
    SaveAnnouncement(db, id, a);
    r := Ok(Doc(id, a));
  }

  /** The list query `{ isActive: true, $or: [targets the role sees] }`. */
  predicate Listed(role: Role, a: Announcement)
  {
    a.isActive && VisibleTo(role, a.target)
  }

  /** `.sort({ createdAt: -1 })`. */
  predicate NewestFirst(s: seq<Doc<Announcement>>)
  {
    forall i, j :: 0 <= i < j < |s| ==> s[i].body.createdAt >= s[j].body.createdAt
  }

  /** The head of a newest-first list is at least as new as anything after it. */
  lemma HeadNewest(s: seq<Doc<Announcement>>, x: Doc<Announcement>)
    requires NewestFirst(s) && s != [] && x in s[1..]
    ensures s[0].body.createdAt >= x.body.createdAt
  {
    var k :| 0 <= k < |s[1..]| && s[1..][k] == x;
    assert s[k + 1] == x;
  }

  /** Inserts one announcement into a newest-first list, after every strictly newer one. */
  function Insert(d: Doc<Announcement>, s: seq<Doc<Announcement>>): (r: seq<Doc<Announcement>>)
    requires NewestFirst(s)
    ensures NewestFirst(r) && multiset(r) == multiset(s) + multiset{d}
  {
    if s == [] then [d]
    else if d.body.createdAt >= s[0].body.createdAt then
      assert forall j :: 0 < j < |[d] + s| ==> ([d] + s)[j] == s[j - 1];
      [d] + s
    else
      var rest := Insert(d, s[1..]);
      assert s == [s[0]] + s[1..];
      forall j | 0 <= j < |rest|
        ensures s[0].body.createdAt >= rest[j].body.createdAt
      {
        assert rest[j] in multiset(rest);
        if rest[j] != d {
          assert rest[j] in multiset(s[1..]);
          HeadNewest(s, rest[j]);
        }
      }
      assert forall j :: 0 < j < |[s[0]] + rest| ==> ([s[0]] + rest)[j] == rest[j - 1];
      [s[0]] + rest
  }

  /** The newest-first order of a list, keeping every element. */
  function SortNewestFirst(s: seq<Doc<Announcement>>): (r: seq<Doc<Announcement>>)
    ensures NewestFirst(r) && multiset(r) == multiset(s) && |r| == |s|
  {
    if s == [] then []
    else
      assert s == [s[0]] + s[1..];
      Insert(s[0], SortNewestFirst(s[1..]))
  }

  predicate DistinctIds(s: seq<Doc<Announcement>>)
  {
    forall i, j :: 0 <= i < j < |s| ==> s[i].id != s[j].id
  }

  /** The head's id occurs nowhere after it. */
  lemma HeadIdFresh(s: seq<Doc<Announcement>>, x: Doc<Announcement>)
    requires DistinctIds(s) && s != [] && x in s[1..]
    ensures s[0].id != x.id
  {
    var k :| 0 <= k < |s[1..]| && s[1..][k] == x;
    assert s[k + 1] == x;
  }

  /** A head whose id differs from every later id keeps the ids distinct. */
  lemma ConsDistinct(h: Doc<Announcement>, s: seq<Doc<Announcement>>)
    requires DistinctIds(s) && forall j :: 0 <= j < |s| ==> h.id != s[j].id
    ensures DistinctIds([h] + s)
  {
    assert forall j :: 0 < j < |[h] + s| ==> ([h] + s)[j] == s[j - 1];
  }

  /** The head's id differs from every id of a list that holds the tail and one new id. */
  lemma HeadIdFreshIn(s: seq<Doc<Announcement>>, d: Doc<Announcement>, rest: seq<Doc<Announcement>>)
    requires DistinctIds(s) && s != [] && s[0].id != d.id
    requires multiset(rest) == multiset(s[1..]) + multiset{d}
    ensures forall j :: 0 <= j < |rest| ==> s[0].id != rest[j].id
  {
    forall j | 0 <= j < |rest|
      ensures s[0].id != rest[j].id
    {
      assert rest[j] in multiset(rest);
      if rest[j] != d {
        assert rest[j] in multiset(s[1..]);
        HeadIdFresh(s, rest[j]);
      }
    }
  }

  /** Inserting an announcement whose id the list lacks keeps the ids distinct. */
  lemma {:induction false} InsertKeepsDistinct(d: Doc<Announcement>, s: seq<Doc<Announcement>>)
    requires NewestFirst(s) && DistinctIds(s) && forall x :: x in s ==> x.id != d.id
    ensures DistinctIds(Insert(d, s))
  {
    if s != [] && d.body.createdAt < s[0].body.createdAt {
      assert forall x :: x in s[1..] ==> x in s;
      InsertKeepsDistinct(d, s[1..]);
      var rest := Insert(d, s[1..]);
      HeadIdFreshIn(s, d, rest);
      ConsDistinct(s[0], rest);
      assert Insert(d, s) == [s[0]] + rest;
    } else if s != [] {
      assert forall j :: 0 <= j < |s| ==> s[j] in s;
      ConsDistinct(d, s);
    }
  }

  /** Sorting keeps the ids distinct. */
  lemma {:induction false} SortKeepsDistinct(s: seq<Doc<Announcement>>)
    requires DistinctIds(s)
    ensures DistinctIds(SortNewestFirst(s))
  {
    if s != [] {
      var tail := SortNewestFirst(s[1..]);
      SortKeepsDistinct(s[1..]);
      forall x | x in tail
        ensures x.id != s[0].id
      {
        assert x in multiset(s[1..]);
        var k :| 0 <= k < |s[1..]| && s[1..][k] == x;
        assert s[k + 1] == x;
      }
      InsertKeepsDistinct(s[0], tail);
    }
  }

  /** A reordering of listed documents drawn from `m` holds the same documents. */
  lemma ReorderedDocs(m: map<Id, Announcement>, role: Role, ds: seq<Doc<Announcement>>, r: seq<Doc<Announcement>>)
    requires multiset(r) == multiset(ds)
    requires forall j :: 0 <= j < |ds| ==> ds[j].id in m && m[ds[j].id] == ds[j].body && Listed(role, ds[j].body)
    ensures forall i :: 0 <= i < |r| ==> r[i].id in m && m[r[i].id] == r[i].body && Listed(role, r[i].body)
    ensures forall j :: 0 <= j < |ds| ==> ds[j] in r
  {
    forall i | 0 <= i < |r|
      ensures r[i].id in m && m[r[i].id] == r[i].body && Listed(role, r[i].body)
    {
      assert r[i] in multiset(ds);
      var j :| 0 <= j < |ds| && ds[j] == r[i];
    }
    forall j | 0 <= j < |ds|
      ensures ds[j] in r
    {
      assert ds[j] in multiset(r);
    }
  }

  /** Every listed document of `m` whose id was selected and kept is in the result. */
  lemma AllListedReturned(m: map<Id, Announcement>, role: Role, ids: seq<Id>, ds: seq<Doc<Announcement>>,
                          r: seq<Doc<Announcement>>)
    requires forall k :: k in ids <==> k in m && Listed(role, m[k])
    requires |ds| == |ids| && forall j :: 0 <= j < |ids| ==> ds[j].id == ids[j]
    requires forall j :: 0 <= j < |ds| ==> ds[j] in r
    ensures forall k :: k in m && Listed(role, m[k]) ==> exists i :: 0 <= i < |r| && r[i].id == k
  {
    forall k | k in m && Listed(role, m[k])
      ensures exists i :: 0 <= i < |r| && r[i].id == k
    {
      var j :| 0 <= j < |ids| && ids[j] == k;
      var i :| 0 <= i < |r| && r[i] == ds[j];
    }
  }

  /** `getAnnouncements`: every active announcement the caller's role may see, each once,
      newest first. */
  method GetAnnouncements(db: Database, caller: Caller) returns (r: seq<Doc<Announcement>>)
    ensures NewestFirst(r)
    ensures forall i :: 0 <= i < |r| ==>
              r[i].id in db.announcements && db.announcements[r[i].id] == r[i].body && Listed(caller.role, r[i].body)
    ensures forall k :: k in db.announcements && Listed(caller.role, db.announcements[k]) ==>
              exists i :: 0 <= i < |r| && r[i].id == k
    ensures DistinctIds(r)
  {
    var ids := SelectKeys(db.announcements, (a: Announcement) => Listed(caller.role, a));
    var ds := Docs(db.announcements, ids);
    r := SortNewestFirst(ds);
    ReorderedDocs(db.announcements, caller.role, ds, r);
    AllListedReturned(db.announcements, caller.role, ids, ds, r);
    SortKeepsDistinct(ds);
  }

  /** `getAnnouncementById`: any stored announcement, whatever its target or state. */
  method GetAnnouncementById(db: Database, id: Id) returns (r: Response<Announcement>)
    ensures id !in db.announcements <==> r.Err?
    ensures r.Err? ==> r == Err(NotFound, MsgAnnouncementNotFound)
    ensures r.Ok? ==> r.value == db.announcements[id]
  {
    if id !in db.announcements {
      return Err(NotFound, MsgAnnouncementNotFound);
    }
    r := Ok(db.announcements[id]);
  }

  /** The ownership check of update and delete: the creator, or any admin. */
  predicate MayEdit(caller: Caller, a: Announcement)
  {
    a.createdBy == caller.id || caller.role == Admin
  }

  /** The announcement after `updateAnnouncement`'s assignments, or `None` when the new target
      is outside the enum and the save fails. The creator and the state never change. */
  function EditAnnouncement(a: Announcement, title: string, content: string, target: string): (r: Option<Announcement>)
    ensures r.None? <==> target != "" && ParseTarget(target).None?
    ensures r.Some? ==> && r.value.title == (if title != "" then title else a.title)
                        && r.value.content == (if content != "" then content else a.content)
                        && r.value.target == (if target != "" then ParseTarget(target).value else a.target)
                        && r.value.(title := a.title, content := a.content, target := a.target) == a
  {
    if target != "" && ParseTarget(target).None? then None
    else
      Some(a.(title := if title != "" then title else a.title,
              content := if content != "" then content else a.content,
              target := if target != "" then ParseTarget(target).value else a.target))
  }

  /** `updateAnnouncement`: 404, then 403 for a caller who is neither the creator nor an admin. */
  method UpdateAnnouncement(db: Database, caller: Caller, id: Id, title: string, content: string, target: string)
    returns (r: Response<Announcement>)
    requires db.Valid()
    modifies db`announcements, db`nextId
    ensures db.Valid()
    ensures id !in old(db.announcements) ==> r == Err(NotFound, MsgAnnouncementNotFound)
    ensures id in old(db.announcements) && !MayEdit(caller, old(db.announcements)[id]) ==> r == Err(Forbidden, MsgNotYoursToUpdate)
    ensures id in old(db.announcements) && MayEdit(caller, old(db.announcements)[id])
            && EditAnnouncement(old(db.announcements)[id], title, content, target).None? ==>
              r == Err(ServerError, MsgServerError)
    ensures r.Err? ==> unchanged(db)
    ensures r.Ok? <==> && id in old(db.announcements) && MayEdit(caller, old(db.announcements)[id])
                       && EditAnnouncement(old(db.announcements)[id], title, content, target).Some?
    ensures r.Ok? ==> && id in old(db.announcements)
                      && EditAnnouncement(old(db.announcements)[id], title, content, target) == Some(r.value)
                      && db.announcements == old(db.announcements)[id := r.value]
                      && db.nextId == old(db.nextId)
  {
    if id !in db.announcements {
      return Err(NotFound, MsgAnnouncementNotFound);
    }
    var a := db.announcements[id];
    if a.createdBy != caller.id && caller.role != Admin {
      return Err(Forbidden, MsgNotYoursToUpdate);
    }
    if title != "" { a := a.(title := title); }
    if content != "" { a := a.(content := content); }
    if target != "" {
      var t := ParseTarget(target);
      if t.None? {
        return Err(ServerError, MsgServerError);
      }
      a := a.(target := t.value);
    }
    SaveAnnouncement(db, id, a);
    r := Ok(a);
  }

  /** `deleteAnnouncement`: a soft delete that only clears `isActive`. */
  method DeleteAnnouncement(db: Database, caller: Caller, id: Id) returns (r: Response<()>)
    requires db.Valid()
    modifies db`announcements, db`nextId
    ensures db.Valid()
    ensures id !in old(db.announcements) ==> r == Err(NotFound, MsgAnnouncementNotFound)
    ensures id in old(db.announcements) && !MayEdit(caller, old(db.announcements)[id]) ==> r == Err(Forbidden, MsgNotYoursToDelete)
    ensures r.Err? ==> unchanged(db)
    ensures r.Ok? <==> id in old(db.announcements) && MayEdit(caller, old(db.announcements)[id])
    ensures r.Ok? ==> && id in old(db.announcements)
                      && db.announcements == old(db.announcements)[id := old(db.announcements)[id].(isActive := false)]
                      && db.nextId == old(db.nextId)
  {
    if id !in db.announcements {
      return Err(NotFound, MsgAnnouncementNotFound);
    }
    var a := db.announcements[id];
    if a.createdBy != caller.id && caller.role != Admin {
      return Err(Forbidden, MsgNotYoursToDelete);
    }
    a := a.(isActive := false);
    SaveAnnouncement(db, id, a);
    r := Ok(());
  }

  /** A deleted announcement stays stored but drops out of every role's list. */
  lemma DeletedNotListed(a: Announcement, role: Role)
    ensures !Listed(role, a.(isActive := false))
  {
  }
}
