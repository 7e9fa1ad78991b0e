/** controllers/notificationController.js: the recipient's paged list
    (newest first, with counts), mark one or all as read, and soft delete. The
    requesting user's id is a parameter; the authentication in front of these
    handlers guarantees one. */
module NotificationController {
  import opened Common
  import opened Collections
  import opened NotificationModel

  const MsgNotFound: string := "Notification introuvable"
  const MsgNotFoundOrDeleted: string := "Notification introuvable ou déjà supprimée"
  /** The server's refusal of a negative `skip`, passed on with `next(error)`. */
  const MsgNegativeSkip: string := "BSON field 'skip' value must be >= 0"

  // ------------------------------------------------------------ list query

  /** The query of `getNotifications`: the recipient's notifications, and only
      unread ones when `unreadOnly` is exactly the string "true". There is no
      condition on `deletedAt`. */
  predicate Listed(n: Notification, userId: Id, unreadOnly: Option<string>) {
    n.recipient == userId && (unreadOnly == Some("true") ==> !n.isRead)
  }

  predicate UnreadOf(n: Notification, userId: Id) {
    n.recipient == userId && !n.isRead
  }

  predicate NewestFirst(s: seq<Notification>) {
    forall i, j :: 0 <= i < j < |s| ==> s[i].createdAt >= s[j].createdAt
  }

  /** Places `x` before the first element older than it. */
  function InsertNewest(x: Notification, s: seq<Notification>): (r: seq<Notification>)
    ensures |r| == |s| + 1
    ensures multiset(r) == multiset(s) + multiset{x}
  {
    if s == [] then [x]
    else if x.createdAt >= s[0].createdAt then [x] + s
    else
      assert s == [s[0]] + s[1..];
      [s[0]] + InsertNewest(x, s[1..])
  }

  /** Inserting into a newest-first sequence keeps it newest-first, and the
      head is either the new element or the old head. */
  lemma {:induction false} InsertNewestKeepsOrder(x: Notification, s: seq<Notification>)
    requires NewestFirst(s)
    ensures NewestFirst(InsertNewest(x, s))
    ensures InsertNewest(x, s)[0] == x || (|s| > 0 && InsertNewest(x, s)[0] == s[0])
  {
    if s == [] {
    } else if x.createdAt >= s[0].createdAt {
      ConsNewestFirst(x, s);
    } else {
      var tail := s[1..];
      InsertNewestKeepsOrder(x, tail);
      var rest := InsertNewest(x, tail);
      assert InsertNewest(x, s) == [s[0]] + rest;
      assert tail != [] ==> tail[0] == s[1];
      ConsNewestFirst(s[0], rest);
    }
  }

  /** Putting in front an element no older than the head keeps the order. */
  lemma ConsNewestFirst(y: Notification, t: seq<Notification>)
    requires NewestFirst(t) && (t == [] || y.createdAt >= t[0].createdAt)
    ensures NewestFirst([y] + t)
  {
    var r := [y] + t;
    forall i, j | 0 <= i < j < |r| ensures r[i].createdAt >= r[j].createdAt {
      if i > 0 {
        assert r[i] == t[i - 1];
      }
      assert r[j] == t[j - 1];
    }
  }

  /** `.sort({ createdAt: -1 })`: the same notifications, newest first. The
      order among equal `createdAt` values is not specified by the store, and
      this model fixes one. */
  function SortNewestFirst(s: seq<Notification>): (r: seq<Notification>)
    ensures NewestFirst(r)
    ensures multiset(r) == multiset(s)
    ensures forall i :: 0 <= i < |r| ==> r[i] in s
  {
    if s == [] then []
    else
      assert s == [s[0]] + s[1..];
      var sortedTail := SortNewestFirst(s[1..]);
      InsertNewestKeepsOrder(s[0], sortedTail);
      var r := InsertNewest(s[0], sortedTail);
      SameMultisetSameElements(r, s);
      r
  }

  lemma SameMultisetSameElements(r: seq<Notification>, s: seq<Notification>)
    requires multiset(r) == multiset(s)
    ensures forall i :: 0 <= i < |r| ==> r[i] in s
  {
    forall i | 0 <= i < |r| ensures r[i] in s {
      assert r[i] in multiset(r);
    }
  }

  /** The notifications the query matches, in id order. */
  function Matching(docs: map<Id, Notification>, bound: nat, userId: Id, unreadOnly: Option<string>): (r: seq<Notification>)
    ensures forall i :: 0 <= i < |r| ==> Listed(r[i], userId, unreadOnly)
    ensures forall id :: id in docs && id < bound && Listed(docs[id], userId, unreadOnly) ==> docs[id] in r
    ensures |r| == CountWhere(docs, bound, (n: Notification) => Listed(n, userId, unreadOnly))
  {
    var ids := IdsWhere(docs, bound, (n: Notification) => Listed(n, userId, unreadOnly));
    var r := seq(|ids|, i requires 0 <= i < |ids| => docs[ids[i]]);
    assert forall i :: 0 <= i < |ids| ==> r[i] == docs[ids[i]];
    r
  }

  /** `Math.ceil(total / limit)`; with a limit of 0 the division gives no
      finite number, which is None here. */
  function PageCount(total: nat, limit: nat): (r: Option<nat>)
    ensures limit == 0 <==> r.None?
    ensures r.Some? ==> r.value * limit >= total && (r.value == 0 || (r.value - 1) * limit < total)
  {
    if limit == 0 then None else Some((total + limit - 1) / limit)
  }

  /** `.skip(skip).limit(limit)` on a sorted result; a limit of 0 means no
      limit. */
  function Window(s: seq<Notification>, skip: nat, limit: nat): (r: seq<Notification>)
    ensures limit > 0 ==> |r| <= limit
    ensures skip >= |s| ==> r == []
    ensures skip < |s| ==> r == s[skip..if limit == 0 || skip + limit > |s| then |s| else skip + limit]
    ensures forall i :: 0 <= i < |r| ==> r[i] in s
    ensures NewestFirst(s) ==> NewestFirst(r)
  {
    if skip >= |s| then []
    else
      var end := if limit == 0 || skip + limit > |s| then |s| else skip + limit;
      assert forall i :: 0 <= i < end - skip ==> s[skip..end][i] == s[skip + i];
      s[skip..end]
  }

  datatype Pagination = Pagination(total: nat, page: int, pages: Option<nat>, unreadCount: nat)
  datatype NotificationPage = NotificationPage(notifications: seq<Notification>, pagination: Pagination)

  /** `getNotifications` with the query's `page` and `limit` as numbers
      (defaults 1 and 20). A negative skip is refused by the server and
      forwarded with `next(error)`. */
  function GetNotifications(docs: map<Id, Notification>, bound: nat, userId: Id,
                            page: int, limit: nat, unreadOnly: Option<string>): (r: Outcome<NotificationPage>)
    ensures r.Forward? <==> (page - 1) * limit < 0
    ensures r.Reply? <==> (page - 1) * limit >= 0
    ensures r.Reply? ==> r.status == 200 && r.value.pagination.page == page
    ensures r.Reply? ==> forall i :: 0 <= i < |r.value.notifications| ==> Listed(r.value.notifications[i], userId, unreadOnly)
    ensures r.Reply? ==> NewestFirst(r.value.notifications)
    ensures r.Reply? && limit > 0 ==> |r.value.notifications| <= limit
    ensures r.Reply? ==>
      r.value.notifications == Window(SortNewestFirst(Matching(docs, bound, userId, unreadOnly)), (page - 1) * limit, limit)
    ensures r.Reply? ==> r.value.pagination.total == |Matching(docs, bound, userId, unreadOnly)|
    ensures r.Reply? ==> r.value.pagination.pages == PageCount(r.value.pagination.total, limit)
    ensures r.Reply? ==> r.value.pagination.unreadCount == CountWhere(docs, bound, (n: Notification) => UnreadOf(n, userId))
  {
    var skip := (page - 1) * limit;
    if skip < 0 then Forward(MsgNegativeSkip)
    else
      var matched := Matching(docs, bound, userId, unreadOnly);
      var sorted := SortNewestFirst(matched);
      var total := CountWhere(docs, bound, (n: Notification) => Listed(n, userId, unreadOnly));
      var unread := CountWhere(docs, bound, (n: Notification) => UnreadOf(n, userId));
      var shown := Window(sorted, skip, limit);
      Reply(200, NotificationPage(shown, Pagination(total, page, PageCount(total, limit), unread)))
  }

  /** The first page with no limit lists every matching notification, soft
      deleted ones included, newest first; `total` counts them and `pages` is
      None. */
  lemma FirstUnlimitedPageListsAll(docs: map<Id, Notification>, bound: nat, userId: Id, unreadOnly: Option<string>)
    ensures var r := GetNotifications(docs, bound, userId, 1, 0, unreadOnly);
      && r.Reply?
      && multiset(r.value.notifications) == multiset(Matching(docs, bound, userId, unreadOnly))
      && r.value.pagination.total == |r.value.notifications|
      && r.value.pagination.pages.None?
      && forall id :: id in docs && id < bound && Listed(docs[id], userId, unreadOnly) ==> docs[id] in r.value.notifications
  {
    var matched := Matching(docs, bound, userId, unreadOnly);
    var sorted := SortNewestFirst(matched);
    assert GetNotifications(docs, bound, userId, 1, 0, unreadOnly).value.notifications == sorted;
    forall id | id in docs && id < bound && Listed(docs[id], userId, unreadOnly) ensures docs[id] in sorted {
      assert docs[id] in multiset(matched);
    }
  }

  /** With any positive limit, every matching notification is shown on one of
      the `pages` pages: the one holding its position in the sorted list. */
  lemma EveryMatchOnSomePage(docs: map<Id, Notification>, bound: nat, userId: Id, limit: nat,
                             unreadOnly: Option<string>, id: Id)
    requires limit > 0 && id in docs && id < bound && Listed(docs[id], userId, unreadOnly)
    ensures var pages := GetNotifications(docs, bound, userId, 1, limit, unreadOnly).value.pagination.pages;
      && pages.Some?
      && exists page: int :: 1 <= page <= pages.value
           && ShownOn(GetNotifications(docs, bound, userId, page, limit, unreadOnly), docs[id])
  {
    var matched := Matching(docs, bound, userId, unreadOnly);
    var sorted := SortNewestFirst(matched);
    assert docs[id] in multiset(matched);
    assert docs[id] in multiset(sorted);
    var k :| 0 <= k < |sorted| && sorted[k] == docs[id];
    var page := PositionOnPage(sorted, k, limit);
    var first := GetNotifications(docs, bound, userId, 1, limit, unreadOnly);
    assert (1 - 1) * limit == 0;
    var pages := PageCount(|matched|, limit).value;
    assert first.value.pagination.pages == Some(pages);
    PageOfPosition(k, limit, |matched|, pages);
    assert 1 <= page <= pages;
    assert ShownOn(GetNotifications(docs, bound, userId, page, limit, unreadOnly), docs[id]);
  }

  /** The answer is a page that shows `n`. */
  predicate ShownOn(r: Outcome<NotificationPage>, n: Notification) {
    r.Reply? && n in r.value.notifications
  }

  /** The element at position `k` is shown on page `k / limit + 1`. */
  lemma PositionOnPage(s: seq<Notification>, k: nat, limit: nat) returns (page: int)
    requires limit > 0 && k < |s|
    ensures page == k / limit + 1 && page >= 1 && (page - 1) * limit >= 0
    ensures s[k] in Window(s, (page - 1) * limit, limit)
  {
    page := k / limit + 1;
    var skip := (page - 1) * limit;
    DivBounds(k, limit);
    assert skip <= k < skip + limit;
    var w := Window(s, skip, limit);
    assert w[k - skip] == s[k];
  }

  lemma DivBounds(k: nat, limit: nat)
    requires limit > 0
    ensures (k / limit + 1 - 1) * limit <= k < (k / limit + 1 - 1) * limit + limit
  {
  }

  /** The page number of a position below `total` is within `pages`. */
  lemma PageOfPosition(k: nat, limit: nat, total: nat, pages: nat)
    requires limit > 0 && k < total && pages * limit >= total
    ensures k / limit + 1 <= pages
  {
  }

  /** `unreadCount` counts the recipient's unread notifications whatever the
      `unreadOnly` flag, page and limit; with `unreadOnly` = "true" it equals
      `total`. */
  lemma UnreadCountIgnoresFilter(docs: map<Id, Notification>, bound: nat, userId: Id,
                                 page: int, limit: nat, unreadOnly: Option<string>)
    requires (page - 1) * limit >= 0
    ensures GetNotifications(docs, bound, userId, page, limit, unreadOnly).value.pagination.unreadCount
         == GetNotifications(docs, bound, userId, 1, 20, Some("true")).value.pagination.unreadCount
         == GetNotifications(docs, bound, userId, 1, 20, Some("true")).value.pagination.total
  {
    IdsWhereAgree(docs, bound, (n: Notification) => Listed(n, userId, Some("true")),
                  (n: Notification) => UnreadOf(n, userId));
  }

  /** Only the exact string "true" turns on the unread filter. */
  lemma OnlyExactTrueFilters(n: Notification, userId: Id)
    requires n.recipient == userId && n.isRead
    ensures Listed(n, userId, Some("TRUE")) && Listed(n, userId, Some("1")) && Listed(n, userId, None)
    ensures !Listed(n, userId, Some("true"))
  {
  }

  // ------------------------------------------------------------- mark read

  /** `markAsRead`: matched on id and recipient only, so a soft-deleted
      notification can still be marked; `readAt` is not written. */
  function PlanMarkAsRead(docs: map<Id, Notification>, id: Id, userId: Id): (r: Outcome<Notification>)
    ensures r.Reply? <==> id in docs && docs[id].recipient == userId
    ensures r.Reply? ==> r.value == docs[id].(isRead := true) && r.value.readAt == docs[id].readAt
    ensures !r.Reply? ==> r == Refuse(404, MsgNotFound)
  {
    if id in docs && docs[id].recipient == userId then Reply(200, docs[id].(isRead := true))
    else Refuse(404, MsgNotFound)
  }

  method MarkAsRead(store: Collection<Notification>, id: Id, userId: Id) returns (r: Outcome<Notification>)
    requires store.Valid()
    modifies store
    ensures store.Valid()
    ensures r == PlanMarkAsRead(old(store.docs), id, userId)
    ensures r.Reply? ==> store.docs == old(store.docs)[id := r.value]
    ensures !r.Reply? ==> store.docs == old(store.docs)
  {
    if id !in store.docs || store.docs[id].recipient != userId {
      return Refuse(404, MsgNotFound);
    }
    var n := store.docs[id].(isRead := true);
    store.Replace(id, n);
    r := Reply(200, n);
  }

  /** `updateMany({ recipient, isRead: false, isDeleted: null }, { isRead:
      true })`. `isDeleted` is not a field of the schema, so every document
      matches `null` there and soft-deleted notifications are marked too. */
  function MarkedAllRead(docs: map<Id, Notification>, userId: Id): (r: map<Id, Notification>)
    ensures r.Keys == docs.Keys
    ensures forall id :: id in docs ==> r[id] == if UnreadOf(docs[id], userId) then docs[id].(isRead := true) else docs[id]
  {
    map id | id in docs :: if UnreadOf(docs[id], userId) then docs[id].(isRead := true) else docs[id]
  }

  method MarkAllAsRead(store: Collection<Notification>, userId: Id) returns (modifiedCount: nat)
    requires store.Valid()
    modifies store
    ensures store.Valid() && store.nextId == old(store.nextId)
    ensures store.docs == MarkedAllRead(old(store.docs), userId)
    ensures modifiedCount == CountWhere(old(store.docs), old(store.nextId), (n: Notification) => UnreadOf(n, userId))
  {
    modifiedCount := CountWhere(store.docs, store.nextId, (n: Notification) => UnreadOf(n, userId));
    store.docs := MarkedAllRead(store.docs, userId);
  }

  /** After marking all as read the user has no unread notification left,
      other users' notifications are untouched, and a second call modifies
      nothing. */
  lemma MarkAllLeavesNoneUnread(docs: map<Id, Notification>, bound: nat, userId: Id)
    ensures CountWhere(MarkedAllRead(docs, userId), bound, (n: Notification) => UnreadOf(n, userId)) == 0
    ensures forall id :: id in docs && docs[id].recipient != userId ==> MarkedAllRead(docs, userId)[id] == docs[id]
    ensures MarkedAllRead(MarkedAllRead(docs, userId), userId) == MarkedAllRead(docs, userId)
  {
    var after := MarkedAllRead(docs, userId);
    var ids := IdsWhere(after, bound, (n: Notification) => UnreadOf(n, userId));
    if |ids| > 0 {
      assert ids[0] in after && UnreadOf(after[ids[0]], userId);
    }
  }

  // ----------------------------------------------------------- soft delete

  /** `deleteNotification`: matched on id, recipient and `deletedAt == null`;
      `deletedAt` is then set to now. A notification that is already deleted
      does not match, so it is 404 like a missing one. */
  function PlanDeleteNotification(docs: map<Id, Notification>, id: Id, userId: Id, now: Time): (r: Outcome<Notification>)
    ensures r.Reply? <==> id in docs && docs[id].recipient == userId && docs[id].deletedAt.None?
    ensures r.Reply? ==> r.value == docs[id].(deletedAt := Some(now))
    ensures !r.Reply? ==> r == Refuse(404, MsgNotFoundOrDeleted)
  {
    if id in docs && docs[id].recipient == userId && docs[id].deletedAt.None? then
      Reply(200, docs[id].(deletedAt := Some(now)))
    else Refuse(404, MsgNotFoundOrDeleted)
  }

  method DeleteNotification(store: Collection<Notification>, id: Id, userId: Id, now: Time) returns (r: Outcome<Notification>)
    requires store.Valid()
    modifies store
    ensures store.Valid()
    ensures r == PlanDeleteNotification(old(store.docs), id, userId, now)
    ensures r.Reply? ==> store.docs == old(store.docs)[id := r.value]
    ensures !r.Reply? ==> store.docs == old(store.docs)
  {
    if id !in store.docs || store.docs[id].recipient != userId || store.docs[id].deletedAt.Some? {
      return Refuse(404, MsgNotFoundOrDeleted);
    }
    var n := store.docs[id].(deletedAt := Some(now));
    store.Replace(id, n);
    r := Reply(200, n);
  }

  /** A second delete of the same notification is 404, not 400, and keeps
      the first deletion time; the deleted notification can still be marked
      as read. */
  lemma DeleteTwice(docs: map<Id, Notification>, id: Id, userId: Id, t1: Time, t2: Time)
    requires PlanDeleteNotification(docs, id, userId, t1).Reply?
    ensures var after := docs[id := PlanDeleteNotification(docs, id, userId, t1).value];
      && PlanDeleteNotification(after, id, userId, t2) == Refuse(404, MsgNotFoundOrDeleted)
      && after[id].deletedAt == Some(t1)
      && PlanMarkAsRead(after, id, userId).Reply?
  {
  }
}
