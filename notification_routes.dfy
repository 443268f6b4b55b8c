/**
 * The notification endpoints: a user's inbox (the newest rows, with the number still unread)
 * and marking every row of a user as read. Neither route asks who the caller is; the user
 * is the path parameter.
 */
module NotificationRoutes {
  import opened Rows
  import opened Schema
  import opened Db

  /** The answer of GET /notifications/:userId. */
  datatype Inbox = Inbox(notifications: seq<Notification>, unreadCount: nat)

  /** The `LIMIT` of the inbox query. */
  const PageSize: nat := 50

  /** `WHERE user_id = ?`. */
  function ForUser(userId: int): Notification -> bool {
    (n: Notification) => n.recipient == userId
  }

  /** `WHERE user_id = ? AND is_read = FALSE`. */
  function UnreadFor(userId: int): Notification -> bool {
    (n: Notification) => n.recipient == userId && !n.isRead
  }

  function UnreadCount(notes: seq<Notification>, userId: int): nat {
    Count(notes, UnreadFor(userId))
  }

  /** GET /notifications/:userId: at most fifty of the user's rows, newest first, and the
      number of the user's unread rows over the whole table, not only over the page. */
  function GetNotifications(notes: seq<Notification>, userId: int): (r: Inbox)
    ensures |r.notifications| == Min(PageSize, Count(notes, ForUser(userId)))
    ensures forall i :: 0 <= i < |r.notifications| ==> r.notifications[i] in notes && r.notifications[i].recipient == userId
    ensures r.unreadCount == UnreadCount(notes, userId)
  {
    Inbox(Limit(Reverse(Where(notes, ForUser(userId))), PageSize), UnreadCount(notes, userId))
  }

  /** The page is the user's latest rows: read backwards it is the last fifty (or fewer) of
      the user's rows in table order. */
  lemma InboxIsLatest(notes: seq<Notification>, userId: int)
    ensures var own := Where(notes, ForUser(userId));
            Reverse(GetNotifications(notes, userId).notifications) == own[|own| - Min(PageSize, |own|)..]
  {
    LatestInOrder(Where(notes, ForUser(userId)), PageSize);
  }

  /** The page is ordered newest first when the table is in stamp order, as the database
      keeps it. */
  lemma InboxNewestFirst(notes: seq<Notification>, userId: int)
    requires Ascending(notes, NoticeAt)
    ensures Descending(GetNotifications(notes, userId).notifications, NoticeAt)
  {
    var own := Where(notes, ForUser(userId));
    WhereAscending(notes, ForUser(userId), NoticeAt);
    ReverseDescending(own, NoticeAt);
    LimitDescending(Reverse(own), PageSize, NoticeAt);
  }

  /** The unread count only counts the user's rows, so it never exceeds them. */
  lemma UnreadAtMostOwn(notes: seq<Notification>, userId: int)
    ensures UnreadCount(notes, userId) <= Count(notes, ForUser(userId))
  {
    var unread := (n: Notification) => !n.isRead;
    WhereWhere(notes, ForUser(userId), unread, UnreadFor(userId));
  }

  /** The unread count is not capped by the page size: fifty-one unread rows give a full page
      and a count of fifty-one. */
  lemma UnreadNotCapped()
    ensures var notes := seq(51, i => Notification(i + 1, 7, LikeNotice, "Someone liked your post", false, 0));
            && |GetNotifications(notes, 7).notifications| == 50
            && GetNotifications(notes, 7).unreadCount == 51
  {
    var notes := seq(51, i => Notification(i + 1, 7, LikeNotice, "Someone liked your post", false, 0));
    WhereAll(notes, ForUser(7));
    WhereAll(notes, UnreadFor(7));
  }

  /** PUT /notifications/:userId/read-all. The `AND is_read = FALSE` of the UPDATE only skips
      rows that already hold the value it writes. */
  method MarkAllRead(db: Database, userId: int)
    requires db.Valid()
    modifies db`notifications
    ensures db.Valid() && db.notifications == MarkedRead(old(db.notifications), userId)
  {
    db.MarkAllRead(userId);
  }

  /** Marking read changes only the read flag, sets it on every row of the user, and leaves
      every other user's rows as they were. */
  lemma MarkedReadOnlyFlag(notes: seq<Notification>, userId: int)
    ensures var r := MarkedRead(notes, userId);
            && |r| == |notes|
            && (forall i :: 0 <= i < |r| ==> r[i].(isRead := notes[i].isRead) == notes[i])
            && (forall i :: 0 <= i < |r| ==> r[i].isRead == (notes[i].isRead || notes[i].recipient == userId))
            && (forall i :: 0 <= i < |r| && notes[i].recipient != userId ==> r[i] == notes[i])
  {
  }

  /** Marking read twice is marking read once. */
  lemma MarkedReadIdempotent(notes: seq<Notification>, userId: int)
    ensures MarkedRead(MarkedRead(notes, userId), userId) == MarkedRead(notes, userId)
  {
    var once := MarkedRead(notes, userId);
    var twice := MarkedRead(once, userId);
    assert forall i :: 0 <= i < |twice| ==> twice[i] == once[i];
  }

  /** After marking, the user has nothing unread. */
  lemma {:induction false} NothingUnreadAfterMarking(notes: seq<Notification>, userId: int)
    ensures UnreadCount(MarkedRead(notes, userId), userId) == 0
  {
    var r := MarkedRead(notes, userId);
    assert forall i :: 0 <= i < |r| ==> !UnreadFor(userId)(r[i]);
    WhereNone(r, UnreadFor(userId));
  }

  /** Marking one user's rows leaves every other user's unread count as it was. */
  lemma {:induction false} UnreadOfOthersKept(notes: seq<Notification>, userId: int, other: int)
    requires other != userId
    ensures UnreadCount(MarkedRead(notes, userId), other) == UnreadCount(notes, other)
  {
    if notes != [] {
      var r := MarkedRead(notes, userId);
      assert r[1..] == MarkedRead(notes[1..], userId);
      UnreadOfOthersKept(notes[1..], userId, other);
      assert UnreadFor(other)(r[0]) == UnreadFor(other)(notes[0]);
    }
  }
}
