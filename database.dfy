/**
 * The database object and the SQL statements the route handlers issue against it. Each
 * statement is a method of `Database` whose new tables are given by a function on the old ones
 * (the `Store` snapshot), and each of those functions comes with a lemma that it keeps every
 * table invariant of `StoreOk`. A statement's `requires` names what MySQL would otherwise
 * refuse (a duplicate key, a missing parent row), plus what the calling handler has already
 * established for the invariants only the handlers keep (a normalised, unused e-mail and
 * username; a trimmed, non-empty comment; no self-follow).
 */
module Db {
  import opened Wrappers
  import opened Text
  import opened Rows
  import opened Schema

  /** A later clock keeps every constraint: no stored stamp lies beyond it. */
  lemma Later(s: Store, now: int)
    requires StoreOk(s) && s.clock <= now
    ensures StoreOk(s.(clock := now))
  {
    AllAtMostLater(s.posts, PostAt, s.clock, now);
    AllAtMostLater(s.saves, SaveAt, s.clock, now);
    AllAtMostLater(s.comments, CommentAt, s.clock, now);
    AllAtMostLater(s.follows, FollowAt, s.clock, now);
    AllAtMostLater(s.notifications, NoticeAt, s.clock, now);
  }

  /* ---------------------------------------------------------------- users */

  /** `INSERT INTO users`: the row goes in under the next id. */
  ghost function UserInserted(s: Store, u: User): (r: Store)
    ensures r.users.Keys == s.users.Keys + {s.nextUserId} && r.users[s.nextUserId] == u
    ensures forall id :: id in s.users && id != s.nextUserId ==> r.users[id] == s.users[id]
    ensures r.nextUserId == s.nextUserId + 1 && r.(users := s.users, nextUserId := s.nextUserId) == s
  {
    s.(users := s.users[s.nextUserId := u], nextUserId := s.nextUserId + 1)
  }

  /** A normalised email and username used by nobody else keep the users' constraints. */
  lemma UserInsertedOk(s: Store, u: User)
    requires StoreOk(s) && Normalized(u.email) && Normalized(u.username)
    requires forall id :: id in s.users ==> s.users[id].email != u.email && s.users[id].username != u.username
    ensures StoreOk(UserInserted(s, u))
  {
    var t := UserInserted(s, u);
    assert s.nextUserId !in s.users;
    assert forall k :: k in t.users <==> k in s.users || k == s.nextUserId;
    assert forall k :: k in s.users ==> t.users[k] == s.users[k];
  }

  /** `UPDATE users SET full_name = ?, bio = ?, website = ? WHERE id = ?`. */
  ghost function UserUpdated(s: Store, id: int, u: User): (r: Store)
    requires id in s.users
    ensures r.users.Keys == s.users.Keys
    ensures r.users[id].email == s.users[id].email && r.users[id].username == s.users[id].username
            && r.users[id].passwordHash == s.users[id].passwordHash && r.users[id].createdAt == s.users[id].createdAt
    ensures forall k :: k in s.users && k != id ==> r.users[k] == s.users[k]
    ensures r.(users := s.users) == s
  {
    s.(users := s.users[id := s.users[id].(fullName := u.fullName, bio := u.bio, website := u.website)])
  }

  /** Changing the name, bio or website of a user keeps every constraint. */
  lemma UserUpdatedOk(s: Store, id: int, u: User)
    requires StoreOk(s) && id in s.users
    ensures StoreOk(UserUpdated(s, id, u))
  {
    var t := UserUpdated(s, id, u);
    assert forall k :: k in t.users <==> k in s.users;
    assert forall k :: k in t.users ==> t.users[k].email == s.users[k].email && t.users[k].username == s.users[k].username;
  }

  /* ---------------------------------------------------------------- posts and images */

  /** `INSERT INTO posts (user_id, caption)`: the next id, stamped `now`. */
  ghost function PostInserted(s: Store, userId: Option<int>, caption: string, now: int): (r: Store)
    ensures forall k :: HasPost(r.posts, k) <==> HasPost(s.posts, k) || k == s.nextPostId
    ensures r.nextPostId == s.nextPostId + 1 && r.clock == now
    ensures r.(posts := s.posts, nextPostId := s.nextPostId, clock := s.clock) == s
  {
    HasPostAppend(s.posts, Post(s.nextPostId, userId, caption, now));
    s.(posts := s.posts + [Post(s.nextPostId, userId, caption, now)], nextPostId := s.nextPostId + 1, clock := now)
  }

  lemma PostInsertedOk(s: Store, userId: Option<int>, caption: string, now: int)
    requires StoreOk(s) && s.clock <= now
    ensures StoreOk(PostInserted(s, userId, caption, now))
  {
    var post := Post(s.nextPostId, userId, caption, now);
    HasPostAppend(s.posts, post);
    Later(s, now);
    IncreasingAppend(s.posts, post, PostKey);
    AllAtMostAppend(s.posts, post, PostKey, s.nextPostId);
    AllAtMostLater(s.posts, PostAt, s.clock, now);
    AscendingAppend(s.posts, post, PostAt);
    AllAtMostAppend(s.posts, post, PostAt, now);
  }

  /** A new post has no images yet: its id is above every stored post id. */
  lemma FreshPostHasNoImages(s: Store)
    requires StoreOk(s)
    ensures s.nextPostId !in s.images
  {
    forall k | k in s.images ensures k != s.nextPostId {
      var i :| 0 <= i < |s.posts| && s.posts[i].id == k;
      assert PostKey(s.posts[i]) <= s.nextPostId - 1;
    }
  }

  /** `INSERT INTO post_images (post_id, image_url, sort_order)` with the next sort order:
      the url goes after the post's other images. */
  ghost function ImageInserted(s: Store, postId: int, url: string): (r: Store)
    ensures ImagesOf(r.images, postId) == ImagesOf(s.images, postId) + [url]
    ensures forall k :: k != postId ==> ImagesOf(r.images, k) == ImagesOf(s.images, k)
    ensures r.(images := s.images) == s
  {
    s.(images := s.images[postId := ImagesOf(s.images, postId) + [url]])
  }

  lemma ImageInsertedOk(s: Store, postId: int, url: string)
    requires StoreOk(s) && HasPost(s.posts, postId)
    ensures StoreOk(ImageInserted(s, postId, url))
  {
  }

  /** The likes of every post but `postId`. */
  function LikesOfOthers(likes: set<(int, int)>, postId: int): (r: set<(int, int)>)
    ensures forall l :: l in r <==> l in likes && l.0 != postId
  {
    set l | l in likes && l.0 != postId
  }

  /** `DELETE FROM posts WHERE id = ?`, with the images, likes, saves and comments that go
      with the post. */
  ghost function PostDeleted(s: Store, postId: int): (r: Store)
    ensures forall k :: HasPost(r.posts, k) <==> HasPost(s.posts, k) && k != postId
    ensures r.(posts := s.posts, images := s.images, likes := s.likes, saves := s.saves, comments := s.comments) == s
  {
    HasPostWhere(s.posts, postId);
    s.(posts := Where(s.posts, Other(PostKey, postId)), images := s.images - {postId},
       likes := LikesOfOthers(s.likes, postId),
       saves := Where(s.saves, Other(SavePost, postId)),
       comments := Where(s.comments, Other(CommentPost, postId)))
  }

  lemma PostDeletedOk(s: Store, postId: int)
    requires StoreOk(s)
    ensures StoreOk(PostDeleted(s, postId))
  {
    var t := PostDeleted(s, postId);
    HasPostWhere(s.posts, postId);
    WhereIncreasing(s.posts, Other(PostKey, postId), PostKey);
    WhereAscending(s.posts, Other(PostKey, postId), PostAt);
    WhereAllAtMost(s.posts, Other(PostKey, postId), PostKey, s.nextPostId - 1);
    WhereAllAtMost(s.posts, Other(PostKey, postId), PostAt, s.clock);
    WhereDistinct(s.saves, Other(SavePost, postId), SaveKey);
    WhereAscending(s.saves, Other(SavePost, postId), SaveAt);
    WhereAllAtMost(s.saves, Other(SavePost, postId), SaveAt, s.clock);
    WhereIncreasing(s.comments, Other(CommentPost, postId), CommentKey);
    WhereAscending(s.comments, Other(CommentPost, postId), CommentAt);
    WhereAllAtMost(s.comments, Other(CommentPost, postId), CommentKey, s.nextCommentId - 1);
    WhereAllAtMost(s.comments, Other(CommentPost, postId), CommentAt, s.clock);
    assert SavesOk(t.saves, t.posts, t.clock) by {
      forall i | 0 <= i < |t.saves| ensures HasPost(t.posts, t.saves[i].postId) {
        assert Other(SavePost, postId)(t.saves[i]);
      }
    }
    assert CommentsOk(t.comments, t.posts, t.nextCommentId, t.clock) by {
      forall i | 0 <= i < |t.comments| ensures HasPost(t.posts, t.comments[i].postId) {
        assert Other(CommentPost, postId)(t.comments[i]);
      }
    }
  }

  /** After the delete nothing refers to the post, and every row about another post is kept. */
  lemma PostDeletedCascade(s: Store, postId: int)
    ensures var t := PostDeleted(s, postId);
            && !HasPost(t.posts, postId) && postId !in t.images
            && (forall l :: l in t.likes ==> l.0 != postId)
            && (forall i :: 0 <= i < |t.saves| ==> t.saves[i].postId != postId)
            && (forall i :: 0 <= i < |t.comments| ==> t.comments[i].postId != postId)
            && (forall k :: HasPost(s.posts, k) && k != postId ==> HasPost(t.posts, k))
            && (forall l :: l in s.likes && l.0 != postId ==> l in t.likes)
            && (forall i :: 0 <= i < |s.saves| && s.saves[i].postId != postId ==> s.saves[i] in t.saves)
            && (forall i :: 0 <= i < |s.comments| && s.comments[i].postId != postId ==> s.comments[i] in t.comments)
  {
    var t := PostDeleted(s, postId);
    HasPostWhere(s.posts, postId);
    forall i | 0 <= i < |t.saves| ensures t.saves[i].postId != postId {
      assert Other(SavePost, postId)(t.saves[i]);
    }
    forall i | 0 <= i < |t.comments| ensures t.comments[i].postId != postId {
      assert Other(CommentPost, postId)(t.comments[i]);
    }
    forall i | 0 <= i < |s.saves| && s.saves[i].postId != postId ensures s.saves[i] in t.saves {
      assert Other(SavePost, postId)(s.saves[i]);
    }
    forall i | 0 <= i < |s.comments| && s.comments[i].postId != postId ensures s.comments[i] in t.comments {
      assert Other(CommentPost, postId)(s.comments[i]);
    }
  }

  /* ---------------------------------------------------------------- likes and saves */

  /** `INSERT INTO post_likes` or `DELETE FROM post_likes` of the pair. */
  ghost function LikesSet(s: Store, likes: set<(int, int)>): (r: Store)
    ensures r.likes == likes && r.(likes := s.likes) == s
  {
    s.(likes := likes)
  }

  lemma LikesSetOk(s: Store, likes: set<(int, int)>)
    requires StoreOk(s) && forall l :: l in likes ==> l in s.likes || HasPost(s.posts, l.0)
    ensures StoreOk(LikesSet(s, likes))
  {
  }

  /** `INSERT INTO saved_posts (post_id, user_id)`, stamped `now`. */
  ghost function SaveInserted(s: Store, postId: int, userId: int, now: int): (r: Store)
    ensures Keys(r.saves, SaveKey) == Keys(s.saves, SaveKey) + {(postId, userId)}
    ensures r.clock == now && r.(saves := s.saves, clock := s.clock) == s
  {
    KeysAppend(s.saves, Save(postId, userId, now), SaveKey);
    s.(saves := s.saves + [Save(postId, userId, now)], clock := now)
  }

  lemma SaveInsertedOk(s: Store, postId: int, userId: int, now: int)
    requires StoreOk(s) && HasPost(s.posts, postId) && (postId, userId) !in Keys(s.saves, SaveKey)
    requires s.clock <= now
    ensures StoreOk(SaveInserted(s, postId, userId, now))
  {
    var row := Save(postId, userId, now);
    var t := SaveInserted(s, postId, userId, now);
    Later(s, now);
    AllAtMostLater(s.saves, SaveAt, s.clock, now);
    AscendingAppend(s.saves, row, SaveAt);
    AllAtMostAppend(s.saves, row, SaveAt, now);
    assert SavesOk(t.saves, t.posts, t.clock) by {
      forall i, j | 0 <= i < j < |t.saves| ensures SaveKey(t.saves[i]) != SaveKey(t.saves[j]) {
        assert t.saves[i] == s.saves[i];
        if j < |s.saves| { assert t.saves[j] == s.saves[j]; }
      }
      forall i | 0 <= i < |t.saves| ensures HasPost(t.posts, t.saves[i].postId) {
        if i < |s.saves| { assert t.saves[i] == s.saves[i]; }
      }
    }
  }

  /** `DELETE FROM saved_posts WHERE post_id = ? AND user_id = ?`. */
  ghost function SaveDeleted(s: Store, postId: int, userId: int): (r: Store)
    ensures Keys(r.saves, SaveKey) == Keys(s.saves, SaveKey) - {(postId, userId)}
    ensures r.(saves := s.saves) == s
  {
    KeysRemove(s.saves, (postId, userId), SaveKey);
    s.(saves := Where(s.saves, Other(SaveKey, (postId, userId))))
  }

  lemma SaveDeletedOk(s: Store, postId: int, userId: int)
    requires StoreOk(s)
    ensures StoreOk(SaveDeleted(s, postId, userId))
  {
    WhereDistinct(s.saves, Other(SaveKey, (postId, userId)), SaveKey);
    WhereAscending(s.saves, Other(SaveKey, (postId, userId)), SaveAt);
    WhereAllAtMost(s.saves, Other(SaveKey, (postId, userId)), SaveAt, s.clock);
  }

  /* ---------------------------------------------------------------- comments */

  /** `INSERT INTO post_comments (post_id, user_id, comment_text)`: the next id, stamped `now`. */
  ghost function CommentInserted(s: Store, postId: int, userId: int, text: string, now: int): (r: Store)
    ensures Keys(r.comments, CommentKey) == Keys(s.comments, CommentKey) + {s.nextCommentId}
    ensures r.nextCommentId == s.nextCommentId + 1 && r.clock == now
    ensures r.(comments := s.comments, nextCommentId := s.nextCommentId, clock := s.clock) == s
  {
    KeysAppend(s.comments, Comment(s.nextCommentId, postId, userId, text, now), CommentKey);
    s.(comments := s.comments + [Comment(s.nextCommentId, postId, userId, text, now)],
       nextCommentId := s.nextCommentId + 1, clock := now)
  }

  lemma CommentInsertedOk(s: Store, postId: int, userId: int, text: string, now: int)
    requires StoreOk(s) && HasPost(s.posts, postId) && text != [] && Trimmed(text) && s.clock <= now
    ensures StoreOk(CommentInserted(s, postId, userId, text, now))
  {
    var c := Comment(s.nextCommentId, postId, userId, text, now);
    var t := CommentInserted(s, postId, userId, text, now);
    Later(s, now);
    IncreasingAppend(s.comments, c, CommentKey);
    AllAtMostAppend(s.comments, c, CommentKey, s.nextCommentId);
    AllAtMostLater(s.comments, CommentAt, s.clock, now);
    AscendingAppend(s.comments, c, CommentAt);
    AllAtMostAppend(s.comments, c, CommentAt, now);
    assert CommentsOk(t.comments, t.posts, t.nextCommentId, t.clock) by {
      forall i | 0 <= i < |t.comments|
        ensures HasPost(t.posts, t.comments[i].postId) && t.comments[i].text != [] && Trimmed(t.comments[i].text)
      {
        if i < |s.comments| { assert t.comments[i] == s.comments[i]; }
      }
    }
  }

  /** `DELETE FROM post_comments WHERE id = ?`. */
  ghost function CommentDeleted(s: Store, commentId: int): (r: Store)
    ensures Keys(r.comments, CommentKey) == Keys(s.comments, CommentKey) - {commentId}
    ensures r.(comments := s.comments) == s
  {
    KeysRemove(s.comments, commentId, CommentKey);
    s.(comments := Where(s.comments, Other(CommentKey, commentId)))
  }

  lemma CommentDeletedOk(s: Store, commentId: int)
    requires StoreOk(s)
    ensures StoreOk(CommentDeleted(s, commentId))
  {
    WhereIncreasing(s.comments, Other(CommentKey, commentId), CommentKey);
    WhereAscending(s.comments, Other(CommentKey, commentId), CommentAt);
    WhereAllAtMost(s.comments, Other(CommentKey, commentId), CommentKey, s.nextCommentId - 1);
    WhereAllAtMost(s.comments, Other(CommentKey, commentId), CommentAt, s.clock);
  }

  /* ---------------------------------------------------------------- follows */

  /** `INSERT INTO follows (follower_id, following_id)`, stamped `now`. */
  ghost function FollowInserted(s: Store, followerId: int, followingId: int, now: int): (r: Store)
    ensures Keys(r.follows, FollowKey) == Keys(s.follows, FollowKey) + {(followerId, followingId)}
    ensures r.clock == now && r.(follows := s.follows, clock := s.clock) == s
  {
    KeysAppend(s.follows, Follow(followerId, followingId, now), FollowKey);
    s.(follows := s.follows + [Follow(followerId, followingId, now)], clock := now)
  }

  lemma FollowInsertedOk(s: Store, followerId: int, followingId: int, now: int)
    requires StoreOk(s) && followerId != followingId
    requires (followerId, followingId) !in Keys(s.follows, FollowKey) && s.clock <= now
    ensures StoreOk(FollowInserted(s, followerId, followingId, now))
  {
    var row := Follow(followerId, followingId, now);
    var t := FollowInserted(s, followerId, followingId, now);
    Later(s, now);
    AllAtMostLater(s.follows, FollowAt, s.clock, now);
    AscendingAppend(s.follows, row, FollowAt);
    AllAtMostAppend(s.follows, row, FollowAt, now);
    assert FollowsOk(t.follows, t.clock) by {
      forall i, j | 0 <= i < j < |t.follows| ensures FollowKey(t.follows[i]) != FollowKey(t.follows[j]) {
        assert t.follows[i] == s.follows[i];
        if j < |s.follows| { assert t.follows[j] == s.follows[j]; }
      }
      forall i | 0 <= i < |t.follows| ensures t.follows[i].followerId != t.follows[i].followingId {
        if i < |s.follows| { assert t.follows[i] == s.follows[i]; }
      }
    }
  }

  /** `DELETE FROM follows WHERE follower_id = ? AND following_id = ?`. */
  ghost function FollowDeleted(s: Store, followerId: int, followingId: int): (r: Store)
    ensures Keys(r.follows, FollowKey) == Keys(s.follows, FollowKey) - {(followerId, followingId)}
    ensures r.(follows := s.follows) == s
  {
    KeysRemove(s.follows, (followerId, followingId), FollowKey);
    s.(follows := Where(s.follows, Other(FollowKey, (followerId, followingId))))
  }

  lemma FollowDeletedOk(s: Store, followerId: int, followingId: int)
    requires StoreOk(s)
    ensures StoreOk(FollowDeleted(s, followerId, followingId))
  {
    WhereDistinct(s.follows, Other(FollowKey, (followerId, followingId)), FollowKey);
    WhereAscending(s.follows, Other(FollowKey, (followerId, followingId)), FollowAt);
    WhereAllAtMost(s.follows, Other(FollowKey, (followerId, followingId)), FollowAt, s.clock);
  }

  /* ---------------------------------------------------------------- notifications */

  /** `INSERT INTO notifications (user_id, type, message)`: the next id, unread, stamped `now`. */
  ghost function Notified(s: Store, recipient: int, kind: NoticeKind, message: string, now: int): (r: Store)
    ensures Keys(r.notifications, NoticeKey) == Keys(s.notifications, NoticeKey) + {s.nextNotificationId}
    ensures |r.notifications| == |s.notifications| + 1
    ensures forall i :: 0 <= i < |s.notifications| ==> r.notifications[i] == s.notifications[i]
    ensures r.nextNotificationId == s.nextNotificationId + 1 && r.clock == now
    ensures r.(notifications := s.notifications, nextNotificationId := s.nextNotificationId, clock := s.clock) == s
  {
    KeysAppend(s.notifications, Notification(s.nextNotificationId, recipient, kind, message, false, now), NoticeKey);
    s.(notifications := s.notifications + [Notification(s.nextNotificationId, recipient, kind, message, false, now)],
       nextNotificationId := s.nextNotificationId + 1, clock := now)
  }

  lemma NotifiedOk(s: Store, recipient: int, kind: NoticeKind, message: string, now: int)
    requires StoreOk(s) && s.clock <= now
    ensures StoreOk(Notified(s, recipient, kind, message, now))
  {
    var n := Notification(s.nextNotificationId, recipient, kind, message, false, now);
    Later(s, now);
    AllAtMostLater(s.notifications, NoticeAt, s.clock, now);
    IncreasingAppend(s.notifications, n, NoticeKey);
    AllAtMostAppend(s.notifications, n, NoticeKey, s.nextNotificationId);
    AscendingAppend(s.notifications, n, NoticeAt);
    AllAtMostAppend(s.notifications, n, NoticeAt, now);
  }

  /** `UPDATE notifications SET is_read = TRUE WHERE user_id = ?`. */
  function MarkedRead(notes: seq<Notification>, userId: int): (r: seq<Notification>)
    ensures |r| == |notes|
    ensures forall i :: 0 <= i < |notes| ==> r[i] == if notes[i].recipient == userId then notes[i].(isRead := true) else notes[i]
  {
    seq(|notes|, i requires 0 <= i < |notes| => if notes[i].recipient == userId then notes[i].(isRead := true) else notes[i])
  }

  ghost function NotificationsRead(s: Store, userId: int): (r: Store)
    ensures |r.notifications| == |s.notifications|
    ensures forall i :: 0 <= i < |s.notifications| && s.notifications[i].recipient == userId ==> r.notifications[i].isRead
    ensures r.(notifications := s.notifications) == s
  {
    s.(notifications := MarkedRead(s.notifications, userId))
  }

  lemma NotificationsReadOk(s: Store, userId: int)
    requires StoreOk(s)
    ensures StoreOk(NotificationsRead(s, userId))
  {
    var r := MarkedRead(s.notifications, userId);
    assert forall i :: 0 <= i < |r| ==> r[i].id == s.notifications[i].id && r[i].createdAt == s.notifications[i].createdAt;
  }

  /** The database: one field per table, the AUTO_INCREMENT counters, and (ghost) the latest
      CURRENT_TIMESTAMP written, which no stored stamp exceeds. */
  class Database {
    var users: map<int, User>
    var nextUserId: int
    var posts: seq<Post>
    var nextPostId: int
    var images: map<int, seq<string>>
    var likes: set<(int, int)>
    var saves: seq<Save>
    var comments: seq<Comment>
    var nextCommentId: int
    var follows: seq<Follow>
    var notifications: seq<Notification>
    var nextNotificationId: int
    ghost var clock: int

    /** The tables as they stand. */
    ghost function Snapshot(): Store
      reads this
    {
      Store(users, nextUserId, posts, nextPostId, images, likes, saves, comments, nextCommentId,
            follows, notifications, nextNotificationId, clock)
    }

    ghost predicate Valid()
      reads this
    {
      StoreOk(Snapshot())
    }

    /** Empty tables, every AUTO_INCREMENT counter at 1. */
    constructor (start: int)
      ensures Valid()
      ensures Snapshot() == Store(map[], 1, [], 1, map[], {}, [], [], 1, [], [], 1, start)
    {
      users, nextUserId := map[], 1;
      posts, nextPostId := [], 1;
      images, likes, saves := map[], {}, [];
      comments, nextCommentId := [], 1;
      follows := [];
      notifications, nextNotificationId := [], 1;
      clock := start;
      new;
      assert Snapshot() == Store(map[], 1, [], 1, map[], {}, [], [], 1, [], [], 1, start);
    }

    method InsertUser(u: User) returns (id: int)
      requires Valid() && Normalized(u.email) && Normalized(u.username)
      requires forall k :: k in users ==> users[k].email != u.email && users[k].username != u.username
      modifies this`users, this`nextUserId
      ensures Valid() && Snapshot() == UserInserted(old(Snapshot()), u)
      ensures id == old(nextUserId) && id !in old(users)
    {
      ghost var next := UserInserted(Snapshot(), u);
      UserInsertedOk(Snapshot(), u);
      id := nextUserId;
      users := users[id := u];
      nextUserId := id + 1;
      assert Snapshot() == next;
    }

    method UpdateUser(id: int, u: User)
      requires Valid() && id in users
      modifies this`users
      ensures Valid() && Snapshot() == UserUpdated(old(Snapshot()), id, u)
    {
      ghost var next := UserUpdated(Snapshot(), id, u);
      UserUpdatedOk(Snapshot(), id, u);
      users := users[id := users[id].(fullName := u.fullName, bio := u.bio, website := u.website)];
      assert Snapshot() == next;
    }

    method InsertPost(userId: Option<int>, caption: string, now: int) returns (id: int)
      requires Valid() && clock <= now
      modifies this`posts, this`nextPostId, this`clock
      ensures Valid() && Snapshot() == PostInserted(old(Snapshot()), userId, caption, now)
      ensures id == old(nextPostId) && id !in images
    {
      ghost var next := PostInserted(Snapshot(), userId, caption, now);
      PostInsertedOk(Snapshot(), userId, caption, now);
      FreshPostHasNoImages(Snapshot());
      id := nextPostId;
      posts := posts + [Post(id, userId, caption, now)];
      nextPostId := id + 1;
      clock := now;
      assert Snapshot() == next;
    }

    method InsertImage(postId: int, url: string)
      requires Valid() && HasPost(posts, postId)
      modifies this`images
      ensures Valid() && Snapshot() == ImageInserted(old(Snapshot()), postId, url)
    {
      ghost var next := ImageInserted(Snapshot(), postId, url);
      ImageInsertedOk(Snapshot(), postId, url);
      images := images[postId := ImagesOf(images, postId) + [url]];
      assert Snapshot() == next;
    }

    /** `DELETE FROM posts WHERE id = ?` with the foreign keys' ON DELETE CASCADE, one table after
        another. */
    method DeletePost(postId: int)
      requires Valid()
      modifies this`posts, this`images, this`likes, this`saves, this`comments
      ensures Valid() && Snapshot() == PostDeleted(old(Snapshot()), postId)
    {
      ghost var s := Snapshot();
      PostDeletedOk(s, postId);
      DropComments(postId);
      DropSaves(postId);
      DropLikes(postId);
      DropImages(postId);
      DropPostRow(postId);
      assert Snapshot() == PostDeleted(s, postId);
    }

    /** One table's step of the post delete's ON DELETE CASCADE: the post's comments. */
    method DropComments(postId: int)
      modifies this`comments
      ensures Snapshot() == old(Snapshot()).(comments := Where(old(comments), Other(CommentPost, postId)))
    {
      comments := Where(comments, Other(CommentPost, postId));
    }

    /** The cascade's step on `saved_posts`. */
    method DropSaves(postId: int)
      modifies this`saves
      ensures Snapshot() == old(Snapshot()).(saves := Where(old(saves), Other(SavePost, postId)))
    {
      saves := Where(saves, Other(SavePost, postId));
    }

    /** The cascade's step on `post_likes`. */
    method DropLikes(postId: int)
      modifies this`likes
      ensures Snapshot() == old(Snapshot()).(likes := LikesOfOthers(old(likes), postId))
    {
      likes := LikesOfOthers(likes, postId);
    }

    /** The cascade's step on `post_images`. */
    method DropImages(postId: int)
      modifies this`images
      ensures Snapshot() == old(Snapshot()).(images := old(images) - {postId})
    {
      images := images - {postId};
    }

    /** The `DELETE FROM posts WHERE id = ?` row itself. */
    method DropPostRow(postId: int)
      modifies this`posts
      ensures Snapshot() == old(Snapshot()).(posts := Where(old(posts), Other(PostKey, postId)))
    {
      posts := Where(posts, Other(PostKey, postId));
    }

    method InsertLike(postId: int, userId: int)
      requires Valid() && HasPost(posts, postId)
      modifies this`likes
      ensures Valid() && Snapshot() == LikesSet(old(Snapshot()), old(likes) + {(postId, userId)})
    {
      ghost var next := LikesSet(Snapshot(), likes + {(postId, userId)});
      LikesSetOk(Snapshot(), likes + {(postId, userId)});
      likes := likes + {(postId, userId)};
      assert Snapshot() == next;
    }

    method DeleteLike(postId: int, userId: int)
      requires Valid()
      modifies this`likes
      ensures Valid() && Snapshot() == LikesSet(old(Snapshot()), old(likes) - {(postId, userId)})
    {
      ghost var next := LikesSet(Snapshot(), likes - {(postId, userId)});
      LikesSetOk(Snapshot(), likes - {(postId, userId)});
      likes := likes - {(postId, userId)};
      assert Snapshot() == next;
    }

    method InsertSave(postId: int, userId: int, now: int)
      requires Valid() && HasPost(posts, postId) && (postId, userId) !in Keys(saves, SaveKey) && clock <= now
      modifies this`saves, this`clock
      ensures Valid() && Snapshot() == SaveInserted(old(Snapshot()), postId, userId, now)
    {
      ghost var next := SaveInserted(Snapshot(), postId, userId, now);
      SaveInsertedOk(Snapshot(), postId, userId, now);
      saves := saves + [Save(postId, userId, now)];
      clock := now;
      assert Snapshot() == next;
    }

    method DeleteSave(postId: int, userId: int)
      requires Valid()
      modifies this`saves
      ensures Valid() && Snapshot() == SaveDeleted(old(Snapshot()), postId, userId)
    {
      ghost var next := SaveDeleted(Snapshot(), postId, userId);
      SaveDeletedOk(Snapshot(), postId, userId);
      saves := Where(saves, Other(SaveKey, (postId, userId)));
      assert Snapshot() == next;
    }

    method InsertComment(postId: int, userId: int, text: string, now: int) returns (id: int)
      requires Valid() && HasPost(posts, postId) && text != [] && Trimmed(text) && clock <= now
      modifies this`comments, this`nextCommentId, this`clock
      ensures Valid() && Snapshot() == CommentInserted(old(Snapshot()), postId, userId, text, now)
      ensures id == old(nextCommentId)
    {
      ghost var next := CommentInserted(Snapshot(), postId, userId, text, now);
      CommentInsertedOk(Snapshot(), postId, userId, text, now);
      id := nextCommentId;
      comments := comments + [Comment(id, postId, userId, text, now)];
      nextCommentId := id + 1;
      clock := now;
      assert Snapshot() == next;
    }

    method DeleteComment(commentId: int)
      requires Valid()
      modifies this`comments
      ensures Valid() && Snapshot() == CommentDeleted(old(Snapshot()), commentId)
    {
      ghost var next := CommentDeleted(Snapshot(), commentId);
      CommentDeletedOk(Snapshot(), commentId);
      comments := Where(comments, Other(CommentKey, commentId));
      assert Snapshot() == next;
    }

    method InsertFollow(followerId: int, followingId: int, now: int)
      requires Valid() && followerId != followingId
      requires (followerId, followingId) !in Keys(follows, FollowKey) && clock <= now
      modifies this`follows, this`clock
      ensures Valid() && Snapshot() == FollowInserted(old(Snapshot()), followerId, followingId, now)
    {
      ghost var next := FollowInserted(Snapshot(), followerId, followingId, now);
      FollowInsertedOk(Snapshot(), followerId, followingId, now);
      follows := follows + [Follow(followerId, followingId, now)];
      clock := now;
      assert Snapshot() == next;
    }

    method DeleteFollow(followerId: int, followingId: int)
      requires Valid()
      modifies this`follows
      ensures Valid() && Snapshot() == FollowDeleted(old(Snapshot()), followerId, followingId)
    {
      ghost var next := FollowDeleted(Snapshot(), followerId, followingId);
      FollowDeletedOk(Snapshot(), followerId, followingId);
      follows := Where(follows, Other(FollowKey, (followerId, followingId)));
      assert Snapshot() == next;
    }

    method Notify(recipient: int, kind: NoticeKind, message: string, now: int)
      requires Valid() && clock <= now
      modifies this`notifications, this`nextNotificationId, this`clock
      ensures Valid() && Snapshot() == Notified(old(Snapshot()), recipient, kind, message, now)
    {
      ghost var next := Notified(Snapshot(), recipient, kind, message, now);
      NotifiedOk(Snapshot(), recipient, kind, message, now);
      notifications := notifications + [Notification(nextNotificationId, recipient, kind, message, false, now)];
      nextNotificationId := nextNotificationId + 1;
      clock := now;
      assert Snapshot() == next;
    }

    /** The UPDATE runs row by row: each of the user's rows is marked read in place. */
    method MarkAllRead(userId: int)
      requires Valid()
      modifies this`notifications
      ensures Valid() && Snapshot() == NotificationsRead(old(Snapshot()), userId)
    {
      ghost var next := NotificationsRead(Snapshot(), userId);
      NotificationsReadOk(Snapshot(), userId);
      ghost var target := MarkedRead(notifications, userId);
      var i := 0;
      while i < |notifications|
        invariant 0 <= i <= |notifications| == |target|
        invariant forall k :: 0 <= k < i ==> notifications[k] == target[k]
        invariant forall k :: i <= k < |notifications| ==> notifications[k] == old(notifications)[k]
      {
        if notifications[i].recipient == userId {
          notifications := notifications[i := notifications[i].(isRead := true)];
        }
        i := i + 1;
      }
      assert notifications == target;
      assert Snapshot() == next;
    }
  }
}
