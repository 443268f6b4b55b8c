/**
 * The relational store behind the API: one row type per MySQL table, the constraints the
 * schema files and the route handlers keep (unique keys, foreign keys with ON DELETE CASCADE,
 * AUTO_INCREMENT ids, CURRENT_TIMESTAMP stamps), gathered in the `Store` value that the
 * database object's fields make up.
 */
module Schema {
  import opened Wrappers
  import opened Text
  import opened Rows

  /** An error response: the HTTP status and the `message` of the JSON envelope. */
  datatype Failure = Failure(status: nat, message: string)

  /** A `users` row (the key `id` is the map key of the table). */
  datatype User = User(fullName: string, username: string, email: string, passwordHash: string,
                       bio: string, website: string, createdAt: int)

  /** An account as the routes answer it: every `users` column but `password_hash`. */
  datatype PublicUser = PublicUser(id: int, fullName: string, username: string, email: string,
                                   bio: string, website: string, createdAt: int)

  function PublicUserOf(id: int, u: User): PublicUser {
    PublicUser(id, u.fullName, u.username, u.email, u.bio, u.website, u.createdAt)
  }

  /** A `posts` row; `user_id` is nullable. */
  datatype Post = Post(id: int, userId: Option<int>, caption: string, createdAt: int)

  /** A `saved_posts` row. */
  datatype Save = Save(postId: int, userId: int, createdAt: int)

  /** A `post_comments` row. */
  datatype Comment = Comment(id: int, postId: int, userId: int, text: string, createdAt: int)

  /** A `follows` row: `followerId` follows `followingId`. */
  datatype Follow = Follow(followerId: int, followingId: int, createdAt: int)

  /** The `type` column of `notifications`, an ENUM('like', 'comment', 'follow'). */
  datatype NoticeKind = LikeNotice | CommentNotice | FollowNotice

  /** A `notifications` row; `recipient` is its `user_id` column. */
  datatype Notification = Notification(id: int, recipient: int, kind: NoticeKind, message: string,
                                       isRead: bool, createdAt: int)

  /** The ENUM label stored for a notification kind. */
  function KindName(k: NoticeKind): (r: string)
    ensures r == "like" || r == "comment" || r == "follow"
  {
    match k
    case LikeNotice => "like"
    case CommentNotice => "comment"
    case FollowNotice => "follow"
  }

  /** JavaScript truthiness of a numeric id that may be null: `null` and `0` are falsy. */
  predicate Truthy(id: Option<int>) {
    id.Some? && id.value != 0
  }

  const PostKey := (p: Post) => p.id
  const PostAt := (p: Post) => p.createdAt
  const SaveKey := (s: Save) => (s.postId, s.userId)
  const SaveAt := (s: Save) => s.createdAt
  const CommentKey := (c: Comment) => c.id
  const CommentAt := (c: Comment) => c.createdAt
  const FollowKey := (f: Follow) => (f.followerId, f.followingId)
  const FollowAt := (f: Follow) => f.createdAt
  const NoticeKey := (n: Notification) => n.id
  const NoticeAt := (n: Notification) => n.createdAt

  /** `SELECT ... FROM posts WHERE id = ?` returns a row. */
  predicate HasPost(posts: seq<Post>, id: int) {
    exists i :: 0 <= i < |posts| && posts[i].id == id
  }

  /** `SELECT * FROM posts WHERE id = ?`, first row. */
  function FindPost(posts: seq<Post>, id: int): (r: Option<Post>)
    ensures r.Some? <==> HasPost(posts, id)
    ensures r.Some? ==> r.value in posts && r.value.id == id
  {
    if posts == [] then None
    else if posts[0].id == id then Some(posts[0])
    else
      var r := FindPost(posts[1..], id);
      assert HasPost(posts, id) ==> HasPost(posts[1..], id) by {
        if HasPost(posts, id) {
          var i :| 0 <= i < |posts| && posts[i].id == id;
          assert posts[1..][i - 1] == posts[i];
        }
      }
      assert HasPost(posts[1..], id) ==> HasPost(posts, id) by {
        if HasPost(posts[1..], id) {
          var i :| 0 <= i < |posts[1..]| && posts[1..][i].id == id;
          assert posts[i + 1] == posts[1..][i];
        }
      }
      r
  }

  /** The `(post_id, user_id)` pair has a row in `saved_posts`. */
  predicate HasSave(saves: seq<Save>, postId: int, userId: int) {
    exists i :: 0 <= i < |saves| && saves[i].postId == postId && saves[i].userId == userId
  }

  /** The `(follower_id, following_id)` pair has a row in `follows`. */
  predicate HasFollow(follows: seq<Follow>, followerId: int, followingId: int) {
    exists i :: 0 <= i < |follows| && follows[i].followerId == followerId && follows[i].followingId == followingId
  }

  /** The name a notification uses for the acting user: `full_name`, or "Someone" when the
      `SELECT full_name FROM users WHERE id = ?` finds no row. */
  function ActorName(users: map<int, User>, id: int): (r: string)
    ensures id in users ==> r == users[id].fullName
    ensures id !in users ==> r == "Someone"
  {
    if id in users then users[id].fullName else "Someone"
  }

  const SavePost := (s: Save) => s.postId
  const CommentPost := (c: Comment) => c.postId

  /** `SELECT * FROM post_comments WHERE id = ?`, first row. */
  function FindComment(comments: seq<Comment>, id: int): (r: Option<Comment>)
    ensures r.Some? <==> id in Keys(comments, CommentKey)
    ensures r.Some? ==> r.value in comments && r.value.id == id
  {
    First(comments, KeyIs(CommentKey, id))
  }

  /** A save row exists for the pair exactly when the pair is a key of `saved_posts`. */
  lemma SaveKeys(saves: seq<Save>, postId: int, userId: int)
    ensures HasSave(saves, postId, userId) <==> (postId, userId) in Keys(saves, SaveKey)
  {
    if (postId, userId) in Keys(saves, SaveKey) {
      var i :| 0 <= i < |saves| && SaveKey(saves[i]) == (postId, userId);
    }
  }

  /** Likewise a follow row and the keys of `follows`. */
  lemma FollowKeys(follows: seq<Follow>, followerId: int, followingId: int)
    ensures HasFollow(follows, followerId, followingId) <==> (followerId, followingId) in Keys(follows, FollowKey)
  {
    if (followerId, followingId) in Keys(follows, FollowKey) {
      var i :| 0 <= i < |follows| && FollowKey(follows[i]) == (followerId, followingId);
    }
  }

  /** Inserting a post keeps every existing post and adds the new one. */
  lemma HasPostAppend(posts: seq<Post>, p: Post)
    ensures forall k :: HasPost(posts + [p], k) <==> HasPost(posts, k) || k == p.id
  {
    var t := posts + [p];
    forall k | HasPost(posts, k) ensures HasPost(t, k) {
      var i :| 0 <= i < |posts| && posts[i].id == k;
      assert t[i] == posts[i];
    }
    assert t[|posts|] == p;
    forall k | HasPost(t, k) && k != p.id ensures HasPost(posts, k) {
      var i :| 0 <= i < |t| && t[i].id == k;
      assert i < |posts| && t[i] == posts[i];
    }
  }

  /** Deleting a post keeps every other post and only those. */
  lemma HasPostWhere(posts: seq<Post>, id: int)
    ensures forall k :: HasPost(Where(posts, Other(PostKey, id)), k) <==> HasPost(posts, k) && k != id
  {
    var w := Where(posts, Other(PostKey, id));
    forall k | HasPost(posts, k) && k != id ensures HasPost(w, k) {
      var i :| 0 <= i < |posts| && posts[i].id == k;
      assert Other(PostKey, id)(posts[i]);
      var j :| 0 <= j < |w| && w[j] == posts[i];
    }
    forall k | HasPost(w, k) ensures HasPost(posts, k) && k != id {
      var i :| 0 <= i < |w| && w[i].id == k;
      assert Other(PostKey, id)(w[i]);
      var j :| 0 <= j < |posts| && posts[j] == w[i];
    }
  }

  /** `users`: AUTO_INCREMENT ids below the next id; `username` UNIQUE. Kept by the register
      handler rather than the DDL: `email` unique, and both stored normalised (trimmed,
      lower-cased). */
  ghost predicate UsersOk(users: map<int, User>, nextId: int) {
    && 1 <= nextId && (forall id :: id in users ==> 1 <= id < nextId)
    && (forall id :: id in users ==> Normalized(users[id].email) && Normalized(users[id].username))
    && (forall a, b :: a in users && b in users && a != b ==> users[a].email != users[b].email)
    && (forall a, b :: a in users && b in users && a != b ==> users[a].username != users[b].username)
  }

  /** `posts`: rows in id order, AUTO_INCREMENT ids, stamps non-decreasing and not in the future. */
  ghost predicate PostsOk(posts: seq<Post>, nextId: int, clock: int) {
    && Increasing(posts, PostKey) && AllAtMost(posts, PostKey, nextId - 1)
    && Ascending(posts, PostAt) && AllAtMost(posts, PostAt, clock)
  }

  /** `post_images`: every image belongs to a post (the images go when their post goes). */
  ghost predicate ImagesOk(images: map<int, seq<string>>, posts: seq<Post>) {
    forall k :: k in images ==> HasPost(posts, k)
  }

  /** `SELECT image_url FROM post_images WHERE post_id = ? ORDER BY sort_order ASC`. */
  function ImagesOf(images: map<int, seq<string>>, postId: int): (r: seq<string>)
    ensures postId !in images ==> r == []
  {
    if postId in images then images[postId] else []
  }

  /** `post_likes`: a set of `(post_id, user_id)` pairs, so UNIQUE KEY unique_like holds by
      construction; FOREIGN KEY post_id ON DELETE CASCADE. */
  ghost predicate LikesOk(likes: set<(int, int)>, posts: seq<Post>) {
    forall l :: l in likes ==> HasPost(posts, l.0)
  }

  /** `saved_posts`: UNIQUE KEY unique_save (post_id, user_id); FOREIGN KEY post_id ON DELETE
      CASCADE; stamps in insertion order. */
  ghost predicate SavesOk(saves: seq<Save>, posts: seq<Post>, clock: int) {
    && Distinct(saves, SaveKey)
    && (forall i :: 0 <= i < |saves| ==> HasPost(posts, saves[i].postId))
    && Ascending(saves, SaveAt) && AllAtMost(saves, SaveAt, clock)
  }

  /** `post_comments`: AUTO_INCREMENT ids; FOREIGN KEY post_id ON DELETE CASCADE; text stored
      trimmed and non-empty; stamps in insertion order. */
  ghost predicate CommentsOk(comments: seq<Comment>, posts: seq<Post>, nextId: int, clock: int) {
    && Increasing(comments, CommentKey) && AllAtMost(comments, CommentKey, nextId - 1)
    && (forall i :: 0 <= i < |comments| ==> HasPost(posts, comments[i].postId))
    && (forall i :: 0 <= i < |comments| ==> comments[i].text != [] && Trimmed(comments[i].text))
    && Ascending(comments, CommentAt) && AllAtMost(comments, CommentAt, clock)
  }

  /** `follows`: UNIQUE KEY unique_follow (follower_id, following_id); nobody follows
      themselves (the route refuses it); stamps in insertion order. */
  ghost predicate FollowsOk(follows: seq<Follow>, clock: int) {
    && Distinct(follows, FollowKey)
    && (forall i :: 0 <= i < |follows| ==> follows[i].followerId != follows[i].followingId)
    && Ascending(follows, FollowAt) && AllAtMost(follows, FollowAt, clock)
  }

  /** `notifications`: AUTO_INCREMENT ids, stamps in insertion order. */
  ghost predicate NotificationsOk(notes: seq<Notification>, nextId: int, clock: int) {
    && Increasing(notes, NoticeKey) && AllAtMost(notes, NoticeKey, nextId - 1)
    && Ascending(notes, NoticeAt) && AllAtMost(notes, NoticeAt, clock)
  }

  /** The contents of every table at one moment, with the AUTO_INCREMENT counters and the
      latest CURRENT_TIMESTAMP written. */
  datatype Store = Store(users: map<int, User>, nextUserId: int, posts: seq<Post>, nextPostId: int,
                         images: map<int, seq<string>>, likes: set<(int, int)>, saves: seq<Save>,
                         comments: seq<Comment>, nextCommentId: int, follows: seq<Follow>,
                         notifications: seq<Notification>, nextNotificationId: int, clock: int)

  /** Every table keeps its DDL constraints and the invariants the handlers keep. The
      AUTO_INCREMENT counters then point past every stored id, so the next insert cannot
      collide with a stored row. */
  ghost predicate StoreOk(s: Store)
    ensures StoreOk(s) ==> s.nextUserId !in s.users
    ensures StoreOk(s) ==> forall i :: 0 <= i < |s.posts| ==> s.posts[i].id < s.nextPostId
  {
    && UsersOk(s.users, s.nextUserId)
    && PostsOk(s.posts, s.nextPostId, s.clock)
    && ImagesOk(s.images, s.posts)
    && LikesOk(s.likes, s.posts)
    && SavesOk(s.saves, s.posts, s.clock)
    && CommentsOk(s.comments, s.posts, s.nextCommentId, s.clock)
    && FollowsOk(s.follows, s.clock)
    && NotificationsOk(s.notifications, s.nextNotificationId, s.clock)
  }
}
