/**
 * The post projections the API returns: the enriched feed post of GET /getPosts, the freshly
 * created post of POST /createPost, and the saved-post card of GET /users/:id/saved, together
 * with the display fallbacks they share ("User", "user", "U" and a null image).
 */
module Views {
  import opened Wrappers
  import opened Text
  import opened Rows
  import opened Schema
  import opened Db

  /** A comment joined with its author (`LEFT JOIN users`: the author columns may be null). */
  datatype CommentView = CommentView(id: int, text: string, createdAt: int, userId: int,
                                     author: Option<string>, username: Option<string>)

  /** The fields every post projection carries. `image` is the single-image field kept for
      older clients; `description` and `timestamp` are copies of `caption` and `createdAt`
      and are not repeated here. */
  datatype PostCard = PostCard(id: int, userId: Option<int>, caption: string, createdAt: int,
                               author: string, username: string, avatar: string,
                               image: Option<string>, images: seq<string>)

  /** A post as the feed shows it. */
  datatype FeedPost = FeedPost(card: PostCard, likes: nat, commentCount: nat,
                               comments: seq<CommentView>, isLiked: bool, isSaved: bool)

  /** A post as the saved-posts page shows it. */
  datatype SavedPost = SavedPost(card: PostCard, likes: nat, commentCount: nat, isSaved: bool)

  /** The tables a post projection reads besides `posts`. */
  datatype ViewTables = ViewTables(users: map<int, User>, images: map<int, seq<string>>,
                                   likes: set<(int, int)>, saves: seq<Save>, comments: seq<Comment>)

  /** JavaScript's `value || fallback` for a nullable text column: null and "" fall back. */
  function OrElse(v: Option<string>, fallback: string): (r: string)
    ensures fallback != [] ==> r != []
    ensures r == fallback || (v == Some(r) && r != [])
  {
    if v.Some? && v.value != [] then v.value else fallback
  }

  /** The avatar glyph `(name || "U").charAt(0).toUpperCase()`. */
  function Initial(name: Option<string>): (r: string)
    ensures |r| == 1
  {
    [UpperChar(OrElse(name, "U")[0])]
  }

  /** `LEFT JOIN users u ON p.user_id = u.id`: the author row, if any. */
  function AuthorOf(users: map<int, User>, userId: Option<int>): (r: Option<User>)
    ensures r.Some? <==> userId.Some? && userId.value in users
    ensures r.Some? ==> r.value == users[userId.value]
  {
    if userId.Some? && userId.value in users then Some(users[userId.value]) else None
  }

  function FullNameOf(u: Option<User>): Option<string> {
    if u.Some? then Some(u.value.fullName) else None
  }

  function UsernameOf(u: Option<User>): Option<string> {
    if u.Some? then Some(u.value.username) else None
  }

  /** `imageUrls[0] || null`. */
  function FirstImage(urls: seq<string>): (r: Option<string>)
    ensures r.Some? <==> |urls| > 0 && urls[0] != []
    ensures r.Some? ==> r.value == urls[0]
  {
    if |urls| > 0 && urls[0] != [] then Some(urls[0]) else None
  }

  /** The common card of a post. Whatever the author row holds, the avatar is the upper-cased
      initial of the author name shown next to it, because both fallbacks ("User" and "U")
      start with "U". */
  function Card(p: Post, users: map<int, User>, images: map<int, seq<string>>): (c: PostCard)
    ensures c.id == p.id && c.userId == p.userId && c.caption == p.caption && c.createdAt == p.createdAt
    ensures c.author != [] && c.username != [] && |c.avatar| == 1
    ensures c.avatar == [UpperChar(c.author[0])]
    ensures c.images == ImagesOf(images, p.id) && c.image == FirstImage(c.images)
  {
    var author := AuthorOf(users, p.userId);
    PostCard(p.id, p.userId, p.caption, p.createdAt,
             OrElse(FullNameOf(author), "User"), OrElse(UsernameOf(author), "user"),
             Initial(FullNameOf(author)), FirstImage(ImagesOf(images, p.id)), ImagesOf(images, p.id))
  }

  /** The author shown on a card is the author's full name when there is a non-empty one, and
      "User" otherwise; likewise the username, with "user". */
  lemma CardFallbacks(p: Post, users: map<int, User>, images: map<int, seq<string>>)
    ensures var c := Card(p, users, images);
            && (c.author == "User" <==> (p.userId.None? || p.userId.value !in users
                                         || users[p.userId.value].fullName in {[], "User"}))
            && (c.username == "user" <==> (p.userId.None? || p.userId.value !in users
                                           || users[p.userId.value].username in {[], "user"}))
            && (c.author != "User" ==> c.author == users[p.userId.value].fullName)
            && (c.username != "user" ==> c.username == users[p.userId.value].username)
  {
  }

  /** One comment with its author columns. */
  function CommentViewOf(c: Comment, users: map<int, User>): (v: CommentView)
    ensures v.id == c.id && v.text == c.text && v.createdAt == c.createdAt && v.userId == c.userId
    ensures v.author.Some? <==> c.userId in users
  {
    var u := if c.userId in users then Some(users[c.userId]) else None;
    CommentView(c.id, c.text, c.createdAt, c.userId, FullNameOf(u), UsernameOf(u))
  }

  function CommentViews(cs: seq<Comment>, users: map<int, User>): (r: seq<CommentView>)
    ensures |r| == |cs| && forall i :: 0 <= i < |cs| ==> r[i] == CommentViewOf(cs[i], users)
  {
    seq(|cs|, i requires 0 <= i < |cs| => CommentViewOf(cs[i], users))
  }

  function OnPost(postId: int): Comment -> bool {
    (c: Comment) => c.postId == postId
  }

  /** `SELECT ... FROM post_comments WHERE post_id = ? ORDER BY created_at ASC`. */
  function CommentsOf(comments: seq<Comment>, postId: int): (r: seq<Comment>)
    ensures forall i :: 0 <= i < |r| ==> r[i] in comments && r[i].postId == postId
    ensures forall i :: 0 <= i < |comments| && comments[i].postId == postId ==> comments[i] in r
  {
    Where(comments, OnPost(postId))
  }

  /** `ORDER BY created_at DESC LIMIT 3`, then `comments.reverse()`. */
  function LatestComments(comments: seq<Comment>, postId: int): (r: seq<Comment>)
    ensures |r| == Min(3, |CommentsOf(comments, postId)|)
    ensures forall i :: 0 <= i < |r| ==> r[i] in comments && r[i].postId == postId
  {
    Reverse(Limit(Reverse(CommentsOf(comments, postId)), 3))
  }

  /** The feed's comments are the post's last three (or fewer) comments, oldest first. */
  lemma LatestCommentsAreLastThree(comments: seq<Comment>, postId: int)
    ensures var all := CommentsOf(comments, postId);
            LatestComments(comments, postId) == all[|all| - Min(3, |all|)..]
  {
    LatestInOrder(CommentsOf(comments, postId), 3);
  }

  /** The feed's comments are in chronological order when the table is. */
  lemma LatestCommentsAscending(comments: seq<Comment>, postId: int)
    requires Ascending(comments, CommentAt)
    ensures Ascending(LatestComments(comments, postId), CommentAt)
  {
    var all := CommentsOf(comments, postId);
    WhereAscending(comments, OnPost(postId), CommentAt);
    LatestCommentsAreLastThree(comments, postId);
    var tail := all[|all| - Min(3, |all|)..];
    forall i, j | 0 <= i < j < |tail| ensures CommentAt(tail[i]) <= CommentAt(tail[j]) {
      assert tail[i] == all[|all| - Min(3, |all|) + i] && tail[j] == all[|all| - Min(3, |all|) + j];
    }
  }

  /** `SELECT COUNT(*) FROM post_likes WHERE post_id = ?`. */
  function LikeCount(likes: set<(int, int)>, postId: int): (r: nat)
    ensures r == 0 <==> forall u :: (postId, u) !in likes
  {
    var ofPost := set l | l in likes && l.0 == postId;
    NoLikeOfPost(likes, postId, ofPost);
    |ofPost|
  }

  lemma NoLikeOfPost(likes: set<(int, int)>, postId: int, ofPost: set<(int, int)>)
    requires ofPost == set l | l in likes && l.0 == postId
    ensures |ofPost| == 0 <==> forall u :: (postId, u) !in likes
  {
    if |ofPost| != 0 {
      var l :| l in ofPost;
      assert l in likes && l.0 == postId;
      var u := l.1;
      assert (postId, u) == l && (postId, u) in likes;
      assert !(forall v :: (postId, v) !in likes);
    } else {
      forall u ensures (postId, u) !in likes {
        assert (postId, u) !in ofPost;
      }
    }
  }

  /** A like toggle moves the like count of its post by one, up for a new like and down for a
      removed one. */
  lemma LikeCountToggled(likes: set<(int, int)>, postId: int, userId: int)
    ensures LikeCount(Toggled(likes, (postId, userId)), postId)
            == if (postId, userId) in likes then LikeCount(likes, postId) - 1 else LikeCount(likes, postId) + 1
  {
    var x := (postId, userId);
    var before := set l | l in likes && l.0 == postId;
    var after := set l | l in Toggled(likes, x) && l.0 == postId;
    if x in likes {
      assert Toggled(likes, x) == likes - {x};
      assert x in before && after == before - {x};
    } else {
      assert Toggled(likes, x) == likes + {x};
      assert x !in before && after == before + {x};
    }
  }

  /** A like toggle leaves the like count of every other post alone. */
  lemma LikeCountToggledOthers(likes: set<(int, int)>, postId: int, userId: int, q: int)
    requires q != postId
    ensures LikeCount(Toggled(likes, (postId, userId)), q) == LikeCount(likes, q)
  {
    assert (set l | l in Toggled(likes, (postId, userId)) && l.0 == q) == (set l | l in likes && l.0 == q);
  }

  /** The tables a projection reads, as they stand in the database. */
  function TablesOf(db: Database): ViewTables
    reads db
  {
    ViewTables(db.users, db.images, db.likes, db.saves, db.comments)
  }

  /** `SELECT id FROM post_likes WHERE post_id = ? AND user_id = ?` (likewise saved_posts),
      asked only when the caller id is truthy. */
  function ViewerLiked(likes: set<(int, int)>, postId: int, viewer: Option<int>): (r: bool)
    ensures r <==> Truthy(viewer) && (postId, viewer.value) in likes
  {
    Truthy(viewer) && (postId, viewer.value) in likes
  }

  function ViewerSaved(saves: seq<Save>, postId: int, viewer: Option<int>): (r: bool)
    ensures r <==> Truthy(viewer) && HasSave(saves, postId, viewer.value)
  {
    Truthy(viewer) && HasSave(saves, postId, viewer.value)
  }

  /** One element of `enrichedPosts` in GET /getPosts. */
  function FeedView(p: Post, t: ViewTables, viewer: Option<int>): (v: FeedPost)
    ensures v.card == Card(p, t.users, t.images)
    ensures v.likes == LikeCount(t.likes, p.id)
    ensures v.commentCount == |CommentsOf(t.comments, p.id)|
    ensures v.comments == CommentViews(LatestComments(t.comments, p.id), t.users)
    ensures !Truthy(viewer) ==> !v.isLiked && !v.isSaved
  {
    FeedPost(Card(p, t.users, t.images), LikeCount(t.likes, p.id), |CommentsOf(t.comments, p.id)|,
             CommentViews(LatestComments(t.comments, p.id), t.users),
             ViewerLiked(t.likes, p.id, viewer), ViewerSaved(t.saves, p.id, viewer))
  }

  /** The search filter of GET /getPosts: nothing is filtered for an empty term; otherwise the
      caption, the author's username or the author's full name must contain the term (a post
      without an author row matches on its caption only). */
  function Matching(users: map<int, User>, term: string): Post -> bool {
    (p: Post) =>
      term == [] || Contains(p.caption, term)
      || (p.userId.Some? && p.userId.value in users
          && (Contains(users[p.userId.value].username, term) || Contains(users[p.userId.value].fullName, term)))
  }

  /** The posts GET /getPosts selects, in `ORDER BY p.created_at DESC` order. */
  function SearchPosts(posts: seq<Post>, users: map<int, User>, term: string): (r: seq<Post>)
    ensures |r| <= |posts|
    ensures forall i :: 0 <= i < |r| ==> r[i] in posts && Matching(users, term)(r[i])
  {
    Reverse(Where(posts, Matching(users, term)))
  }

  /** The search result holds exactly the matching posts, newest first; an empty term keeps
      every post. */
  lemma SearchPostsSpec(posts: seq<Post>, users: map<int, User>, term: string)
    requires Ascending(posts, PostAt)
    ensures var r := SearchPosts(posts, users, term);
            && (forall i :: 0 <= i < |r| ==> r[i] in posts && Matching(users, term)(r[i]))
            && (forall i :: 0 <= i < |posts| && Matching(users, term)(posts[i]) ==> posts[i] in r)
            && Descending(r, PostAt)
            && (term == [] ==> r == Reverse(posts))
  {
    var w := Where(posts, Matching(users, term));
    WhereAscending(posts, Matching(users, term), PostAt);
    ReverseDescending(w, PostAt);
    var r := Reverse(w);
    forall i | 0 <= i < |r| ensures r[i] in posts && Matching(users, term)(r[i]) {
      assert r[i] == w[|w| - 1 - i];
    }
    forall i | 0 <= i < |posts| && Matching(users, term)(posts[i]) ensures posts[i] in r {
      assert posts[i] in w;
      var k :| 0 <= k < |w| && w[k] == posts[i];
      assert r[|w| - 1 - k] == w[k];
    }
    if term == [] {
      WhereAll(posts, Matching(users, term));
    }
  }

  /** The `posts` array of GET /getPosts: each selected post enriched, in query order. */
  function Feed(posts: seq<Post>, t: ViewTables, term: string, viewer: Option<int>): (r: seq<FeedPost>)
    ensures var rows := SearchPosts(posts, t.users, term);
            |r| == |rows| && forall i :: 0 <= i < |rows| ==> r[i] == FeedView(rows[i], t, viewer)
  {
    var rows := SearchPosts(posts, t.users, term);
    MapAt(rows, Enrich(t, viewer));
    Map(rows, Enrich(t, viewer))
  }

  /** The enrichment applied to each selected row. */
  function Enrich(t: ViewTables, viewer: Option<int>): Post -> FeedPost {
    (p: Post) => FeedView(p, t, viewer)
  }

  /** The feed holds at most one entry per post, newest first; an empty term shows every
      post; without a viewer nothing is marked liked or saved. */
  lemma FeedSpec(posts: seq<Post>, t: ViewTables, term: string, viewer: Option<int>)
    requires Ascending(posts, PostAt)
    ensures var r := Feed(posts, t, term, viewer);
            && |r| <= |posts|
            && (forall i, j :: 0 <= i < j < |r| ==> r[i].card.createdAt >= r[j].card.createdAt)
            && (!Truthy(viewer) ==> forall i :: 0 <= i < |r| ==> !r[i].isLiked && !r[i].isSaved)
            && (term == [] ==> |r| == |posts|)
  {
    var rows := SearchPosts(posts, t.users, term);
    var r := Feed(posts, t, term, viewer);
    SearchPostsSpec(posts, t.users, term);
    forall i, j | 0 <= i < j < |r| ensures r[i].card.createdAt >= r[j].card.createdAt {
      assert r[i].card.createdAt == PostAt(rows[i]) && r[j].card.createdAt == PostAt(rows[j]);
    }
  }

  /** getEnrichedPost: the post with its images, counts zero, no comments, not liked or saved;
      null when the post is absent. */
  function EnrichedPost(posts: seq<Post>, users: map<int, User>, images: map<int, seq<string>>,
                        postId: int): (r: Option<FeedPost>)
    ensures r.Some? <==> HasPost(posts, postId)
    ensures r.Some? ==> && r.value.card == Card(FindPost(posts, postId).value, users, images)
                        && r.value.card.images == ImagesOf(images, postId)
                        && r.value.likes == 0 && r.value.commentCount == 0 && r.value.comments == []
                        && !r.value.isLiked && !r.value.isSaved
  {
    match FindPost(posts, postId)
    case None => None
    case Some(p) => Some(FeedPost(Card(p, users, images), 0, 0, [], false, false))
  }

  /** One element of `enriched` in GET /users/:id/saved. */
  function SavedView(p: Post, t: ViewTables): (v: SavedPost)
    ensures v.card == Card(p, t.users, t.images) && v.isSaved
    ensures v.likes == LikeCount(t.likes, p.id) && v.commentCount == |CommentsOf(t.comments, p.id)|
  {
    SavedPost(Card(p, t.users, t.images), LikeCount(t.likes, p.id), |CommentsOf(t.comments, p.id)|, true)
  }

  function SavedByUser(userId: int): Save -> bool {
    (s: Save) => s.userId == userId
  }

  /** `FROM saved_posts sp ... WHERE sp.user_id = ? ORDER BY sp.created_at DESC`. */
  function SavesOfUser(saves: seq<Save>, userId: int): seq<Save> {
    Reverse(Where(saves, SavedByUser(userId)))
  }

  /** The user's saves, newest first, and nobody else's. */
  lemma SavesOfUserSpec(saves: seq<Save>, userId: int)
    requires Ascending(saves, SaveAt)
    ensures var r := SavesOfUser(saves, userId);
            && (forall i :: 0 <= i < |r| ==> r[i] in saves && r[i].userId == userId)
            && (forall i :: 0 <= i < |saves| && saves[i].userId == userId ==> saves[i] in r)
            && Descending(r, SaveAt)
  {
    var w := Where(saves, SavedByUser(userId));
    WhereAscending(saves, SavedByUser(userId), SaveAt);
    ReverseDescending(w, SaveAt);
    var r := Reverse(w);
    forall i | 0 <= i < |r| ensures r[i] in saves && r[i].userId == userId {
      assert r[i] == w[|w| - 1 - i];
      assert SavedByUser(userId)(r[i]);
    }
    forall i | 0 <= i < |saves| && saves[i].userId == userId ensures saves[i] in r {
      assert SavedByUser(userId)(saves[i]);
      assert saves[i] in w;
      var k :| 0 <= k < |w| && w[k] == saves[i];
      assert r[|w| - 1 - k] == w[k];
    }
  }

  /** `JOIN posts p ON sp.post_id = p.id`: the saved posts, dropping saves whose post is gone. */
  function JoinPosts(rows: seq<Save>, posts: seq<Post>): (r: seq<Post>)
    ensures (forall i :: 0 <= i < |rows| ==> HasPost(posts, rows[i].postId))
            ==> |r| == |rows| && forall i :: 0 <= i < |rows| ==> r[i].id == rows[i].postId && r[i] in posts
  {
    if rows == [] then []
    else
      var rest := JoinPosts(rows[1..], posts);
      assert (forall i :: 0 <= i < |rows| ==> HasPost(posts, rows[i].postId))
             ==> forall i :: 0 <= i < |rows[1..]| ==> HasPost(posts, rows[1..][i].postId) by {
        if forall i :: 0 <= i < |rows| ==> HasPost(posts, rows[i].postId) {
          forall i | 0 <= i < |rows[1..]| ensures HasPost(posts, rows[1..][i].postId) {
            assert rows[1..][i] == rows[i + 1];
          }
        }
      }
      match FindPost(posts, rows[0].postId)
      case None => rest
      case Some(p) => [p] + rest
  }

  /** The rows the saved-posts query returns. */
  function SavedRows(saves: seq<Save>, posts: seq<Post>, userId: int): seq<Post> {
    JoinPosts(SavesOfUser(saves, userId), posts)
  }
}
